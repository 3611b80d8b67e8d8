/**
  The instruction index of tago.go (type Instructions): a multimap from an
  Instruction to the ordered list of FieldNames that carry it, and the
  in-place, append-only merge `concat`.
*/
module Index {
  import opened Model

  type IndexMap = map<Instruction, seq<FieldName>>

  /** The list stored under `i`, or the empty list when `i` is not a key. */
  function Lookup(m: IndexMap, i: Instruction): seq<FieldName>
  {
    if i in m then m[i] else []
  }

  /** Every name of `names`, in order, with `prefix` added. */
  function Prefixed(names: seq<FieldName>, prefix: string): (r: seq<FieldName>)
    ensures |r| == |names|
  {
    if names == [] then [] else [AddPrefix(names[0], prefix)] + Prefixed(names[1..], prefix)
  }

  /** The `k`-th prefixed name is the `k`-th name with `prefix` added. */
  lemma {:induction false} PrefixedAt(names: seq<FieldName>, prefix: string, k: nat)
    requires k < |names|
    ensures Prefixed(names, prefix)[k] == AddPrefix(names[k], prefix)
  {
    if k > 0 {
      PrefixedAt(names[1..], prefix, k - 1);
    }
  }

  lemma {:induction false} PrefixedAppend(a: seq<FieldName>, b: seq<FieldName>, prefix: string)
    ensures Prefixed(a + b, prefix) == Prefixed(a, prefix) + Prefixed(b, prefix)
  {
    if a == [] {
      assert a + b == b;
    } else {
      assert (a + b)[1..] == a[1..] + b;
      PrefixedAppend(a[1..], b, prefix);
    }
  }

  /** The empty prefix changes no name. */
  lemma {:induction false} PrefixedEmpty(names: seq<FieldName>)
    ensures Prefixed(names, "") == names
  {
    if names != [] {
      PrefixedEmpty(names[1..]);
      assert AddPrefix(names[0], "") == names[0];
    }
  }

  /**
    The index `t` becomes after `t.concat(other, prefix)`: the keys of both,
    and under each key the old list followed by the prefixed names `other`
    holds there, in their order.
  */
  function Merge(t: IndexMap, other: IndexMap, prefix: string): (r: IndexMap)
    ensures r.Keys == t.Keys + other.Keys
    ensures forall i :: Lookup(r, i) == Lookup(t, i) + Prefixed(Lookup(other, i), prefix)
  {
    var r := map i | i in t.Keys + other.Keys :: Lookup(t, i) + Prefixed(Lookup(other, i), prefix);
    assert forall i :: i !in r ==> Lookup(t, i) == [] && Lookup(other, i) == [];
    r
  }

  /** Equal lookups make equal indexes when the key sets agree. */
  lemma IndexExt(a: IndexMap, b: IndexMap)
    requires a.Keys == b.Keys
    requires forall i :: Lookup(a, i) == Lookup(b, i)
    ensures a == b
  {
    forall i | i in a ensures a[i] == b[i] {
      assert Lookup(a, i) == Lookup(b, i);
    }
  }

  /** Merging an empty index changes nothing. */
  lemma MergeEmpty(t: IndexMap, prefix: string)
    ensures Merge(t, map[], prefix) == t
  {
    IndexExt(Merge(t, map[], prefix), t);
  }

  /** Merging into an empty index with no prefix copies the other index. */
  lemma MergeIntoEmpty(other: IndexMap)
    ensures Merge(map[], other, "") == other
  {
    forall i ensures Lookup(Merge(map[], other, ""), i) == Lookup(other, i) {
      PrefixedEmpty(Lookup(other, i));
    }
    IndexExt(Merge(map[], other, ""), other);
  }

  /**
    Prefixing the merged index with `prefix` is merging the prefixed pieces:
    a merge with `prefix` of a merge with no prefix.
  */
  lemma MergeShift(f: IndexMap, g: IndexMap, prefix: string)
    ensures Merge(Merge(map[], f, prefix), g, prefix) == Merge(map[], Merge(f, g, ""), prefix)
  {
    var lhs, rhs := Merge(Merge(map[], f, prefix), g, prefix), Merge(map[], Merge(f, g, ""), prefix);
    forall i ensures Lookup(lhs, i) == Lookup(rhs, i) {
      MergeShiftAt(f, g, prefix, i);
    }
    IndexExt(lhs, rhs);
  }

  lemma MergeShiftAt(f: IndexMap, g: IndexMap, prefix: string, i: Instruction)
    ensures Lookup(Merge(Merge(map[], f, prefix), g, prefix), i) == Lookup(Merge(map[], Merge(f, g, ""), prefix), i)
  {
    var lf, lg := Lookup(f, i), Lookup(g, i);
    PrefixedEmpty(lg);
    PrefixedAppend(lf, lg, prefix);
    assert Lookup(Merge(map[], f, prefix), i) == Prefixed(lf, prefix);
    assert Lookup(Merge(f, g, ""), i) == lf + lg;
  }

  /** Merging only appends: every old list is a prefix of the new one. */
  lemma MergeAppendOnly(t: IndexMap, other: IndexMap, prefix: string, i: Instruction)
    ensures Lookup(t, i) <= Lookup(Merge(t, other, prefix), i)
  {
  }

  /**
    Where concat stands once every key of `other` outside `todo` has been
    copied: those lists are extended, the others are as they started.
  */
  ghost predicate ConcatProgress(entries: IndexMap, start: IndexMap, other: IndexMap, prefix: string, todo: set<Instruction>)
  {
    && entries.Keys == start.Keys + (other.Keys - todo)
    && forall i :: Lookup(entries, i) == Lookup(start, i) + (if i in todo then [] else Prefixed(Lookup(other, i), prefix))
  }

  /** Copying the key `key` of `other` moves concat one key further. */
  lemma ConcatStep(before: IndexMap, after: IndexMap, start: IndexMap, other: IndexMap, prefix: string,
                   todo: set<Instruction>, key: Instruction)
    requires ConcatProgress(before, start, other, prefix, todo) && key in todo && key in other
    requires after.Keys == before.Keys + {key}
    requires Lookup(after, key) == Lookup(before, key) + Prefixed(other[key], prefix)
    requires forall i :: i != key ==> Lookup(after, i) == Lookup(before, i)
    ensures ConcatProgress(after, start, other, prefix, todo - {key})
  {
    KeysStep(before.Keys, after.Keys, start.Keys, other.Keys, todo, key);
    forall i ensures Lookup(after, i) == Lookup(start, i) + (if i in todo - {key} then [] else Prefixed(Lookup(other, i), prefix)) {
      LookupStep(before, after, start, other, prefix, todo, key, i);
    }
  }

  lemma KeysStep(before: set<Instruction>, after: set<Instruction>, start: set<Instruction>, other: set<Instruction>,
                 todo: set<Instruction>, key: Instruction)
    requires before == start + (other - todo) && key in other && after == before + {key}
    ensures after == start + (other - (todo - {key}))
  {
  }

  lemma LookupStep(before: IndexMap, after: IndexMap, start: IndexMap, other: IndexMap, prefix: string,
                   todo: set<Instruction>, key: Instruction, i: Instruction)
    requires Lookup(before, i) == Lookup(start, i) + (if i in todo then [] else Prefixed(Lookup(other, i), prefix))
    requires key in todo && key in other
    requires Lookup(after, key) == Lookup(before, key) + Prefixed(other[key], prefix)
    requires i != key ==> Lookup(after, i) == Lookup(before, i)
    ensures Lookup(after, i) == Lookup(start, i) + (if i in todo - {key} then [] else Prefixed(Lookup(other, i), prefix))
  {
    if i == key {
      assert Lookup(before, i) == Lookup(start, i);
    }
  }

  /** With no key left, concat has computed Merge. */
  lemma ConcatDone(entries: IndexMap, start: IndexMap, other: IndexMap, prefix: string)
    requires ConcatProgress(entries, start, other, prefix, {})
    ensures entries == Merge(start, other, prefix)
  {
    IndexExt(entries, Merge(start, other, prefix));
  }

  /** The mutable index that tago.go builds with make(Instructions) and grows with concat. */
  class Instructions {
    var entries: IndexMap

    constructor ()
      ensures entries == map[]
    {
      entries := map[];
    }

    /**
      t.concat(other, prefix): for every key of `other`, create the list if
      it is missing, then append each of its names with `prefix` added.
      The keys of `other` are visited in an arbitrary order, as Go's map
      iteration is; the result does not depend on it.
    */
    method Concat(other: IndexMap, prefix: string)
      modifies this
      ensures entries == Merge(old(entries), other, prefix)
    {
      ghost var start := entries;
      var todo := other.Keys;
      while todo != {}
        invariant todo <= other.Keys
        invariant ConcatProgress(entries, start, other, prefix, todo)
        decreases todo
      {
        var key :| key in todo;
        ghost var before := entries;
        if key !in entries {
          entries := entries[key := []];
        }
        AppendPrefixed(key, other[key], prefix);
        ConcatStep(before, entries, start, other, prefix, todo, key);
        todo := todo - {key};
      }
      ConcatDone(entries, start, other, prefix);
    }

    /** The inner loop of concat: append each of `values`, prefixed, to the list under `key`. */
    method AppendPrefixed(key: Instruction, values: seq<FieldName>, prefix: string)
      requires key in entries
      modifies this
      ensures entries.Keys == old(entries).Keys
      ensures entries[key] == old(entries)[key] + Prefixed(values, prefix)
      ensures forall i :: i != key ==> Lookup(entries, i) == Lookup(old(entries), i)
    {
      ghost var before := entries;
      var j := 0;
      while j < |values|
        invariant 0 <= j <= |values|
        invariant entries.Keys == before.Keys
        invariant entries[key] == before[key] + Prefixed(values[..j], prefix)
        invariant forall i :: i != key ==> Lookup(entries, i) == Lookup(before, i)
      {
        var next := AddPrefix(values[j], prefix);
        assert Prefixed(values[..j + 1], prefix) == Prefixed(values[..j], prefix) + [next] by {
          assert values[..j + 1] == values[..j] + [values[j]];
          PrefixedAppend(values[..j], [values[j]], prefix);
        }
        entries := entries[key := entries[key] + [next]];
        j := j + 1;
      }
      assert values[..j] == values;
    }
  }
}
