/**
  The index builders of tago.go: Get (top-level fields only), getNested and
  GetNested (descending into struct-typed fields with a growing prefix) and
  Has (whether Get's index holds an instruction).
*/
module Builder {
  import opened Model
  import opened Index
  import opened Types
  import opened TagParser

  /** The index Get builds from the fields `fs`, in declaration order. */
  function Flat(t: TaGo, fs: seq<Field>): IndexMap
    decreases |fs|
  {
    if fs == [] then map[] else Merge(Flat(t, fs[..|fs| - 1]), FieldIndex(t, fs[|fs| - 1]), "")
  }

  /** How many directives of `f`'s tag normalise to the text of `i`. */
  function Count(t: TaGo, f: Field, i: Instruction): nat
  {
    multiset(NormalForms(Directives(TagGet(f, t.name))))[i.text]
  }

  /**
    Reference definition of Get's list under `i`: each field's name, in field
    order, repeated once for every directive of that field that normalises to `i`.
  */
  function Occurrences(t: TaGo, fs: seq<Field>, i: Instruction): seq<FieldName>
    decreases |fs|
  {
    if fs == [] then []
    else Occurrences(t, fs[..|fs| - 1], i) + Repeat(FieldName(fs[|fs| - 1].name), Count(t, fs[|fs| - 1], i))
  }

  lemma {:induction false} FlatSnoc(t: TaGo, fs: seq<Field>, n: nat)
    requires n < |fs|
    ensures Flat(t, fs[..n + 1]) == Merge(Flat(t, fs[..n]), FieldIndex(t, fs[n]), "")
  {
    assert fs[..n + 1][..n] == fs[..n];
  }

  /** Get's list under a non-empty instruction is the reference list above. */
  lemma {:induction false} FlatLookup(t: TaGo, fs: seq<Field>, i: Instruction)
    requires i.text != ""
    ensures Lookup(Flat(t, fs), i) == Occurrences(t, fs, i)
    decreases |fs|
  {
    if fs != [] {
      var last := fs[|fs| - 1];
      FlatLookup(t, fs[..|fs| - 1], i);
      FieldIndexCounts(t, last);
      PrefixedEmpty(Lookup(FieldIndex(t, last), i));
    }
  }

  /** Get's keys are the instructions that some field's tag yields. */
  lemma {:induction false} FlatKeys(t: TaGo, fs: seq<Field>, i: Instruction)
    ensures i in Flat(t, fs) <==> exists j :: 0 <= j < |fs| && i in FieldIndex(t, fs[j])
    decreases |fs|
  {
    if fs != [] {
      var init := fs[..|fs| - 1];
      FlatKeys(t, init, i);
      if i in Flat(t, init) {
        var j :| 0 <= j < |init| && i in FieldIndex(t, init[j]);
        assert fs[j] == init[j];
      }
      if exists j :: 0 <= j < |fs| && i in FieldIndex(t, fs[j]) {
        var j :| 0 <= j < |fs| && i in FieldIndex(t, fs[j]);
        if j < |init| {
          assert init[j] == fs[j];
        }
      }
    }
  }

  /** Get never stores the empty instruction. */
  lemma {:induction false} FlatNoEmptyKey(t: TaGo, fs: seq<Field>)
    ensures Instruction("") !in Flat(t, fs)
  {
    FlatKeys(t, fs, Instruction(""));
    forall j | 0 <= j < |fs| ensures Instruction("") !in FieldIndex(t, fs[j]) {
      FieldIndexNoEmptyKey(t, fs[j]);
    }
  }

  /** Every name Get stores is the bare name of one of the top-level fields. */
  lemma {:induction false} FlatNames(t: TaGo, fs: seq<Field>, i: Instruction, k: nat)
    requires k < |Lookup(Flat(t, fs), i)|
    ensures exists j :: 0 <= j < |fs| && Lookup(Flat(t, fs), i)[k] == FieldName(fs[j].name)
    decreases |fs|
  {
    var init, last := fs[..|fs| - 1], fs[|fs| - 1];
    var before, own := Lookup(Flat(t, init), i), Lookup(FieldIndex(t, last), i);
    FlatSplit(t, fs, i);
    if k < |before| {
      FlatNames(t, init, i, k);
      var j :| 0 <= j < |init| && before[k] == FieldName(init[j].name);
      assert fs[j] == init[j];
    } else {
      OwnNameAt(t, last, i, k - |before|);
      assert Lookup(Flat(t, fs), i)[k] == FieldName(fs[|fs| - 1].name);
    }
  }

  /** Get's list under `i` is the list of all fields but the last, then the last field's. */
  lemma FlatSplit(t: TaGo, fs: seq<Field>, i: Instruction)
    requires fs != []
    ensures Lookup(Flat(t, fs), i) == Lookup(Flat(t, fs[..|fs| - 1]), i) + Lookup(FieldIndex(t, fs[|fs| - 1]), i)
  {
    PrefixedEmpty(Lookup(FieldIndex(t, fs[|fs| - 1]), i));
  }

  lemma OwnNameAt(t: TaGo, f: Field, i: Instruction, k: nat)
    requires k < |Lookup(FieldIndex(t, f), i)|
    ensures Lookup(FieldIndex(t, f), i)[k] == FieldName(f.name)
  {
    FieldIndexOwnName(t, f);
  }

  /**
    Get: unwrap the model's type, then merge the index of every field, in
    declaration order, with no prefix.
  */
  method Get(t: TaGo, env: Env, model: Type) returns (r: IndexMap)
    requires TypeToElem(model).Struct? && TypeToElem(model).name in env
    ensures r == Flat(t, env[TypeToElem(model).name])
  {
    var tags := new Instructions();
    var modelType := TypeToElem(model);
    var fields := env[modelType.name];
    var i := 0;
    while i < |fields|
      invariant 0 <= i <= |fields|
      invariant tags.entries == Flat(t, fields[..i])
    {
      var fieldTags := GetFromField(t, fields[i]);
      tags.Concat(fieldTags, "");
      FlatSnoc(t, fields, i);
      i := i + 1;
    }
    assert fields[..i] == fields;
    r := tags.entries;
  }

  /**
    Every key of Get's index has a non-empty list, so ApplyOne on Get's index
    calls its action at least once exactly when Has holds.
  */
  lemma {:induction false} FlatListsNonEmpty(t: TaGo, fs: seq<Field>, i: Instruction)
    ensures Lookup(Flat(t, fs), i) != [] <==> i in Flat(t, fs)
    decreases |fs|
  {
    if fs != [] {
      var init, last := fs[..|fs| - 1], fs[|fs| - 1];
      FlatListsNonEmpty(t, init, i);
      FlatSplit(t, fs, i);
      CollectListsNonEmpty(NormalForms(Directives(TagGet(last, t.name))), FieldName(last.name));
    }
  }

  /** Has: whether some top-level field of the model carries the instruction. */
  method Has(t: TaGo, env: Env, model: Type, instruction: Instruction) returns (b: bool)
    requires TypeToElem(model).Struct? && TypeToElem(model).name in env
    ensures b <==> instruction in Flat(t, env[TypeToElem(model).name])
    ensures b <==> exists j :: 0 <= j < |env[TypeToElem(model).name]|
                           && instruction in FieldIndex(t, env[TypeToElem(model).name][j])
  {
    var instructions := Get(t, env, model);
    b := instruction in instructions;
    FlatKeys(t, env[TypeToElem(model).name], instruction);
  }

  /** Has, stated on the tags themselves: some directive of a top-level field normalises to the instruction. */
  lemma HasMeaning(t: TaGo, fs: seq<Field>, instruction: Instruction)
    ensures instruction in Flat(t, fs) <==>
      instruction.text != "" && exists j, k :: 0 <= j < |fs| && 0 <= k < |Directives(TagGet(fs[j], t.name))|
                                            && Normalize(Directives(TagGet(fs[j], t.name))[k]) == instruction.text
  {
    FlatKeys(t, fs, instruction);
    forall j | 0 <= j < |fs|
      ensures instruction in FieldIndex(t, fs[j]) <==>
        instruction.text != "" && exists k :: 0 <= k < |Directives(TagGet(fs[j], t.name))|
                                           && Normalize(Directives(TagGet(fs[j], t.name))[k]) == instruction.text
    {
      FieldIndexKeys(t, fs[j]);
    }
  }

  /** The struct that field `j` of `current` leads getNested into is described, and of lower rank. */
  lemma {:induction false} RankedStep(env: Env, rank: map<string, nat>, current: string, j: nat)
    requires Ranked(env, rank) && current in env && j < |env[current]|
    requires Recurses(current, env[current][j])
    ensures current in rank
    ensures TypeToElem(env[current][j].typ).name in env
    ensures TypeToElem(env[current][j].typ).name in rank
    ensures rank[TypeToElem(env[current][j].typ).name] < rank[current]
  {
  }

  /** The whole index getNested builds for the struct `current` with `prefix`. */
  function Nested(t: TaGo, env: Env, rank: map<string, nat>, current: string,
                  prefix: string, sep: string): IndexMap
    requires Ranked(env, rank) && current in env
    decreases rank[current], 3, 0
  {
    NestedUpTo(t, env, rank, current, prefix, sep, |env[current]|)
  }

  /** The index getNested holds after its first `n` fields. */
  function NestedUpTo(t: TaGo, env: Env, rank: map<string, nat>, current: string,
                      prefix: string, sep: string, n: nat): IndexMap
    requires Ranked(env, rank) && current in env && n <= |env[current]|
    decreases rank[current], 2, n
  {
    if n == 0 then map[]
    else NestedStep(t, env, rank, current, prefix, sep, n - 1, NestedUpTo(t, env, rank, current, prefix, sep, n - 1))
  }

  /**
    getNested's work for field `j`: merge the field's own index with
    `prefix`, then merge unprefixed the index of the struct it descends
    into (Child, which is empty when there is none, so that merge is then
    the identity, as the skipped concat is in the source).
  */
  function NestedStep(t: TaGo, env: Env, rank: map<string, nat>, current: string,
                      prefix: string, sep: string, j: nat, acc: IndexMap): IndexMap
    requires Ranked(env, rank) && current in env && j < |env[current]|
    decreases rank[current], 1, j
  {
    Merge(Merge(acc, FieldIndex(t, env[current][j]), prefix), Child(t, env, rank, current, prefix, sep, j), "")
  }

  /**
    The nested index getNested builds for field `j` of `current`: when the
    field's unwrapped type is a struct other than `current`, that struct's
    index under the prefix `prefix + name + sep`; otherwise nothing.
  */
  function Child(t: TaGo, env: Env, rank: map<string, nat>, current: string,
                 prefix: string, sep: string, j: nat): IndexMap
    requires Ranked(env, rank) && current in env && j < |env[current]|
    decreases rank[current], 0, j
  {
    var f := env[current][j];
    if Recurses(current, f) then
      RankedStep(env, rank, current, j);
      Nested(t, env, rank, TypeToElem(f.typ).name, prefix + f.name + sep, sep)
    else map[]
  }

  lemma {:induction false} NestedUpToUnfold(t: TaGo, env: Env, rank: map<string, nat>, current: string,
                         prefix: string, sep: string, n: nat)
    requires Ranked(env, rank) && current in env && 0 < n <= |env[current]|
    ensures NestedUpTo(t, env, rank, current, prefix, sep, n)
         == NestedStep(t, env, rank, current, prefix, sep, n - 1, NestedUpTo(t, env, rank, current, prefix, sep, n - 1))
  {
    var acc := NestedUpTo(t, env, rank, current, prefix, sep, n - 1);
    assert NestedUpTo(t, env, rank, current, prefix, sep, n) == NestedStep(t, env, rank, current, prefix, sep, n - 1, acc);
  }

  /**
    getNested: for every field, merge its own index with `prefix`; when the
    unwrapped field type is a struct other than the model's, build that
    struct's index with `prefix + name + separator` and merge it unprefixed.
  */
  method GetNestedAt(t: TaGo, env: Env, ghost rank: map<string, nat>, model: Type,
                     prefix: string, separator: string) returns (r: IndexMap)
    requires TypeToElem(model).Struct? && TypeToElem(model).name in env && Ranked(env, rank)
    ensures r == Nested(t, env, rank, TypeToElem(model).name, prefix, separator)
    decreases rank[TypeToElem(model).name], 1
  {
    var tags := new Instructions();
    var modelType := TypeToElem(model);
    var fields := env[modelType.name];
    var i := 0;
    while i < |fields|
      invariant 0 <= i <= |fields|
      invariant tags.entries == NestedUpTo(t, env, rank, modelType.name, prefix, separator, i)
    {
      AddNestedField(t, env, rank, modelType, prefix, separator, tags, i);
      NestedUpToUnfold(t, env, rank, modelType.name, prefix, separator, i + 1);
      i := i + 1;
    }
    r := tags.entries;
  }

  /** One iteration of getNested's loop: field `i` of the struct `modelType`. */
  method AddNestedField(t: TaGo, env: Env, ghost rank: map<string, nat>, modelType: Type,
                        prefix: string, separator: string, tags: Instructions, i: nat)
    requires modelType.Struct? && modelType.name in env && Ranked(env, rank) && i < |env[modelType.name]|
    modifies tags
    ensures tags.entries == NestedStep(t, env, rank, modelType.name, prefix, separator, i, old(tags.entries))
    decreases rank[modelType.name], 0
  {
    var modelField := env[modelType.name][i];
    var fieldTags := GetFromField(t, modelField);
    tags.Concat(fieldTags, prefix);
    ghost var own := tags.entries;
    var fieldType := TypeToElem(modelField.typ);
    if TypeString(fieldType) != TypeString(modelType) && fieldType.Struct? {
      assert Recurses(modelType.name, modelField);
      RankedStep(env, rank, modelType.name, i);
      var sub := GetNestedAt(t, env, rank, fieldType, prefix + modelField.name + separator, separator);
      tags.Concat(sub, "");
    } else {
      assert !Recurses(modelType.name, modelField);
      MergeEmpty(own, "");
    }
  }

  /** GetNested: getNested from the empty prefix. */
  method GetNested(t: TaGo, env: Env, ghost rank: map<string, nat>, model: Type, separator: string)
    returns (r: IndexMap)
    requires TypeToElem(model).Struct? && TypeToElem(model).name in env && Ranked(env, rank)
    ensures r == Nested(t, env, rank, TypeToElem(model).name, "", separator)
  {
    r := GetNestedAt(t, env, rank, model, "", separator);
  }

  /**
    The order getNested keeps under every instruction: what the earlier
    fields stored, then this field's own name with `prefix`, then the
    entries of the struct it descends into.
  */
  lemma {:induction false} NestedStepLookup(t: TaGo, env: Env, rank: map<string, nat>, current: string,
                         prefix: string, sep: string, j: nat, acc: IndexMap, i: Instruction)
    requires Ranked(env, rank) && current in env && j < |env[current]|
    ensures Lookup(NestedStep(t, env, rank, current, prefix, sep, j, acc), i)
         == Lookup(acc, i) + Prefixed(Lookup(FieldIndex(t, env[current][j]), i), prefix)
            + Lookup(Child(t, env, rank, current, prefix, sep, j), i)
  {
    PrefixedEmpty(Lookup(Child(t, env, rank, current, prefix, sep, j), i));
  }

  /** getNested never descends into a field whose unwrapped type is not a struct, or is the struct itself. */
  lemma {:induction false} NoDescentIntoSelfOrNonStruct(t: TaGo, env: Env, rank: map<string, nat>, current: string,
                                     prefix: string, sep: string, j: nat)
    requires Ranked(env, rank) && current in env && j < |env[current]|
    requires !TypeToElem(env[current][j].typ).Struct? || TypeToElem(env[current][j].typ) == Struct(current)
    ensures Child(t, env, rank, current, prefix, sep, j) == map[]
  {
  }

  /** Every name stored in `m` starts with `prefix`. */
  ghost predicate AllPrefixed(m: IndexMap, prefix: string)
  {
    forall i, k :: i in m && 0 <= k < |m[i]| ==> prefix <= m[i][k].name
  }

  /** Merging with `prefix` an index whose names start with `rest` gives names starting with `prefix + rest`. */
  lemma MergePrefixed(a: IndexMap, b: IndexMap, prefix: string, rest: string, pre: string)
    requires AllPrefixed(a, pre) && AllPrefixed(b, rest) && pre <= prefix + rest
    ensures AllPrefixed(Merge(a, b, prefix), pre)
  {
    var r: IndexMap := Merge(a, b, prefix);
    forall i: Instruction, k: int | i in r && 0 <= k < |r[i]| ensures pre <= r[i][k].name {
      MergedNamePrefixed(a, b, prefix, rest, pre, i, k);
    }
  }

  lemma {:induction false} MergedNamePrefixed(a: IndexMap, b: IndexMap, prefix: string, rest: string, pre: string, i: Instruction, k: nat)
    requires AllPrefixed(a, pre) && AllPrefixed(b, rest) && pre <= prefix + rest
    requires k < |Lookup(Merge(a, b, prefix), i)|
    ensures pre <= Lookup(Merge(a, b, prefix), i)[k].name
  {
    var la, lb := Lookup(a, i), Lookup(b, i);
    if k >= |la| {
      var m := k - |la|;
      assert i in b && lb[m] == b[i][m];
      PrefixedAt(lb, prefix, m);
      var name := lb[m].name;
      assert Lookup(Merge(a, b, prefix), i)[k].name == prefix + name;
      assert prefix + rest <= prefix + name by {
        assert rest == name[..|rest|];
      }
    } else {
      assert i in a && la[k] == a[i][k];
    }
  }

  /** The prefix argument of one getNested step, on plain indexes. */
  lemma StepPrefixed(acc: IndexMap, own: IndexMap, child: IndexMap, prefix: string, inner: string)
    requires AllPrefixed(acc, prefix) && AllPrefixed(child, inner) && prefix <= inner
    ensures AllPrefixed(Merge(Merge(acc, own, prefix), child, ""), prefix)
  {
    MergePrefixed(acc, own, prefix, "", prefix);
    MergePrefixed(Merge(acc, own, prefix), child, "", inner, prefix);
  }

  /** The names getNested stores for `current` all start with the prefix it was given. */
  lemma {:induction false} NestedPrefixed(t: TaGo, env: Env, rank: map<string, nat>, current: string,
                                          prefix: string, sep: string)
    requires Ranked(env, rank) && current in env
    ensures AllPrefixed(Nested(t, env, rank, current, prefix, sep), prefix)
    decreases rank[current], 3, 0
  {
    NestedUpToPrefixed(t, env, rank, current, prefix, sep, |env[current]|);
  }

  lemma {:induction false} NestedUpToPrefixed(t: TaGo, env: Env, rank: map<string, nat>, current: string,
                                              prefix: string, sep: string, n: nat)
    requires Ranked(env, rank) && current in env && n <= |env[current]|
    ensures AllPrefixed(NestedUpTo(t, env, rank, current, prefix, sep, n), prefix)
    decreases rank[current], 2, n
  {
    if n > 0 {
      NestedUpToPrefixed(t, env, rank, current, prefix, sep, n - 1);
      ChildPrefixed(t, env, rank, current, prefix, sep, n - 1);
      StepPrefixed(NestedUpTo(t, env, rank, current, prefix, sep, n - 1), FieldIndex(t, env[current][n - 1]),
                   Child(t, env, rank, current, prefix, sep, n - 1), prefix, prefix + env[current][n - 1].name + sep);
    }
  }

  /** The nested index merged in for field `j` holds only names starting with `prefix + name + sep`. */
  lemma {:induction false} ChildPrefixed(t: TaGo, env: Env, rank: map<string, nat>, current: string,
                                         prefix: string, sep: string, j: nat)
    requires Ranked(env, rank) && current in env && j < |env[current]|
    ensures AllPrefixed(Child(t, env, rank, current, prefix, sep, j), prefix + env[current][j].name + sep)
    decreases rank[current], 0, j
  {
    var f := env[current][j];
    if Recurses(current, f) {
      RankedStep(env, rank, current, j);
      NestedPrefixed(t, env, rank, TypeToElem(f.typ).name, prefix + f.name + sep, sep);
    }
  }

  /**
    A struct with no field getNested descends into (in particular one whose
    only struct-typed fields refer to itself) gets Get's index with every
    name prefixed.
  */
  lemma {:induction false} NestedUpToWithoutDescent(t: TaGo, env: Env, rank: map<string, nat>, current: string,
                                                    prefix: string, sep: string, n: nat)
    requires Ranked(env, rank) && current in env && n <= |env[current]|
    requires forall j :: 0 <= j < |env[current]| ==> !Recurses(current, env[current][j])
    ensures NestedUpTo(t, env, rank, current, prefix, sep, n) == Merge(map[], Flat(t, env[current][..n]), prefix)
    decreases n
  {
    if n == 0 {
      assert env[current][..0] == [];
      MergeEmpty(map[], prefix);
    } else {
      NestedUpToWithoutDescent(t, env, rank, current, prefix, sep, n - 1);
      WithoutDescentStep(t, env, rank, current, prefix, sep, n);
    }
  }

  lemma {:induction false} WithoutDescentStep(t: TaGo, env: Env, rank: map<string, nat>, current: string,
                           prefix: string, sep: string, n: nat)
    requires Ranked(env, rank) && current in env && 0 < n <= |env[current]|
    requires !Recurses(current, env[current][n - 1])
    requires NestedUpTo(t, env, rank, current, prefix, sep, n - 1) == Merge(map[], Flat(t, env[current][..n - 1]), prefix)
    ensures NestedUpTo(t, env, rank, current, prefix, sep, n) == Merge(map[], Flat(t, env[current][..n]), prefix)
  {
    var fs := env[current];
    var acc := NestedUpTo(t, env, rank, current, prefix, sep, n - 1);
    NestedUpToPlainStep(t, env, rank, current, prefix, sep, n);
    FlatSnoc(t, fs, n - 1);
    PrefixAfterMerge(NestedUpTo(t, env, rank, current, prefix, sep, n), acc,
                     Flat(t, fs[..n - 1]), FieldIndex(t, fs[n - 1]), Flat(t, fs[..n]), prefix);
  }

  /** A step of getNested over a field it does not descend into only merges the field's own index. */
  lemma {:induction false} NestedUpToPlainStep(t: TaGo, env: Env, rank: map<string, nat>, current: string,
                            prefix: string, sep: string, n: nat)
    requires Ranked(env, rank) && current in env && 0 < n <= |env[current]|
    requires !Recurses(current, env[current][n - 1])
    ensures NestedUpTo(t, env, rank, current, prefix, sep, n)
         == Merge(NestedUpTo(t, env, rank, current, prefix, sep, n - 1), FieldIndex(t, env[current][n - 1]), prefix)
  {
    var acc := NestedUpTo(t, env, rank, current, prefix, sep, n - 1);
    var own := Merge(acc, FieldIndex(t, env[current][n - 1]), prefix);
    assert Child(t, env, rank, current, prefix, sep, n - 1) == map[];
    assert NestedUpTo(t, env, rank, current, prefix, sep, n) == NestedStep(t, env, rank, current, prefix, sep, n - 1, acc);
    MergeEmpty(own, "");
  }

  /** The equational step of NestedUpToWithoutDescent, on plain indexes. */
  lemma PrefixAfterMerge(next: IndexMap, acc: IndexMap, flat: IndexMap, own: IndexMap, flatNext: IndexMap, prefix: string)
    requires next == Merge(acc, own, prefix)
    requires acc == Merge(map[], flat, prefix)
    requires flatNext == Merge(flat, own, "")
    ensures next == Merge(map[], flatNext, prefix)
  {
    MergeShift(flat, own, prefix);
  }

  lemma NestedWithoutDescent(t: TaGo, env: Env, rank: map<string, nat>, current: string, prefix: string, sep: string)
    requires Ranked(env, rank) && current in env
    requires forall j :: 0 <= j < |env[current]| ==> !Recurses(current, env[current][j])
    ensures Nested(t, env, rank, current, prefix, sep) == Merge(map[], Flat(t, env[current]), prefix)
  {
    NestedUpToWithoutDescent(t, env, rank, current, prefix, sep, |env[current]|);
    assert env[current][..|env[current]|] == env[current];
  }

  /** Without any field to descend into, GetNested returns exactly what Get returns. */
  lemma GetNestedIsGetWithoutDescent(t: TaGo, env: Env, rank: map<string, nat>, current: string, sep: string)
    requires Ranked(env, rank) && current in env
    requires forall j :: 0 <= j < |env[current]| ==> !Recurses(current, env[current][j])
    ensures Nested(t, env, rank, current, "", sep) == Flat(t, env[current])
  {
    NestedWithoutDescent(t, env, rank, current, "", sep);
    MergeIntoEmpty(Flat(t, env[current]));
  }
}
