/**
  The tag parser of tago.go (GetFromField): read one field's raw tag text,
  split it into `;`-separated directives, normalise each one and record the
  field's name under every non-empty result.
*/
module TagParser {
  import opened GoStrings
  import opened Model
  import opened Index
  import opened Types

  /** The directives of a raw tag text; an empty text has none. */
  function Directives(raw: string): seq<string>
  {
    if raw == "" then [] else Split(raw, ';')
  }

  /** The normal form of every directive, in order. */
  function NormalForms(ds: seq<string>): (ns: seq<string>)
    ensures |ns| == |ds| && forall k :: 0 <= k < |ds| ==> ns[k] == Normalize(ds[k])
  {
    seq(|ds|, k requires 0 <= k < |ds| => Normalize(ds[k]))
  }

  lemma NormalFormsSnoc(ds: seq<string>, d: string)
    ensures NormalForms(ds + [d]) == NormalForms(ds) + [Normalize(d)]
  {
  }

  /** One step of the parser: skip an empty normal form, else append `f` under it. */
  function Record(acc: IndexMap, n: string, f: FieldName): IndexMap
  {
    if n == "" then acc else acc[Instruction(n) := Lookup(acc, Instruction(n)) + [f]]
  }

  /** The index of `f` after recording the normal forms `ns` in order. */
  function Collect(ns: seq<string>, f: FieldName): IndexMap
    decreases |ns|
  {
    if ns == [] then map[] else Record(Collect(ns[..|ns| - 1], f), ns[|ns| - 1], f)
  }

  /** The index GetFromField builds for one field. */
  function FieldIndex(t: TaGo, field: Field): IndexMap
  {
    Collect(NormalForms(Directives(TagGet(field, t.name))), FieldName(field.name))
  }

  /** `n` copies of `f`. */
  function Repeat(f: FieldName, n: nat): (r: seq<FieldName>)
    ensures |r| == n && forall k :: 0 <= k < n ==> r[k] == f
  {
    seq(n, _ => f)
  }

  lemma RepeatOneMore(f: FieldName, n: nat)
    ensures Repeat(f, n) + [f] == Repeat(f, n + 1)
  {
  }

  lemma CollectSnoc(ns: seq<string>, n: string, f: FieldName)
    ensures Collect(ns + [n], f) == Record(Collect(ns, f), n, f)
  {
    assert (ns + [n])[..|ns|] == ns;
  }

  /**
    What recording the normal forms `ns` for `f` yields, stated without the
    fold: under each non-empty instruction, `f` once per occurrence of its
    text in `ns`; no other keys.
  */
  lemma {:induction false} CollectCounts(ns: seq<string>, f: FieldName)
    ensures forall i :: Lookup(Collect(ns, f), i) == (if i.text == "" then [] else Repeat(f, multiset(ns)[i.text]))
    ensures forall i :: i in Collect(ns, f) <==> i.text != "" && i.text in ns
    decreases |ns|
  {
    if ns != [] {
      var init, n := ns[..|ns| - 1], ns[|ns| - 1];
      assert ns == init + [n];
      CollectCounts(init, f);
      forall i ensures Lookup(Collect(ns, f), i) == (if i.text == "" then [] else Repeat(f, multiset(ns)[i.text])) {
        CollectStep(init, n, f, i);
      }
    }
    CollectListsNonEmpty(ns, f);
  }

  /** Every list the parser creates holds at least one name. */
  lemma {:induction false} CollectListsNonEmpty(ns: seq<string>, f: FieldName)
    ensures forall i :: i in Collect(ns, f) ==> Collect(ns, f)[i] != []
    decreases |ns|
  {
    if ns != [] {
      CollectListsNonEmpty(ns[..|ns| - 1], f);
    }
  }

  /** One recorded normal form, seen from one instruction. */
  lemma CollectStep(init: seq<string>, n: string, f: FieldName, i: Instruction)
    requires Lookup(Collect(init, f), i) == (if i.text == "" then [] else Repeat(f, multiset(init)[i.text]))
    ensures Lookup(Collect(init + [n], f), i) == (if i.text == "" then [] else Repeat(f, multiset(init + [n])[i.text]))
  {
    CollectSnoc(init, n, f);
    assert multiset(init + [n]) == multiset(init) + multiset{n};
    if n != "" && i.text == n {
      RepeatOneMore(f, multiset(init)[n]);
    }
  }

  /** A text is among the normal forms exactly when some directive normalises to it. */
  lemma InNormalForms(ds: seq<string>, s: string)
    ensures s in NormalForms(ds) <==> exists k :: 0 <= k < |ds| && Normalize(ds[k]) == s
  {
    var ns := NormalForms(ds);
    if s in ns {
      var k :| 0 <= k < |ns| && ns[k] == s;
      assert Normalize(ds[k]) == s;
    } else {
      forall k | 0 <= k < |ds| ensures Normalize(ds[k]) != s {
        assert ns[k] in ns;
      }
    }
  }

  /** The keys of the parser's index are the non-empty normal forms of the directives. */
  lemma CollectKeys(ds: seq<string>, f: FieldName)
    ensures forall i :: i in Collect(NormalForms(ds), f) <==>
      i.text != "" && exists k :: 0 <= k < |ds| && Normalize(ds[k]) == i.text
  {
    forall i: Instruction
      ensures i in Collect(NormalForms(ds), f) <==> i.text != "" && exists k :: 0 <= k < |ds| && Normalize(ds[k]) == i.text
    {
      CollectKey(NormalForms(ds), f, i);
      InNormalForms(ds, i.text);
    }
  }

  lemma CollectKey(ns: seq<string>, f: FieldName, i: Instruction)
    ensures i in Collect(ns, f) <==> i.text != "" && i.text in ns
  {
    CollectCounts(ns, f);
  }

  /**
    GetFromField's keys are exactly the non-empty normal forms of the
    field's directives.
  */
  lemma FieldIndexKeys(t: TaGo, field: Field)
    ensures forall i :: i in FieldIndex(t, field) <==>
      i.text != "" && exists k :: 0 <= k < |Directives(TagGet(field, t.name))|
                               && Normalize(Directives(TagGet(field, t.name))[k]) == i.text
  {
    CollectKeys(Directives(TagGet(field, t.name)), FieldName(field.name));
  }

  /** No instruction GetFromField produces is the empty string. */
  lemma FieldIndexNoEmptyKey(t: TaGo, field: Field)
    ensures Instruction("") !in FieldIndex(t, field)
  {
    CollectCounts(NormalForms(Directives(TagGet(field, t.name))), FieldName(field.name));
  }

  /**
    Under each instruction GetFromField stores the field's own name, once
    per directive of the field that normalises to that instruction.
  */
  lemma FieldIndexCounts(t: TaGo, field: Field)
    ensures forall i: Instruction :: i.text != "" ==>
      Lookup(FieldIndex(t, field), i) == Repeat(FieldName(field.name), multiset(NormalForms(Directives(TagGet(field, t.name))))[i.text])
  {
    CollectCounts(NormalForms(Directives(TagGet(field, t.name))), FieldName(field.name));
  }

  /** Every name GetFromField stores is the field's own, unprefixed name. */
  lemma FieldIndexOwnName(t: TaGo, field: Field)
    ensures forall i, k :: i in FieldIndex(t, field) && 0 <= k < |FieldIndex(t, field)[i]| ==>
      FieldIndex(t, field)[i][k] == FieldName(field.name)
  {
    var r := FieldIndex(t, field);
    CollectCounts(NormalForms(Directives(TagGet(field, t.name))), FieldName(field.name));
    forall i, k | i in r && 0 <= k < |r[i]| ensures r[i][k] == FieldName(field.name) {
      assert Lookup(r, i) == r[i];
    }
  }

  /** Recording only empty normal forms leaves the index empty. */
  lemma {:induction false} CollectOfBlank(ns: seq<string>, f: FieldName)
    requires forall k :: 0 <= k < |ns| ==> ns[k] == ""
    ensures Collect(ns, f) == map[]
    decreases |ns|
  {
    if ns != [] {
      CollectOfBlank(ns[..|ns| - 1], f);
    }
  }

  /** A directive made only of white space and `;` normalises to "". */
  lemma BlankPieceIsEmpty(raw: string, k: nat)
    requires raw != ""
    requires forall m :: 0 <= m < |raw| ==> raw[m] == ';' || IsSpace(raw[m])
    requires k < |Split(raw, ';')|
    ensures Normalize(Split(raw, ';')[k]) == ""
  {
    var d := Split(raw, ';')[k];
    SplitChars(raw, ';');
    SplitSpec(raw, ';');
    forall m | 0 <= m < |d| ensures IsSpace(d[m]) {
      var c := d[m];
      assert c in d;
      assert c in raw;
      var j :| 0 <= j < |raw| && raw[j] == c;
    }
    NormalizeEmpty(d);
  }

  /**
    A raw tag made only of white space and `;` (including the empty tag and
    separators only, such as ";;") gives an empty index.
  */
  lemma FieldIndexOfBlank(t: TaGo, field: Field)
    requires forall k :: 0 <= k < |TagGet(field, t.name)| ==> TagGet(field, t.name)[k] == ';' || IsSpace(TagGet(field, t.name)[k])
    ensures FieldIndex(t, field) == map[]
  {
    var raw := TagGet(field, t.name);
    var ns := NormalForms(Directives(raw));
    forall k | 0 <= k < |ns| ensures ns[k] == "" {
      BlankPieceIsEmpty(raw, k);
    }
    CollectOfBlank(ns, FieldName(field.name));
  }

  /** tago.go:99-104 on a map value: create the list when missing, then append. */
  lemma AppendUnder(acc: IndexMap, i: Instruction, f: FieldName)
    ensures (if i in acc then acc else acc[i := []])[i := (if i in acc then acc else acc[i := []])[i] + [f]]
         == acc[i := Lookup(acc, i) + [f]]
  {
  }

  /** Recording one more directive is one more step of the parser. */
  lemma CollectPrefixStep(ds: seq<string>, n: nat, f: FieldName)
    requires n < |ds|
    ensures Collect(NormalForms(ds[..n + 1]), f) == Record(Collect(NormalForms(ds[..n]), f), Normalize(ds[n]), f)
  {
    assert ds[..n + 1] == ds[..n] + [ds[n]];
    NormalFormsSnoc(ds[..n], ds[n]);
    CollectSnoc(NormalForms(ds[..n]), Normalize(ds[n]), f);
  }

  /** The loop at tago.go:84-86: trim every part in place. */
  method TrimParts(parts: seq<string>) returns (r: seq<string>)
    ensures r == TrimAll(parts)
  {
    r := parts;
    var j := 0;
    while j < |r|
      invariant 0 <= j <= |r| == |parts|
      invariant forall k :: 0 <= k < j ==> r[k] == TrimSpace(parts[k])
      invariant forall k :: j <= k < |r| ==> r[k] == parts[k]
    {
      r := r[j := TrimSpace(r[j])];
      j := j + 1;
    }
  }

  /** tago.go:81-89: split a directive at its first `=`, trim the parts and join them again. */
  method NormalizeDirective(d: string) returns (s: string)
    ensures s == Normalize(d)
  {
    var parts := SplitN2(d, '=');
    parts := TrimParts(parts);
    NormalizeIsJoinOfTrimmed(d);
    s := Join(parts, '=');
  }

  /**
    GetFromField: split the raw tag on `;`, normalise each directive, skip
    an empty result and append the field's name under the instruction.
  */
  method GetFromField(t: TaGo, field: Field) returns (tags: IndexMap)
    ensures tags == FieldIndex(t, field)
  {
    tags := map[];
    var raw := TagGet(field, t.name);
    if raw != "" {
      var directives := Split(raw, ';');
      var name := FieldName(field.name);
      var n := 0;
      while n < |directives|
        invariant 0 <= n <= |directives|
        invariant tags == Collect(NormalForms(directives[..n]), name)
      {
        CollectPrefixStep(directives, n, name);
        var instructionString := NormalizeDirective(directives[n]);
        if instructionString == "" {
          n := n + 1;
          continue;
        }
        ghost var acc := tags;
        var instruction := Instruction(instructionString);
        if instruction !in tags {
          tags := tags[instruction := []];
        }
        tags := tags[instruction := tags[instruction] + [name]];
        AppendUnder(acc, instruction, name);
        n := n + 1;
      }
      assert directives[..n] == directives;
    }
  }
}
