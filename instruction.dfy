/**
  The instruction model of tago.go: an Instruction is the normalised text of one
  `key[=value]` directive, a FieldName the (possibly prefixed) path of a field.
*/
module Model {
  import opened GoStrings

  /** One normalised directive, e.g. `preload=true`. Identity is the whole text. */
  datatype Instruction = Instruction(text: string)

  /** A field path such as `Field1` or `Field3.Subfield1`. */
  datatype FieldName = FieldName(name: string)

  /** The trimmed text before the first `=` (the whole text when there is none). */
  function Key(i: Instruction): (r: string)
    ensures '=' !in r
    ensures NoEdgeSpace(r)
  {
    SplitN2Spec(i.text, '=');
    TrimSpaceIsTrim(SplitN2(i.text, '=')[0]);
    TrimSpace(SplitN2(i.text, '=')[0])
  }

  /** The trimmed text after the first `=`, or "true" when there is no `=`. */
  function Value(i: Instruction): (r: string)
    ensures '=' !in i.text ==> r == "true"
    ensures '=' in i.text ==> NoEdgeSpace(r)
  {
    var parts := SplitN2(i.text, '=');
    SplitN2Spec(i.text, '=');
    if |parts| > 1 then TrimSpace(parts[1]) else "true"
  }

  /** Key and Value of a directive written as `k=v`: the value keeps any further `=`. */
  lemma KeyValueOfPair(k: string, v: string)
    requires '=' !in k
    ensures Key(Instruction(k + "=" + v)) == TrimSpace(k)
    ensures Value(Instruction(k + "=" + v)) == TrimSpace(v)
  {
    SplitN2OfJoined(k, '=', v);
  }

  /** Key and Value of a directive without `=`: a boolean-style flag. */
  lemma KeyValueOfFlag(k: string)
    requires '=' !in k
    ensures Key(Instruction(k)) == TrimSpace(k)
    ensures Value(Instruction(k)) == "true"
  {
    SplitN2OfPlain(k, '=');
  }

  /** Prefixing is concatenation; no separator is inserted. */
  function AddPrefix(f: FieldName, prefix: string): FieldName
  {
    FieldName(prefix + f.name)
  }

  /** The prefixed name is `prefix` followed by the original name, with nothing in between. */
  lemma AddPrefixSplits(f: FieldName, prefix: string)
    ensures |AddPrefix(f, prefix).name| == |prefix| + |f.name|
    ensures AddPrefix(f, prefix).name[..|prefix|] == prefix && AddPrefix(f, prefix).name[|prefix|..] == f.name
  {
  }

  lemma AddPrefixEmpty(f: FieldName)
    ensures AddPrefix(f, "") == f
  {
  }

  /** Prefixing twice is prefixing once with the concatenated prefixes. */
  lemma AddPrefixTwice(f: FieldName, inner: string, outer: string)
    ensures AddPrefix(AddPrefix(f, inner), outer) == AddPrefix(f, outer + inner)
  {
    assert outer + (inner + f.name) == (outer + inner) + f.name;
  }

  /** Trim every part, as the loop at tago.go:84-86 does. */
  function TrimAll(parts: seq<string>): (r: seq<string>)
  {
    seq(|parts|, k requires 0 <= k < |parts| => TrimSpace(parts[k]))
  }

  /**
    The normal form of one directive (tago.go:81-89): split at the first
    `=`, trim both parts and join them again with `=`.
  */
  function Normalize(d: string): string
  {
    var parts := SplitN2(d, '=');
    if |parts| == 1 then TrimSpace(parts[0]) else TrimSpace(parts[0]) + "=" + TrimSpace(parts[1])
  }

  /** The normal form is what the source computes: trim every part, then join. */
  lemma NormalizeIsJoinOfTrimmed(d: string)
    ensures Join(TrimAll(SplitN2(d, '=')), '=') == Normalize(d)
  {
    var t := TrimAll(SplitN2(d, '='));
    if |t| == 2 {
      assert t[1..] == [t[1]];
    }
  }

  /** The normal form is the Key, followed by `=` and the Value when the directive has an `=`. */
  lemma NormalizeForm(d: string)
    ensures Normalize(d) == (if '=' in d then Key(Instruction(d)) + "=" + Value(Instruction(d)) else Key(Instruction(d)))
  {
    SplitN2Spec(d, '=');
  }

  lemma PairHasEq(k: string, v: string)
    ensures '=' in k + "=" + v
  {
    assert (k + "=" + v)[|k|] == '=';
  }

  /** A pair whose key and value are already trimmed reads back as that key and value. */
  lemma KeyValueOfCleanPair(k: string, v: string)
    requires '=' !in k && NoEdgeSpace(k) && NoEdgeSpace(v)
    ensures Key(Instruction(k + "=" + v)) == k
    ensures Value(Instruction(k + "=" + v)) == v
  {
    KeyValueOfPair(k, v);
    TrimSpaceOfTrimmed(k);
    TrimSpaceOfTrimmed(v);
  }

  /** A trimmed flag reads back as itself with the value "true". */
  lemma KeyValueOfCleanFlag(k: string)
    requires '=' !in k && NoEdgeSpace(k)
    ensures Key(Instruction(k)) == k
    ensures Value(Instruction(k)) == "true"
  {
    KeyValueOfFlag(k);
    TrimSpaceOfTrimmed(k);
  }

  /** Normalising keeps the Key and the Value, and keeps an `=` exactly when there was one. */
  lemma NormalizeKeepsKeyValue(d: string)
    ensures '=' in Normalize(d) <==> '=' in d
    ensures Key(Instruction(Normalize(d))) == Key(Instruction(d))
    ensures Value(Instruction(Normalize(d))) == Value(Instruction(d))
  {
    NormalizeForm(d);
    if '=' in d {
      KeyOfPairIsKept(d);
    } else {
      KeyValueOfCleanFlag(Key(Instruction(d)));
    }
  }

  lemma KeyOfPairIsKept(d: string)
    requires '=' in d
    ensures Normalize(d) == Key(Instruction(d)) + "=" + Value(Instruction(d))
    ensures '=' in Normalize(d)
    ensures Key(Instruction(Normalize(d))) == Key(Instruction(d))
    ensures Value(Instruction(Normalize(d))) == Value(Instruction(d))
  {
    NormalizeForm(d);
    var k, v := Key(Instruction(d)), Value(Instruction(d));
    PairHasEq(k, v);
    KeyValueOfCleanPair(k, v);
  }

  /** A directive normalises to the empty string exactly when it is white space only. */
  lemma NormalizeEmpty(d: string)
    ensures Normalize(d) == "" <==> AllSpace(d)
  {
    if '=' in d {
      KeyOfPairIsKept(d);
      EqIsNotSpace(d);
    } else {
      SplitN2OfPlain(d, '=');
      TrimSpaceEmpty(d);
    }
  }

  lemma EqIsNotSpace(d: string)
    requires '=' in d
    ensures !AllSpace(d)
  {
    var j :| 0 <= j < |d| && d[j] == '=';
  }

  /** Normalising a normalised directive changes nothing. */
  lemma NormalizeIdempotent(d: string)
    ensures Normalize(Normalize(d)) == Normalize(d)
  {
    NormalizeKeepsKeyValue(d);
    NormalizeForm(d);
    NormalizeForm(Normalize(d));
  }

  /** A directive that is already `k=v` with trimmed, `=`-free key and trimmed value is its own normal form. */
  lemma NormalizeOfClean(k: string, v: string)
    requires '=' !in k && NoEdgeSpace(k) && NoEdgeSpace(v)
    ensures Normalize(k + "=" + v) == k + "=" + v
  {
    PairHasEq(k, v);
    KeyValueOfCleanPair(k, v);
    NormalizeForm(k + "=" + v);
  }

  /** A trimmed flag without `=` is its own normal form. */
  lemma NormalizeOfCleanFlag(k: string)
    requires '=' !in k && NoEdgeSpace(k)
    ensures Normalize(k) == k
  {
    KeyValueOfCleanFlag(k);
    NormalizeForm(k);
  }
}
