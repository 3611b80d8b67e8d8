/**
  The handful of functions from Go's `strings` package that tago.go relies on:
  TrimSpace, SplitN with a limit of 2, Split (SplitSeq yields the same pieces)
  and Join. Strings are sequences of Unicode scalar values.
*/
module GoStrings {

  /** Go's unicode.IsSpace: the characters with the Unicode White_Space property. */
  predicate IsSpace(c: char) {
    || c == ' '
    || ('\t' <= c <= '\r')
    || c == '\U{85}' || c == '\U{A0}' || c == '\U{1680}'
    || ('\U{2000}' <= c <= '\U{200A}')
    || c == '\U{2028}' || c == '\U{2029}' || c == '\U{202F}' || c == '\U{205F}' || c == '\U{3000}'
  }

  predicate AllSpace(s: string) {
    forall k :: 0 <= k < |s| ==> IsSpace(s[k])
  }

  /** Neither the first nor the last character is white space. */
  predicate NoEdgeSpace(s: string) {
    s == [] || (!IsSpace(s[0]) && !IsSpace(s[|s| - 1]))
  }

  /** `s` without its leading white space. */
  function TrimLeft(s: string): (r: string)
    ensures |r| <= |s|
  {
    if s != [] && IsSpace(s[0]) then TrimLeft(s[1..]) else s
  }

  /** TrimLeft keeps a suffix of `s` that does not start with white space. */
  lemma {:induction false} TrimLeftShape(s: string)
    ensures |TrimLeft(s)| <= |s| && TrimLeft(s) == s[|s| - |TrimLeft(s)|..]
    ensures TrimLeft(s) == [] || !IsSpace(TrimLeft(s)[0])
  {
    if s != [] && IsSpace(s[0]) {
      TrimLeftShape(s[1..]);
    }
  }

  /** What TrimLeft removes is white space. */
  lemma {:induction false} TrimLeftRemovesSpace(s: string)
    ensures AllSpace(s[..|s| - |TrimLeft(s)|])
  {
    TrimLeftShape(s);
    if s != [] && IsSpace(s[0]) {
      TrimLeftShape(s[1..]);
      TrimLeftRemovesSpace(s[1..]);
      var n := |s| - |TrimLeft(s)|;
      assert s[..n] == [s[0]] + s[1..][..n - 1];
    }
  }

  /** `s` without its trailing white space. */
  function TrimRight(s: string): (r: string)
    ensures |r| <= |s|
  {
    if s != [] && IsSpace(s[|s| - 1]) then TrimRight(s[..|s| - 1]) else s
  }

  /** TrimRight keeps a prefix of `s` that does not end with white space. */
  lemma {:induction false} TrimRightShape(s: string)
    ensures |TrimRight(s)| <= |s| && TrimRight(s) == s[..|TrimRight(s)|]
    ensures TrimRight(s) == [] || !IsSpace(TrimRight(s)[|TrimRight(s)| - 1])
  {
    if s != [] && IsSpace(s[|s| - 1]) {
      TrimRightShape(s[..|s| - 1]);
    }
  }

  /** What TrimRight removes is white space. */
  lemma {:induction false} TrimRightRemovesSpace(s: string)
    ensures AllSpace(s[|TrimRight(s)|..])
  {
    TrimRightShape(s);
    if s != [] && IsSpace(s[|s| - 1]) {
      TrimRightShape(s[..|s| - 1]);
      TrimRightRemovesSpace(s[..|s| - 1]);
      var n := |TrimRight(s)|;
      assert s[n..] == s[..|s| - 1][n..] + [s[|s| - 1]];
    }
  }

  /** strings.TrimSpace: `s` with its leading and trailing white space removed. */
  function TrimSpace(s: string): (r: string)
    ensures NoEdgeSpace(r)
  {
    TrimLeftShape(s);
    TrimRightShape(TrimLeft(s));
    TrimRight(TrimLeft(s))
  }

  /** TrimSpace removes white space only, and only at the two ends. */
  lemma TrimSpaceIsTrim(s: string)
    ensures exists i :: 0 <= i <= |s| - |TrimSpace(s)| && TrimSpace(s) == s[i..i + |TrimSpace(s)|]
                     && AllSpace(s[..i]) && AllSpace(s[i + |TrimSpace(s)|..])
    ensures forall c :: c in TrimSpace(s) ==> c in s
  {
    var l := TrimLeft(s);
    var r := TrimRight(l);
    TrimLeftShape(s);
    TrimRightShape(l);
    TrimLeftRemovesSpace(s);
    TrimRightRemovesSpace(l);
    assert r == s[|s| - |l|..][..|r|];
    var i := |s| - |l|;
    assert r == s[i..i + |r|];
    assert s[i + |r|..] == l[|r|..];
  }

  lemma TrimSpaceOfTrimmed(s: string)
    requires NoEdgeSpace(s)
    ensures TrimSpace(s) == s
  {
  }

  lemma TrimSpaceIdempotent(s: string)
    ensures TrimSpace(TrimSpace(s)) == TrimSpace(s)
  {
    TrimSpaceOfTrimmed(TrimSpace(s));
  }

  lemma TrimSpaceEmpty(s: string)
    ensures TrimSpace(s) == [] <==> AllSpace(s)
  {
    var l := TrimLeft(s);
    TrimLeftShape(s);
    TrimLeftRemovesSpace(s);
    assert l == [] <==> AllSpace(s) by {
      if l == [] { assert s[..|s|] == s; }
    }
    if l != [] {
      TrimRightRemovesSpace(l);
    }
  }

  /** The position of the first `c` in `s`, or |s| when there is none. */
  function FirstIndex(s: string, c: char): (k: nat)
    ensures k <= |s|
  {
    if s == [] then 0
    else if s[0] == c then 0
    else 1 + FirstIndex(s[1..], c)
  }

  /** No `c` comes before FirstIndex, and a `c` is at it unless it is |s|. */
  lemma {:induction false} FirstIndexSpec(s: string, c: char)
    ensures c !in s[..FirstIndex(s, c)]
    ensures FirstIndex(s, c) < |s| ==> s[FirstIndex(s, c)] == c
  {
    if s != [] && s[0] != c {
      var k := FirstIndex(s, c);
      FirstIndexSpec(s[1..], c);
      assert s[..k] == [s[0]] + s[1..][..k - 1];
    }
  }

  lemma FirstIndexOfJoined(a: string, c: char, b: string)
    requires c !in a
    ensures FirstIndex(a + [c] + b, c) == |a|
  {
    var s := a + [c] + b;
    FirstIndexSpec(s, c);
    assert s[..|a|] == a && s[|a|] == c;
  }

  /** strings.Join: the parts with one `sep` between neighbours. */
  function Join(parts: seq<string>, sep: char): string
  {
    if |parts| == 0 then ""
    else if |parts| == 1 then parts[0]
    else parts[0] + [sep] + Join(parts[1..], sep)
  }

  /** strings.SplitN(s, sep, 2): split at the first `sep` only. */
  function SplitN2(s: string, sep: char): (parts: seq<string>)
    ensures 1 <= |parts| <= 2
  {
    var k := FirstIndex(s, sep);
    if k == |s| then [s] else [s[..k], s[k + 1..]]
  }

  /** SplitN2 cuts at the first `sep`, keeps everything else and splits only when there is a `sep`. */
  lemma SplitN2Spec(s: string, sep: char)
    ensures sep !in SplitN2(s, sep)[0]
    ensures |SplitN2(s, sep)| == 1 <==> sep !in s
    ensures Join(SplitN2(s, sep), sep) == s
  {
    var k := FirstIndex(s, sep);
    FirstIndexSpec(s, sep);
    if k == |s| {
      assert s[..k] == s;
    } else {
      assert s == s[..k] + [sep] + s[k + 1..];
    }
  }

  lemma SplitN2OfJoined(a: string, sep: char, b: string)
    requires sep !in a
    ensures SplitN2(a + [sep] + b, sep) == [a, b]
  {
    var s := a + [sep] + b;
    FirstIndexOfJoined(a, sep, b);
    assert s[..|a|] == a && s[|a| + 1..] == b;
  }

  lemma SplitN2OfPlain(a: string, sep: char)
    requires sep !in a
    ensures SplitN2(a, sep) == [a]
  {
    FirstIndexSpec(a, sep);
  }

  /** strings.Split(s, sep) for a one-character `sep`: every piece between separators. */
  function Split(s: string, sep: char): (parts: seq<string>)
    ensures |parts| >= 1
    decreases |s|
  {
    var k := FirstIndex(s, sep);
    if k == |s| then [s] else [s[..k]] + Split(s[k + 1..], sep)
  }

  /** No piece of Split contains `sep`, and joining the pieces gives back `s`. */
  lemma {:induction false} SplitSpec(s: string, sep: char)
    ensures forall k :: 0 <= k < |Split(s, sep)| ==> sep !in Split(s, sep)[k]
    ensures Join(Split(s, sep), sep) == s
    decreases |s|
  {
    var k := FirstIndex(s, sep);
    FirstIndexSpec(s, sep);
    if k == |s| {
      assert s[..k] == s;
    } else {
      var rest := Split(s[k + 1..], sep);
      SplitSpec(s[k + 1..], sep);
      assert s == s[..k] + [sep] + s[k + 1..];
      assert ([s[..k]] + rest)[1..] == rest;
    }
  }

  /** Every character of a piece comes from the split string. */
  lemma {:induction false} SplitChars(s: string, sep: char)
    ensures forall k, c :: 0 <= k < |Split(s, sep)| && c in Split(s, sep)[k] ==> c in s
    decreases |s|
  {
    var k := FirstIndex(s, sep);
    if k < |s| {
      SplitChars(s[k + 1..], sep);
      var parts := Split(s, sep);
      assert parts == [s[..k]] + Split(s[k + 1..], sep);
      forall j, c | 0 <= j < |parts| && c in parts[j] ensures c in s {
        if j == 0 {
          assert c in s[..k];
        } else {
          assert parts[j] == Split(s[k + 1..], sep)[j - 1];
          assert c in s[k + 1..];
        }
      }
    }
  }

  /** Splitting undoes joining, as long as no part contains the separator. */
  lemma {:induction false} SplitOfJoin(parts: seq<string>, sep: char)
    requires |parts| >= 1
    requires forall k :: 0 <= k < |parts| ==> sep !in parts[k]
    ensures Split(Join(parts, sep), sep) == parts
    decreases |parts|
  {
    if |parts| > 1 {
      var rest := Join(parts[1..], sep);
      var s := parts[0] + [sep] + rest;
      FirstIndexOfJoined(parts[0], sep, rest);
      assert s[..|parts[0]|] == parts[0] && s[|parts[0]| + 1..] == rest;
      SplitOfJoin(parts[1..], sep);
      assert parts == [parts[0]] + parts[1..];
    } else {
      FirstIndexSpec(parts[0], sep);
    }
  }
}
