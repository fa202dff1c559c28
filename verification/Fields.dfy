/** Joining, splitting and replacing, as `str` does it for one-character separators. */
module Fields {
  predicate Free(s: string, sep: char) {
    sep !in s
  }

  /** `sep.join(parts)`. */
  function Join(parts: seq<string>, sep: char): string {
    if |parts| == 0 then ""
    else if |parts| == 1 then parts[0]
    else parts[0] + [sep] + Join(parts[1..], sep)
  }

  function FirstOf(s: string, sep: char): (i: nat)
    ensures i <= |s| && sep !in s[..i]
    ensures i < |s| ==> s[i] == sep
  {
    if |s| == 0 || s[0] == sep then 0
    else
      var i := FirstOf(s[1..], sep);
      assert s[..1 + i] == [s[0]] + s[1..][..i];
      1 + i
  }

  /** `s.split(sep)`: never empty. */
  function Split(s: string, sep: char): (parts: seq<string>)
    ensures |parts| > 0
    decreases |s|
  {
    var i := FirstOf(s, sep);
    if i == |s| then [s] else [s[..i]] + Split(s[i + 1..], sep)
  }

  lemma FirstOfIs(a: string, b: string, sep: char)
    requires Free(a, sep)
    ensures FirstOf(a, sep) == |a| && FirstOf(a + [sep] + b, sep) == |a|
  {
    var s := a + [sep] + b;
    var i := FirstOf(s, sep);
    assert s[|a|] == sep;
    assert forall k :: 0 <= k < |a| ==> s[k] == a[k] && a[k] != sep;
    assert forall k :: 0 <= k < i ==> s[..i][k] == s[k];
  }

  lemma {:induction false} SplitOfJoin(parts: seq<string>, sep: char)
    requires |parts| > 0 && forall i :: 0 <= i < |parts| ==> Free(parts[i], sep)
    ensures Split(Join(parts, sep), sep) == parts
    decreases |parts|
  {
    if |parts| == 1 {
      FirstOfIs(parts[0], "", sep);
    } else {
      var rest := Join(parts[1..], sep);
      FirstOfIs(parts[0], rest, sep);
      SplitOfJoin(parts[1..], sep);
      var s := parts[0] + [sep] + rest;
      assert s[..|parts[0]|] == parts[0] && s[|parts[0]| + 1..] == rest;
    }
  }

  lemma {:induction false} JoinOfSplit(s: string, sep: char)
    ensures Join(Split(s, sep), sep) == s
    ensures forall i :: 0 <= i < |Split(s, sep)| ==> Free(Split(s, sep)[i], sep)
    decreases |s|
  {
    var i := FirstOf(s, sep);
    if i == |s| {
      assert s[..i] == s;
    } else {
      JoinOfSplit(s[i + 1..], sep);
      assert s == s[..i] + [sep] + s[i + 1..];
      assert Split(s, sep)[1..] == Split(s[i + 1..], sep);
    }
  }

  /** Joining separator-free fields loses nothing. */
  lemma JoinInjective(a: seq<string>, b: seq<string>, sep: char)
    requires |a| > 0 && |b| > 0 && Join(a, sep) == Join(b, sep)
    requires forall i :: 0 <= i < |a| ==> Free(a[i], sep)
    requires forall i :: 0 <= i < |b| ==> Free(b[i], sep)
    ensures a == b
  {
    SplitOfJoin(a, sep);
    SplitOfJoin(b, sep);
  }

  /** `s.replace(from, to)` for single characters. */
  function Replace(s: string, from: char, to: char): (r: string)
    ensures |r| == |s|
  {
    if |s| == 0 then "" else [if s[0] == from then to else s[0]] + Replace(s[1..], from, to)
  }

  lemma {:induction false} ReplaceAt(s: string, from: char, to: char)
    ensures forall i :: 0 <= i < |s| ==> Replace(s, from, to)[i] == if s[i] == from then to else s[i]
  {
    if |s| > 0 { ReplaceAt(s[1..], from, to); }
  }

  lemma {:induction false} ReplaceInjective(s: string, t: string, from: char, to: char)
    requires Free(s, to) && Free(t, to) && Replace(s, from, to) == Replace(t, from, to)
    ensures s == t
  {
    if |s| > 0 {
      assert Replace(s, from, to)[0] == Replace(t, from, to)[0];
      assert Replace(s, from, to)[1..] == Replace(s[1..], from, to);
      assert Replace(t, from, to)[1..] == Replace(t[1..], from, to);
      ReplaceInjective(s[1..], t[1..], from, to);
      assert s == [s[0]] + s[1..] && t == [t[0]] + t[1..];
    }
  }
}
