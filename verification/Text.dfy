/** Substring search as the C++ string library does it, and when a first match can be read off. */
module Text {

  datatype Option<+T> = None | Some(value: T)

  const CRLF := "\r\n"

  predicate At(s: string, p: string, i: int) {
    0 <= i && i + |p| <= |s| && s[i..i + |p|] == p
  }

  ghost predicate Contains(s: string, p: string) {
    exists i :: At(s, p, i)
  }

  predicate Starts(s: string, p: string) {
    At(s, p, 0)
  }

  predicate Ends(s: string, p: string) {
    At(s, p, |s| - |p|)
  }

  predicate Free(s: string, c: char) {
    forall i :: 0 <= i < |s| ==> s[i] != c
  }

  lemma FreeConcat(a: string, b: string, c: char)
    ensures Free(a + b, c) <==> Free(a, c) && Free(b, c)
  {
    forall i | 0 <= i < |b| ensures (a + b)[|a| + i] == b[i] {
    }
    forall i | 0 <= i < |a| ensures (a + b)[i] == a[i] {
    }
  }

  /** `std::string::find(p, from)`: the first match at or after `from`. */
  function FindFrom(s: string, p: string, from: nat): (r: Option<nat>)
    ensures r.Some? ==> from <= r.value && r.value + |p| <= |s|
    decreases |s| - from
  {
    if At(s, p, from) then Some(from)
    else if from >= |s| then None
    else FindFrom(s, p, from + 1)
  }

  function Find(s: string, p: string): (r: Option<nat>)
    ensures r.Some? ==> r.value + |p| <= |s|
  {
    FindFrom(s, p, 0)
  }

  lemma {:induction false} FindIsFirst(s: string, p: string, from: nat)
    ensures var r := FindFrom(s, p, from);
      && (r.Some? ==> At(s, p, r.value) && forall j :: from <= j < r.value ==> !At(s, p, j))
      && (r.None? ==> forall j :: from <= j ==> !At(s, p, j))
    decreases |s| - from
  {
    if !At(s, p, from) && from < |s| {
      FindIsFirst(s, p, from + 1);
    }
  }

  /** The first match of a pattern is wherever there is a match with none before it. */
  lemma FirstMatch(s: string, p: string, i: nat)
    requires At(s, p, i) && forall j :: 0 <= j < i ==> !At(s, p, j)
    ensures Find(s, p) == Some(i)
  {
    FindIsFirst(s, p, 0);
  }

  lemma NoMatch(s: string, p: string)
    ensures Find(s, p) == None <==> !Contains(s, p)
  {
    FindIsFirst(s, p, 0);
  }

  lemma AtTail(s: string, p: string, from: nat, j: int)
    requires from <= |s| && j >= from
    ensures At(s, p, j) <==> At(s[from..], p, j - from)
  {
    if j + |p| <= |s| {
      assert s[j..j + |p|] == s[from..][j - from..j - from + |p|];
    }
  }

  /** Searching from an index is searching the tail. */
  lemma FindTail(s: string, p: string, from: nat)
    requires from <= |s|
    ensures FindFrom(s, p, from) ==
      (match Find(s[from..], p) case None => None case Some(k) => Some(from + k))
  {
    hide At, FindFrom;
    var r, t := FindFrom(s, p, from), Find(s[from..], p);
    FindIsFirst(s, p, from);
    FindIsFirst(s[from..], p, 0);
    match r {
      case None =>
        if t.Some? {
          AtTail(s, p, from, from + t.value);
        }
      case Some(i) =>
        AtTail(s, p, from, i);
        forall j | 0 <= j < i - from ensures !At(s[from..], p, j) {
          AtTail(s, p, from, from + j);
        }
        FirstMatch(s[from..], p, i - from);
    }
  }

  /** A pattern whose first character occurs nowhere else in it has no border:
      no proper prefix of it is also a suffix. */
  predicate Borderless(p: string) {
    p != "" && forall k :: 0 < k < |p| ==> p[k] != p[0]
  }

  /** A match reads the pattern character by character. */
  lemma MatchReads(s: string, p: string, j: int, k: int)
    ensures At(s, p, j) && 0 <= k < |p| ==> s[j + k] == p[k]
  {
    if At(s, p, j) && 0 <= k < |p| {
      assert s[j..j + |p|][k] == s[j + k];
    }
  }

  lemma AtPrefix(s: string, t: string, p: string, j: int)
    ensures j + |p| <= |s| ==> (At(s + t, p, j) <==> At(s, p, j))
  {
    if 0 <= j && j + |p| <= |s| {
      assert (s + t)[j..j + |p|] == s[j..j + |p|];
    }
  }

  /** A borderless delimiter after text that does not contain it is first found where it was put:
      no match can straddle the text and the delimiter. */
  lemma DelimiterFound(text: string, p: string, rest: string)
    requires Borderless(p) && !Contains(text, p)
    ensures Find(text + p + rest, p) == Some(|text|)
  {
    var s := text + p + rest;
    assert s == text + (p + rest);
    assert s[|text|..|text| + |p|] == p;
    forall j | 0 <= j < |text| ensures !At(s, p, j) {
      AtPrefix(text, p + rest, p, j);
      MatchReads(s, p, j, |text| - j);
    }
    FirstMatch(s, p, |text|);
  }

  lemma NotContained(s: string, p: string, c: char)
    requires Free(s, c) && c in p
    ensures !Contains(s, p)
  {
    var k :| 0 <= k < |p| && p[k] == c;
    forall i ensures !At(s, p, i) {
      MatchReads(s, p, i, k);
    }
  }

  function Shift(r: Option<nat>, k: nat): Option<nat> {
    match r
    case None => None
    case Some(i) => Some(k + i)
  }

  /** A prefix in which no match begins only shifts the first match. */
  lemma SkipPrefix(a: string, t: string, p: string)
    requires forall j :: 0 <= j < |a| ==> !At(a + t, p, j)
    ensures Find(a + t, p) == Shift(Find(t, p), |a|)
  {
    hide FindFrom;
    var s := a + t;
    assert s[|a|..] == t;
    FindTail(s, p, |a|);
    FindIsFirst(s, p, |a|);
    match FindFrom(s, p, |a|) {
      case None => NoMatch(s, p);
      case Some(i) => FirstMatch(s, p, i);
    }
  }

  lemma SkipFree(a: string, t: string, p: string)
    requires p != "" && Free(a, p[0])
    ensures Find(a + t, p) == Shift(Find(t, p), |a|)
  {
    forall j | 0 <= j < |a| ensures !At(a + t, p, j) {
      MatchReads(a + t, p, j, 0);
    }
    SkipPrefix(a, t, p);
  }

  /** Text without a match, then a character foreign to the pattern: no match begins in either. */
  lemma SkipOver(a: string, c: char, t: string, p: string)
    requires p != "" && !Contains(a, p) && c !in p
    ensures Find(a + [c] + t, p) == Shift(Find(t, p), |a| + 1)
  {
    var s := a + [c] + t;
    assert s == a + ([c] + t);
    forall j | 0 <= j < |a| + 1 ensures !At(s, p, j) {
      MatchReads(s, p, j, |a| - j);
      AtPrefix(a, [c] + t, p, j);
    }
    SkipPrefix(a + [c], t, p);
  }

  lemma FindInside(a: string, t: string, p: string)
    requires Contains(a, p)
    ensures Find(a, p).Some? && Find(a + t, p) == Find(a, p)
  {
    FindIsFirst(a, p, 0);
    var i := Find(a, p).value;
    forall j | 0 <= j <= i ensures At(a + t, p, j) <==> At(a, p, j) {
      AtPrefix(a, t, p, j);
    }
    FirstMatch(a + t, p, i);
  }
}
