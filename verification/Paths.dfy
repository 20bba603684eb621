/** Path normalisation, protection and the joins of the file handlers (src/CrossPointWebServer.cpp). */
module Paths {
  import opened Text
  import opened Query

  // --- components ---

  /** What lies between the slashes, empty pieces included. */
  function Split(s: string): (parts: seq<string>)
    ensures parts != []
  {
    if s == "" then [""]
    else if s[0] == '/' then [""] + Split(s[1..])
    else
      var rest := Split(s[1..]);
      [[s[0]] + rest[0]] + rest[1..]
  }

  function NonEmpty(parts: seq<string>): seq<string> {
    if parts == [] then []
    else (if parts[0] == "" then [] else [parts[0]]) + NonEmpty(parts[1..])
  }

  /** The names a path walks through: its non-empty components. */
  function Names(s: string): seq<string> {
    NonEmpty(Split(s))
  }

  /** The one spelling of a list of names. */
  function Canonical(names: seq<string>): string {
    if names == [] then "/" else Spell(names)
  }

  function Spell(names: seq<string>): string {
    if names == [] then "" else "/" + names[0] + Spell(names[1..])
  }

  predicate Name(n: string) {
    n != "" && Free(n, '/')
  }

  predicate AllNames(names: seq<string>) {
    forall i :: 0 <= i < |names| ==> Name(names[i])
  }

  lemma {:induction false} SplitJoin(a: string, b: string)
    ensures Split(a + "/" + b) == Split(a) + Split(b)
  {
    var s := a + "/" + b;
    if a == "" {
      assert s[1..] == b;
    } else {
      assert s[1..] == a[1..] + "/" + b;
      SplitJoin(a[1..], b);
    }
  }

  lemma {:induction false} NonEmptyConcat(a: seq<string>, b: seq<string>)
    ensures NonEmpty(a + b) == NonEmpty(a) + NonEmpty(b)
  {
    if a == [] {
      assert a + b == b;
    } else {
      assert (a + b)[1..] == a[1..] + b;
      NonEmptyConcat(a[1..], b);
    }
  }

  lemma NamesJoin(a: string, b: string)
    ensures Names(a + "/" + b) == Names(a) + Names(b)
  {
    SplitJoin(a, b);
    NonEmptyConcat(Split(a), Split(b));
  }

  lemma {:induction false} SplitFree(s: string)
    requires Free(s, '/')
    ensures Split(s) == [s]
  {
    if s != "" {
      SplitFree(s[1..]);
      assert s == [s[0]] + s[1..];
    }
  }

  lemma NamesOfName(n: string)
    requires Free(n, '/')
    ensures Names(n) == if n == "" then [] else [n]
  {
    SplitFree(n);
    assert NonEmpty([n]) == (if n == "" then [] else [n]) + NonEmpty([n][1..]);
  }

  lemma NamesAfterSlash(s: string)
    ensures Names("/" + s) == Names(s)
  {
    NamesJoin("", s);
    NamesOfName("");
    assert "" + "/" + s == "/" + s;
  }

  lemma {:induction false} SplitIsFree(s: string)
    ensures forall i :: 0 <= i < |Split(s)| ==> Free(Split(s)[i], '/')
  {
    if s != "" {
      SplitIsFree(s[1..]);
      var rest := Split(s[1..]);
      assert Free(rest[0], '/');
    }
  }

  lemma NamesAreNames(s: string)
    ensures AllNames(Names(s)) && (".." in Names(s) <==> ".." in Split(s))
  {
    SplitIsFree(s);
    NonEmptyKeeps(Split(s));
    forall i | 0 <= i < |Names(s)| ensures Name(Names(s)[i]) {
      assert Names(s)[i] in Split(s);
    }
  }

  lemma {:induction false} NonEmptyKeeps(parts: seq<string>)
    ensures forall n :: n in NonEmpty(parts) <==> n in parts && n != ""
  {
    if parts != [] {
      NonEmptyKeeps(parts[1..]);
    }
  }

  /** The first name of a path and the names after it. */
  lemma NamesCons(n: string, u: string)
    requires Name(n) && (u != "" ==> u[0] == '/')
    ensures Names("/" + n + u) == [n] + Names(u)
  {
    assert "/" + n + u == "/" + (n + u);
    NamesAfterSlash(n + u);
    NamesOfName(n);
    if u == "" {
      assert n + u == n;
      NamesOfName(u);
    } else {
      var t := u[1..];
      assert n + u == n + "/" + t && u == "/" + t;
      NamesJoin(n, t);
      NamesAfterSlash(t);
    }
  }

  lemma {:induction false} NamesOfSpelling(names: seq<string>)
    requires AllNames(names)
    ensures Names(Spell(names)) == names
  {
    if names == [] {
      NamesOfName("");
    } else {
      NamesOfSpelling(names[1..]);
      NamesCons(names[0], Spell(names[1..]));
    }
  }

  // --- the normal form ---

  /** A leading slash, no doubled slash, no trailing slash but the root's. */
  ghost predicate Tidy(s: string) {
    && s != "" && s[0] == '/'
    && !Contains(s, "//")
    && (|s| > 1 ==> s[|s| - 1] != '/')
  }

  /** A tidy path longer than the root is a slash, a name, and what is left: nothing or a tidy path. */
  lemma TidySplits(s: string) returns (n: string, u: string)
    requires Tidy(s) && |s| > 1
    ensures s == "/" + n + u && Name(n)
    ensures u == "" || (Tidy(u) && |u| > 1 && u[0] == '/')
  {
    var k := FirstSlash(s[1..]);
    n, u := s[1..k + 1], s[k + 1..];
    MatchesDouble(s, 0);
    assert !At(s, "//", 0) && k > 0;
    assert n == s[1..][..k];
    if u != "" {
      TailIsTidy(s, k + 1);
      assert u[|u| - 1] == s[|s| - 1];
    }
  }

  /** A tidy path is the canonical spelling of its names. */
  lemma {:induction false} TidyIsCanonical(s: string)
    requires Tidy(s)
    ensures s == Canonical(Names(s)) && (Names(s) == [] <==> s == "/")
    decreases |s|
  {
    if |s| == 1 {
      NamesOfName("");
      NamesAfterSlash("");
      assert s == "/" + "";
    } else {
      var n, u := TidySplits(s);
      NamesCons(n, u);
      SpellCons(n, Names(u));
      if u == "" {
        NamesOfName(u);
      } else {
        TidyIsCanonical(u);
      }
    }
  }

  lemma SpellCons(n: string, names: seq<string>)
    ensures Spell([n] + names) == "/" + n + Spell(names)
  {
    assert ([n] + names)[1..] == names;
  }

  /** Where the first slash is, or the length. */
  function FirstSlash(s: string): (k: nat)
    ensures k <= |s| && (forall i :: 0 <= i < k ==> s[i] != '/')
    ensures k < |s| ==> s[k] == '/'
  {
    if s == "" || s[0] == '/' then 0 else 1 + FirstSlash(s[1..])
  }

  lemma MatchesDouble(s: string, i: nat)
    ensures i + 1 < |s| ==> (At(s, "//", i) <==> s[i] == '/' && s[i + 1] == '/')
  {
    if i + 1 < |s| {
      assert s[i..i + 2] == [s[i], s[i + 1]];
    }
  }

  lemma TailIsTidy(s: string, k: nat)
    requires Tidy(s) && k < |s| && s[k] == '/'
    ensures Tidy(s[k..])
  {
    var u := s[k..];
    forall i ensures !At(u, "//", i) {
      if i >= 0 {
        AtTail(s, "//", k, k + i);
      }
    }
  }

  lemma {:induction false} CanonicalIsTidy(names: seq<string>)
    requires AllNames(names)
    ensures Tidy(Canonical(names))
  {
    var s := Canonical(names);
    if names == [] {
      forall i ensures !At(s, "//", i) {
      }
    } else {
      SpellHasNoDouble(names);
    }
  }

  lemma {:induction false} SpellHasNoDouble(names: seq<string>)
    requires names != [] && AllNames(names)
    ensures var s := Spell(names);
      && |s| > 1 && s[0] == '/' && s[1] != '/' && s[|s| - 1] != '/' && !Contains(s, "//")
  {
    var s, n, t := Spell(names), names[0], Spell(names[1..]);
    assert Name(n) && s == "/" + n + t;
    assert s[1] == n[0];
    if names[1..] != [] {
      SpellHasNoDouble(names[1..]);
      assert s[|s| - 1] == t[|t| - 1];
    } else {
      assert s[|s| - 1] == n[|n| - 1];
    }
    forall i ensures !At(s, "//", i) {
      if 0 <= i && i + 1 < |s| {
        MatchesDouble(s, i);
        if 0 < i <= |n| {
          assert s[i] == n[i - 1];
        } else if i > |n| {
          AtTail(s, "//", |n| + 1, i);
          assert s[|n| + 1..] == t;
        }
      }
    }
  }

  // --- normalizePath ---

  function Normalize(param: string): string {
    var names := Names(Decode(param));
    if ".." in names then "" else Canonical(names)
  }

  /** Replacing a doubled slash by one keeps the names. */
  lemma CollapseKeepsNames(s: string, k: nat)
    requires At(s, "//", k)
    ensures Names(s[..k] + "/" + s[k + 2..]) == Names(s)
  {
    var a, b := s[..k], s[k + 2..];
    assert s == a + "/" + ("/" + b);
    NamesJoin(a, "/" + b);
    NamesAfterSlash(b);
    NamesJoin(a, b);
  }

  lemma {:induction false} SplitAt(s: string, from: nat, end: nat)
    requires from <= end <= |s| && (forall i :: from <= i < end ==> s[i] != '/')
    requires end < |s| ==> s[end] == '/'
    ensures Split(s[from..]) == if end < |s| then [s[from..end]] + Split(s[end + 1..]) else [s[from..]]
  {
    if end < |s| {
      assert s[from..] == s[from..end] + "/" + s[end + 1..];
      SplitJoin(s[from..end], s[end + 1..]);
      SplitFree(s[from..end]);
    } else {
      SplitFree(s[from..]);
    }
  }

  /** The end of the component that starts at `from`. */
  method NextSlash(s: string, from: nat) returns (end: nat)
    requires from <= |s|
    ensures from <= end <= |s| && (forall i :: from <= i < end ==> s[i] != '/')
    ensures end < |s| ==> s[end] == '/'
  {
    end := from;
    while end < |s| && s[end] != '/'
      invariant from <= end <= |s| && forall i :: from <= i < end ==> s[i] != '/'
    {
      end := end + 1;
    }
  }

  method HasParentPart(path: string) returns (found: bool)
    ensures found <==> ".." in Split(path)
  {
    var start := 0;
    assert path[0..] == path;
    while start < |path|
      invariant 0 <= start <= |path|
      invariant ".." in Split(path[start..]) <==> ".." in Split(path)
      decreases |path| - start
    {
      var end := NextSlash(path, start);
      SplitAt(path, start, end);
      assert path[start..|path|] == path[start..];
      if path[start..end] == ".." {
        return true;
      }
      if end == |path| {
        return false;
      }
      start := end + 1;
    }
    return false;
  }

  method NormalizePath(param: string) returns (path: string)
    ensures path == Normalize(param)
  {
    path := UrlDecode(param);
    ghost var names := Names(path);
    if path == "" {
      path := "/";
      NamesAfterSlash("");
    }
    if path[0] != '/' {
      NamesAfterSlash(path);
      path := "/" + path;
    }
    var double := Find(path, "//");
    FindIsFirst(path, "//", 0);
    while double.Some?
      invariant path != "" && path[0] == '/' && Names(path) == names
      invariant double == Find(path, "//")
      invariant if double.Some? then At(path, "//", double.value) else !Contains(path, "//")
      decreases |path|
    {
      var k := double.value;
      CollapseKeepsNames(path, k);
      MatchesDouble(path, k);
      path := path[..k] + "/" + path[k + 2..];
      double := Find(path, "//");
      FindIsFirst(path, "//", 0);
    }
    NamesAreNames(path);
    var parent := HasParentPart(path);
    if parent {
      return "";
    }
    if |path| > 1 && path[|path| - 1] == '/' {
      DropLastSlash(path);
      path := path[..|path| - 1];
    }
    TidyIsCanonical(path);
  }

  lemma DropLastSlash(s: string)
    requires |s| > 1 && s[0] == '/' && s[|s| - 1] == '/' && !Contains(s, "//")
    ensures Tidy(s[..|s| - 1]) && Names(s[..|s| - 1]) == Names(s)
  {
    var t := s[..|s| - 1];
    assert s == t + "/" + "";
    NamesJoin(t, "");
    NamesOfName("");
    MatchesDouble(s, |s| - 2);
    forall i ensures !At(t, "//", i) {
      AtPrefix(t, "/", "//", i);
      assert t + "/" == s;
    }
  }

  /** The result is empty exactly when a `..` was walked through, and otherwise tidy, free of `..`
      and made of the very names the decoded path walks through. */
  lemma NormalForm(param: string)
    ensures var path, names := Normalize(param), Names(Decode(param));
      && (path == "" <==> ".." in names)
      && (path != "" ==> Tidy(path) && Names(path) == names && ".." !in Split(path))
  {
    var names := Names(Decode(param));
    NamesAreNames(Decode(param));
    CanonicalIsTidy(names);
    if ".." !in names {
      NamesOfCanonical(names);
      NamesAreNames(Canonical(names));
    }
  }

  lemma NamesOfCanonical(names: seq<string>)
    requires AllNames(names)
    ensures Names(Canonical(names)) == names
  {
    if names == [] {
      NamesAfterSlash("");
      NamesOfName("");
      assert "/" + "" == "/";
    } else {
      NamesOfSpelling(names);
    }
  }

  // --- protection ---

  predicate ProtectedName(name: string) {
    name == "" || name[0] == '.' || name == "System Volume Information" || name == "XTCache"
  }

  /** The firmware's own folders, hidden names, the two dot names and the empty name; case counts. */
  lemma WhichNamesAreProtected(n: string)
    ensures ProtectedName(n) <==>
      n in ["", "System Volume Information", "XTCache"] || exists rest :: n == "." + rest
    ensures ProtectedName(".") && ProtectedName("..") && !ProtectedName("xtcache")
  {
    if n != "" && n[0] == '.' {
      assert n == "." + n[1..];
    }
  }

  /** The specification: an empty path, or any name on the way that is protected. */
  predicate ProtectedPath(path: string) {
    path == "" || exists n :: n in Names(path) && ProtectedName(n)
  }

  lemma NamesFrom(s: string, from: nat, end: nat)
    requires from <= end <= |s| && (forall i :: from <= i < end ==> s[i] != '/')
    requires end < |s| ==> s[end] == '/'
    ensures var part := s[from..end];
      Names(s[from..]) == (if part == "" then [] else [part]) + (if end < |s| then Names(s[end + 1..]) else [])
  {
    var part := s[from..end];
    SplitAt(s, from, end);
    NamesOfName(part);
    SplitFree(part);
    if end < |s| {
      NonEmptyConcat([part], Split(s[end + 1..]));
    } else {
      assert s[from..] == part;
    }
  }

  ghost predicate ProtectedFrom(s: string, from: nat)
    requires from <= |s|
  {
    exists n :: n in Names(s[from..]) && ProtectedName(n)
  }

  lemma ProtectedStep(s: string, from: nat, end: nat)
    requires from <= end <= |s| && (forall i :: from <= i < end ==> s[i] != '/')
    requires end < |s| ==> s[end] == '/'
    ensures ProtectedFrom(s, from) <==>
      (s[from..end] != "" && ProtectedName(s[from..end])) || (end < |s| && ProtectedFrom(s, end + 1))
  {
    NamesFrom(s, from, end);
  }

  method SkipSlashes(s: string, from: nat) returns (start: nat)
    requires from <= |s|
    ensures from <= start <= |s| && (ProtectedFrom(s, from) <==> ProtectedFrom(s, start))
  {
    hide ProtectedName, Names;
    start := from;
    while start < |s| && s[start] == '/'
      invariant from <= start <= |s|
      invariant ProtectedFrom(s, from) <==> ProtectedFrom(s, start)
    {
      ProtectedStep(s, start, start);
      start := start + 1;
    }
  }

  method IsProtectedPath(path: string) returns (r: bool)
    ensures r == ProtectedPath(path)
  {
    if path == "" {
      return true;
    }
    var start := 0;
    assert path[0..] == path;
    while start < |path|
      invariant 0 <= start <= |path|
      invariant ProtectedPath(path) <==> ProtectedFrom(path, start)
      decreases |path| - start
    {
      start := SkipSlashes(path, start);
      var end := NextSlash(path, start);
      ProtectedStep(path, start, end);
      var part := path[start..end];
      if part != "" && ProtectedName(part) {
        return true;
      }
      if end == |path| {
        return false;
      }
      start := end + 1;
    }
    NamesOfName("");
    assert path[start..] == "";
    return false;
  }

  // --- basename, parent and the joins ---

  /** `find_last_of('/')`, or -1. */
  function LastSlash(s: string): (k: int)
    ensures -1 <= k < |s|
    ensures k >= 0 ==> s[k] == '/'
    ensures forall i :: k < i < |s| ==> s[i] != '/'
  {
    if s == "" then -1
    else if s[|s| - 1] == '/' then |s| - 1
    else LastSlash(s[..|s| - 1])
  }

  function BasenameOf(path: string): string {
    path[LastSlash(path) + 1..]
  }

  function ParentOf(path: string): string {
    if LastSlash(path) <= 0 then "/" else path[..LastSlash(path)]
  }

  function JoinName(dir: string, name: string): string {
    (if dir == "/" then "/" else dir + "/") + name
  }

  lemma {:induction false} LastSlashOf(a: string, n: string)
    requires Free(n, '/')
    ensures LastSlash(a + "/" + n) == |a|
  {
    var s := a + "/" + n;
    if n != "" {
      assert s[|s| - 1] == n[|n| - 1];
      assert s[..|s| - 1] == a + "/" + n[..|n| - 1];
      LastSlashOf(a, n[..|n| - 1]);
    }
  }

  lemma {:induction false} SpellSnoc(names: seq<string>, n: string)
    ensures Spell(names + [n]) == Spell(names) + "/" + n
  {
    if names == [] {
      assert [n][1..] == [];
    } else {
      assert (names + [n])[1..] == names[1..] + [n];
      SpellSnoc(names[1..], n);
    }
  }

  /** The last name of a canonical path, and what is left without it. */
  lemma BasenameAndParent(names: seq<string>, n: string)
    requires AllNames(names) && Name(n)
    ensures BasenameOf(Canonical(names + [n])) == n
    ensures ParentOf(Canonical(names + [n])) == Canonical(names)
    ensures JoinName(Canonical(names), n) == Canonical(names + [n])
  {
    var s := Canonical(names + [n]);
    SpellSnoc(names, n);
    LastSlashOf(Spell(names), n);
    assert s == Spell(names) + "/" + n;
    assert s[|Spell(names)|..] == "/" + n;
    if names != [] {
      SpellHasNoDouble(names);
    }
  }

  /** The basename of any path is what follows its last slash, or all of it. */
  lemma BasenameIsTail(dir: string, name: string)
    requires Free(name, '/')
    ensures BasenameOf(dir + "/" + name) == name && BasenameOf(name) == name
  {
    LastSlashOf(dir, name);
    assert (dir + "/" + name)[|dir| + 1..] == name;
  }

  lemma BasenameIsFree(path: string)
    ensures Free(BasenameOf(path), '/')
  {
  }

  // --- the file handlers ---

  /** A path in normal form with no protected name on the way. */
  ghost predicate Safe(path: string) {
    Tidy(path) && !ProtectedPath(path) && ".." !in Split(path)
  }

  predicate Unprotected(names: seq<string>) {
    forall i :: 0 <= i < |names| ==> !ProtectedName(names[i])
  }

  lemma UnprotectedIsSafe(names: seq<string>)
    requires AllNames(names) && Unprotected(names)
    ensures Safe(Canonical(names)) && Names(Canonical(names)) == names
  {
    CanonicalIsTidy(names);
    NamesOfCanonical(names);
    NamesAreNames(Canonical(names));
  }

  /** The names a request parameter walks through. */
  function NamesOf(param: string): seq<string> {
    Names(Decode(param))
  }

  predicate Refused(dir: string) {
    dir == "" || ProtectedPath(dir)
  }

  /** A handler lets a directory through exactly when every name its parameter walks through is unprotected. */
  lemma AdmittedDirectory(param: string)
    ensures var dir, names := Normalize(param), NamesOf(param);
      && AllNames(names)
      && (!Refused(dir) <==> Unprotected(names))
      && (dir != "" ==> dir == Canonical(names) && (dir == "/" <==> names == []))
  {
    var names := Names(Decode(param));
    NamesAreNames(Decode(param));
    if ".." in names {
      var i :| 0 <= i < |names| && names[i] == "..";
      assert ProtectedName(names[i]);
    } else {
      NamesOfCanonical(names);
      if names != [] {
        SpellHasNoDouble(names);
      }
      if !Unprotected(names) {
        var i :| 0 <= i < |names| && ProtectedName(names[i]);
        assert names[i] in Names(Canonical(names));
      }
    }
  }

  lemma JoinIsSafe(names: seq<string>, name: string)
    requires AllNames(names) && Unprotected(names) && Name(name) && !ProtectedName(name)
    ensures var path := JoinName(Canonical(names), name);
      Delivers(path, names + [name]) && path == Canonical(names + [name])
  {
    BasenameAndParent(names, name);
    DeliversExactly(names + [name]);
  }

  // --- what the storage is handed: a C string ---

  /** A text up to its first NUL. */
  function CString(s: string): (c: string)
    ensures c <= s && Free(c, NUL)
    ensures |c| < |s| ==> s[|c|] == NUL
  {
    if s == "" || s[0] == NUL then "" else [s[0]] + CString(s[1..])
  }

  /** The names up to the first one that holds a NUL, and that one cut there. */
  function CutNames(names: seq<string>): seq<string> {
    if names == [] then []
    else if Free(names[0], NUL) then [names[0]] + CutNames(names[1..])
    else [CString(names[0])]
  }

  predicate NulFree(names: seq<string>) {
    forall i :: 0 <= i < |names| ==> Free(names[i], NUL)
  }

  /** The name the first NUL cuts, if any, is none of the protected ones, nor empty. */
  predicate CutIsUnprotected(names: seq<string>) {
    names != [] ==> if Free(names[0], NUL) then CutIsUnprotected(names[1..]) else !ProtectedName(CString(names[0]))
  }

  /** A safe path below the root. */
  ghost predicate Target(path: string) {
    Safe(path) && path != "/"
  }

  /** A path the handler made of these names: safe as a text; handed over whole exactly when no name holds
      a NUL; and safe as the storage reads it exactly when the cut name is not protected. */
  ghost predicate Delivers(path: string, names: seq<string>) {
    && Safe(path) && Names(path) == names
    && (CString(path) == path <==> NulFree(names))
    && (Target(CString(path)) <==> CutIsUnprotected(names))
    && (Target(CString(path)) ==> Names(CString(path)) == CutNames(names))
  }

  lemma {:induction false} CStringConcat(a: string, b: string)
    ensures CString(a + b) == if Free(a, NUL) then a + CString(b) else CString(a)
  {
    if a == "" {
      assert a + b == b;
    } else {
      assert (a + b)[1..] == a[1..] + b;
      CStringConcat(a[1..], b);
      if a[0] != NUL {
        assert Free(a, NUL) <==> Free(a[1..], NUL);
      }
    }
  }

  lemma {:induction false} CStringWhole(s: string)
    ensures CString(s) == s <==> Free(s, NUL)
  {
    if s != "" {
      CStringWhole(s[1..]);
    }
  }

  /** The C string of a spelling spells the cut names. */
  lemma {:induction false} CutSpelling(names: seq<string>)
    ensures CString(Spell(names)) == Spell(CutNames(names))
    ensures NulFree(names) ==> CutNames(names) == names
  {
    if names != [] {
      var n, t := names[0], Spell(names[1..]);
      assert Spell(names) == "/" + (n + t);
      CStringConcat("/", n + t);
      CStringConcat(n, t);
      CutSpelling(names[1..]);
      if Free(n, NUL) {
        SpellCons(n, CutNames(names[1..]));
        assert "/" + (n + Spell(CutNames(names[1..]))) == "/" + n + Spell(CutNames(names[1..]));
      } else {
        SpellCons(CString(n), []);
        assert [CString(n)] + [] == [CString(n)];
        assert "/" + CString(n) + "" == "/" + CString(n);
      }
    }
  }

  lemma {:induction false} SpellingWhole(names: seq<string>)
    ensures Free(Spell(names), NUL) <==> NulFree(names)
  {
    if names != [] {
      var n, t := names[0], Spell(names[1..]);
      SpellingWhole(names[1..]);
      assert Spell(names) == "/" + n + t;
      FreeConcat("/" + n, t, NUL);
      FreeConcat("/", n, NUL);
    }
  }

  /** The cut names are the names, the last one shortened: unprotected unless the cut made it so. */
  lemma {:induction false} CutNamesAreNames(names: seq<string>)
    requires AllNames(names) && Unprotected(names)
    ensures CutIsUnprotected(names) ==> AllNames(CutNames(names)) && Unprotected(CutNames(names))
    ensures !CutIsUnprotected(names) ==>
      var cut := CutNames(names);
      && cut != [] && ProtectedName(cut[|cut| - 1]) && Free(cut[|cut| - 1], '/')
      && AllNames(cut[..|cut| - 1])
  {
    if names != [] {
      CutNamesAreNames(names[1..]);
      var cut := CutNames(names);
      if Free(names[0], NUL) {
        assert cut[1..] == CutNames(names[1..]);
        if !CutIsUnprotected(names) {
          var rest := CutNames(names[1..]);
          assert cut[|cut| - 1] == rest[|rest| - 1];
          assert cut[..|cut| - 1] == [names[0]] + rest[..|rest| - 1];
        }
      }
    }
  }

  /** A spelling that ends in a protected or empty name is no target. */
  lemma ProtectedEndIsNoTarget(init: seq<string>, last: string)
    requires AllNames(init) && ProtectedName(last) && Free(last, '/')
    ensures !Target(Spell(init + [last]))
  {
    SpellSnoc(init, last);
    var s := Spell(init + [last]);
    if last == "" {
      assert s == Spell(init) + "/";
      assert s[|s| - 1] == '/';
    } else {
      NamesOfSpelling(init + [last]);
      assert (init + [last])[|init|] == last;
    }
  }

  lemma HandedWhole(names: seq<string>)
    requires names != []
    ensures CString(Canonical(names)) == Canonical(names) <==> NulFree(names)
  {
    hide Free, NulFree, CString, Spell;
    SpellingWhole(names);
    CStringWhole(Spell(names));
  }

  lemma HandedSafe(names: seq<string>)
    requires names != [] && AllNames(names) && Unprotected(names)
    ensures var c := CString(Canonical(names));
      && (Target(c) <==> CutIsUnprotected(names))
      && (Target(c) ==> Names(c) == CutNames(names))
  {
    hide Safe, Free, CString, Spell, Names, AllNames, Unprotected, CutIsUnprotected, ProtectedName;
    var cut := CutNames(names);
    CutSpelling(names);
    CutNamesAreNames(names);
    if CutIsUnprotected(names) {
      UnprotectedIsSafe(cut);
      SpellHasNoDouble(cut);
    } else {
      assert cut[..|cut| - 1] + [cut[|cut| - 1]] == cut;
      ProtectedEndIsNoTarget(cut[..|cut| - 1], cut[|cut| - 1]);
    }
  }

  /** What a handler hands over, for every list of names it admits. */
  lemma DeliversExactly(names: seq<string>)
    requires names != [] && AllNames(names) && Unprotected(names)
    ensures Delivers(Canonical(names), names)
  {
    hide Safe, Free, CString, Canonical, Names, AllNames, Unprotected, CutIsUnprotected, Target, NulFree, CutNames;
    UnprotectedIsSafe(names);
    HandedWhole(names);
    HandedSafe(names);
  }

  // --- the handlers ---

  function FormValue(form: Values, key: string): string {
    if key in form then form[key] else ""
  }

  /** `/upload`: the query's directory and the multipart file's name. */
  function UploadPath(query: Values, filename: string): Option<string> {
    var dir := Normalize(if "path" in query then query["path"] else "/");
    if ProtectedName(filename) || Refused(dir) then None else Some(JoinName(dir, filename))
  }

  /** `/mkdir`: a parent directory and the new folder's name. */
  function MkdirPath(form: Values): Option<string> {
    var parent := Normalize(if FormValue(form, "path") == "" then "/" else FormValue(form, "path"));
    var name := BasenameOf(FormValue(form, "name"));
    if Refused(parent) || ProtectedName(name) then None else Some(JoinName(parent, name))
  }

  /** `/rename`: the old path and its new path. */
  function RenamePaths(form: Values): Option<(string, string)> {
    var path, name := Normalize(FormValue(form, "path")), BasenameOf(FormValue(form, "name"));
    if Refused(path) || path == "/" || ProtectedName(name) then None
    else Some((path, JoinName(ParentOf(path), name)))
  }

  /** `/move`: the old path and its new path. */
  function MovePaths(form: Values): Option<(string, string)> {
    var path, dir := Normalize(FormValue(form, "path")), Normalize(FormValue(form, "dest"));
    if Refused(path) || path == "/" || Refused(dir) then None
    else Some((path, JoinName(dir, BasenameOf(path))))
  }

  /** What an upload hands over: the file's path, under exactly the names its directory walks through,
      and before it the directory itself. Refused exactly when a name is protected. */
  ghost predicate UploadDelivers(query: Values, filename: string) {
    var param := if "path" in query then query["path"] else "/";
    var names, r := NamesOf(param), UploadPath(query, filename);
    && (r.Some? <==> !ProtectedName(filename) && Unprotected(names))
    && (r.Some? ==> Delivers(r.value, names + [filename]))
    && (r.Some? ==> Normalize(param) == "/" || Delivers(Normalize(param), names))
  }

  lemma UploadIsSafe(query: Values, filename: string)
    requires Free(filename, '/')
    ensures UploadDelivers(query, filename)
  {
    hide Delivers;
    var param := if "path" in query then query["path"] else "/";
    AdmittedDirectory(param);
    if UploadPath(query, filename).Some? {
      JoinIsSafe(NamesOf(param), filename);
      if NamesOf(param) != [] {
        DeliversExactly(NamesOf(param));
      }
    }
  }

  lemma MkdirIsSafe(form: Values)
    ensures var names, name := NamesOf(FormValue(form, "path")), BasenameOf(FormValue(form, "name"));
      var r := MkdirPath(form);
      && (r.Some? <==> !ProtectedName(name) && Unprotected(names))
      && (r.Some? ==> Delivers(r.value, names + [name]))
  {
    hide Delivers;
    var param := if FormValue(form, "path") == "" then "/" else FormValue(form, "path");
    AdmittedDirectory(param);
    RootParam();
    if MkdirPath(form).Some? {
      JoinIsSafe(NamesOf(param), BasenameOf(FormValue(form, "name")));
    }
  }

  lemma RootParam()
    ensures NamesOf("/") == [] == NamesOf("")
  {
    assert Decode("/") == "/" + Decode("/"[1..]);
    NamesOfName("");
    NamesAfterSlash("");
    assert "/" + "" == "/";
  }

  /** Both paths are handed over, made of the given names. */
  ghost predicate SafePair(paths: (string, string), from: seq<string>, to: seq<string>) {
    Delivers(paths.0, from) && Delivers(paths.1, to)
  }

  function WithLast(names: seq<string>, name: string): seq<string> {
    if names == [] then [name] else names[..|names| - 1] + [name]
  }

  lemma RenamedIsSafe(names: seq<string>, name: string)
    requires AllNames(names) && names != [] && Unprotected(names)
    requires Name(name) && !ProtectedName(name)
    ensures var path := Canonical(names);
      SafePair((path, JoinName(ParentOf(path), name)), names, WithLast(names, name))
  {
    var init, last := names[..|names| - 1], names[|names| - 1];
    assert init + [last] == names;
    hide Delivers;
    BasenameAndParent(init, last);
    JoinIsSafe(init, name);
    DeliversExactly(names);
  }

  lemma MovedIsSafe(names: seq<string>, into: seq<string>)
    requires AllNames(names) && names != [] && Unprotected(names)
    requires AllNames(into) && Unprotected(into)
    ensures var path := Canonical(names);
      SafePair((path, JoinName(Canonical(into), BasenameOf(path))), names, into + [names[|names| - 1]])
  {
    var init, last := names[..|names| - 1], names[|names| - 1];
    assert init + [last] == names;
    hide Delivers;
    BasenameAndParent(init, last);
    JoinIsSafe(into, last);
    DeliversExactly(names);
  }

  /** Refused unless `allowed`; otherwise two paths made of the given names are handed over. */
  ghost predicate Outcome(r: Option<(string, string)>, allowed: bool, from: seq<string>, to: seq<string>) {
    match r
    case None => !allowed
    case Some(paths) => allowed && SafePair(paths, from, to)
  }

  /** A rename is refused exactly for the root and for protected names; it replaces the last name only. */
  lemma RenameIsSafe(form: Values, names: seq<string>, name: string)
    requires names == NamesOf(FormValue(form, "path")) && name == BasenameOf(FormValue(form, "name"))
    ensures Outcome(RenamePaths(form), names != [] && Unprotected(names) && !ProtectedName(name),
                    names, WithLast(names, name))
  {
    AdmittedDirectory(FormValue(form, "path"));
    if RenamePaths(form).Some? {
      RenamedIsSafe(names, name);
    }
  }

  /** A move keeps the last name and changes the directory. */
  lemma MoveIsSafe(form: Values, names: seq<string>, into: seq<string>)
    requires names == NamesOf(FormValue(form, "path")) && into == NamesOf(FormValue(form, "dest"))
    ensures Outcome(MovePaths(form), names != [] && Unprotected(names) && Unprotected(into),
                    names, if names == [] then into else into + [names[|names| - 1]])
  {
    AdmittedDirectory(FormValue(form, "path"));
    AdmittedDirectory(FormValue(form, "dest"));
    if MovePaths(form).Some? {
      MovedIsSafe(names, into);
    }
  }

  /** Text that stands for itself in a form. */
  predicate Literal(s: string) {
    forall i :: 0 <= i < |s| ==> s[i] !in "%+&="
  }

  lemma {:induction false} LiteralThen(s: string, e: string, t: string)
    requires Literal(s) && Encodes(e, t)
    ensures Encodes(s + e, s + t)
  {
    if s == "" {
      assert s + e == e && s + t == t;
    } else {
      assert (s + e)[1..] == s[1..] + e && (s + t)[1..] == s[1..] + t;
      LiteralThen(s[1..], e, t);
    }
  }

  lemma NulIsEscaped()
    ensures Encodes("%00", [NUL])
  {
    assert "%00"[3..] == "" && [NUL][1..] == "";
  }

  /** The rename form of a name with an escaped NUL behind it. */
  lemma NulForm(n: string)
    requires Literal(n)
    ensures Query.Parse("path=/" + n + "%00&name=a") == map["path" := "/" + n + [NUL], "name" := "a"]
  {
    hide Encodes;
    NulIsEscaped();
    LiteralThen("/" + n, "%00", [NUL]);
    EncodesNothing();
    LiteralThen("path", "", "");
    LiteralThen("name", "", "");
    LiteralThen("a", "", "");
    assert "path" + "" == "path" && "name" + "" == "name" && "a" + "" == "a";
    var entries := [Entry("path", "/" + n + [NUL], "path", "/" + n + "%00"), Entry("name", "a", "name", "a")];
    NulFormText(n, entries);
    ParseUndoesForm(entries, map[]);
    TwoAssigned(entries);
  }

  lemma EncodesNothing()
    ensures Encodes("", "")
  {
  }

  lemma NulFormText(n: string, entries: seq<Entry>)
    requires |entries| == 2
    requires entries[0].Text() == "path=" + ("/" + n + "%00") && entries[1].Text() == "name=a"
    ensures Form(entries) == "path=/" + n + "%00&name=a"
  {
    assert Form(entries[1..]) == "name=a";
    assert Form(entries) == "path=" + ("/" + n + "%00") + "&" + "name=a";
  }

  lemma TwoAssigned(entries: seq<Entry>)
    requires |entries| == 2
    ensures Assigned(entries, map[]) == map[entries[0].key := entries[0].value][entries[1].key := entries[1].value]
  {
    var first := map[entries[0].key := entries[0].value];
    assert entries[1..][1..] == [] && entries[1..][0] == entries[1];
    assert Assigned(entries, map[]) == Assigned(entries[1..], first);
    assert Assigned(entries[1..], first) == Assigned([], first[entries[1].key := entries[1].value]);
  }

  lemma TopLevelPath(name: string)
    requires Name(name) && Literal(name) && !ProtectedName(name)
    ensures Normalize("/" + name) == "/" + name && !Refused("/" + name)
    ensures ParentOf("/" + name) == "/"
  {
    hide Decode, Spell, Split, Names, ProtectedName, LastSlash, ProtectedPath, ParentOf, JoinName, Free;
    PlainPath(name);
    assert NamesOf("/" + name) == [name];
    AdmittedDirectory("/" + name);
    SpellOne(name);
    assert [] + [name] == [name];
    BasenameAndParent([], name);
    assert Unprotected([name]);
  }

  /** A rename of a top-level name to `a`. */
  lemma TopLevelRename(form: Values, name: string)
    requires FormValue(form, "path") == "/" + name && FormValue(form, "name") == "a"
    requires Name(name) && Literal(name) && !ProtectedName(name)
    ensures RenamePaths(form) == Some(("/" + name, "/a"))
  {
    hide Normalize, FormValue, ProtectedName, Refused, ParentOf, BasenameOf, Free;
    TopLevelPath(name);
    OrdinaryA();
    PlainBasename("a");
    assert ("/" + name)[1..] == name;
    assert "/" + "a" == "/a";
  }

  lemma OrdinaryA()
    ensures !ProtectedName("a") && Free("a", '/')
  {
  }

  lemma PlainBasename(n: string)
    requires Free(n, '/')
    ensures BasenameOf(n) == n
  {
  }

  lemma SpellOne(n: string)
    ensures Canonical([n]) == "/" + n
  {
    SpellCons(n, []);
    assert [n] + [] == [n] && "/" + n + "" == "/" + n;
  }

  /** A request that gets past the guard: the name holds a NUL, so it is not the protected one, and the
      storage is asked to rename the protected one. */
  lemma NulReaches(n: string)
    requires Literal(n) && Name(n) && Free(n, NUL) && n[0] != '.'
    ensures var r := RenamePaths(Query.Parse("path=/" + n + "%00&name=a"));
      r == Some(("/" + n + [NUL], "/a")) && CString(r.value.0) == "/" + n
    ensures ProtectedName(n) ==> ProtectedPath("/" + n)
  {
    hide RenamePaths, Split, Query.Parse;
    var name := n + [NUL];
    NulForm(n);
    assert "/" + name == "/" + n + [NUL];
    assert name[|n|] == NUL;
    TopLevelRename(Query.Parse("path=/" + n + "%00&name=a"), name);
    CStringConcat("/" + n, [NUL]);
    assert "/" + n + "" == "/" + n;
    PlainPath(n);
    assert n in Names("/" + n);
  }

  lemma PlainPath(n: string)
    requires Name(n) && Literal(n)
    ensures Names("/" + n) == [n] && Decode("/" + n) == "/" + n
  {
    EncodesNothing();
    LiteralThen("/" + n, "", "");
    assert "/" + n + "" == "/" + n;
    DecodeUndoesEncode("/" + n, "/" + n);
    NamesAfterSlash(n);
    NamesOfName(n);
  }

  /** The storage renames `/XTCache`, which every handler refuses by name. */
  lemma NulReachesProtected()
    ensures var r := RenamePaths(Query.Parse("path=/XTCache%00&name=a"));
      r == Some(("/XTCache\0", "/a")) && CString(r.value.0) == "/XTCache" && ProtectedPath("/XTCache")
  {
    hide RenamePaths, Query.Parse, CString, ProtectedPath;
    NulReaches("XTCache");
    assert "path=/" + "XTCache" + "%00&name=a" == "path=/XTCache%00&name=a";
    assert "/" + "XTCache" == "/XTCache" && "/XTCache" + [NUL] == "/XTCache\0";
  }
}
