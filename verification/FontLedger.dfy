/** The seeded-family ledger as text (ios/CrossPointFsPrep.cpp). */
module FontLedger {
  import opened Text

  /** The header the writer emits; the reader skips it as comments. */
  function Comments(): seq<string> {
    ["# Families this app has seeded" + " onto this card. A bundled family",
     "# listed here but absent from" + " fonts/ was deleted deliberately and",
     "# is NOT re-seeded. Delete a line" + " to have that family come back on",
     "# the next launch."]
  }

  function Header(): string {
    PrintLines(Comments())
  }

  function PrintLines(names: seq<string>): string {
    if names == [] then "" else names[0] + "\n" + PrintLines(names[1..])
  }

  function Print(names: seq<string>): string {
    Header() + PrintLines(names)
  }

  /** `getline` until the end: a last piece without a newline is a line only when it is not empty. */
  function Lines(s: string): seq<string>
    decreases |s|
  {
    if s == "" then []
    else match Find(s, "\n")
      case None => [s]
      case Some(k) => [s[..k]] + Lines(s[k + 1..])
  }

  /** Trailing carriage returns (and newlines) dropped. */
  function Stripped(line: string): string {
    if line != "" && line[|line| - 1] in "\r\n" then Stripped(line[..|line| - 1]) else line
  }

  function NameOn(line: string): seq<string> {
    var s := Stripped(line);
    if s == "" || s[0] == '#' then [] else [s]
  }

  function NamesOn(lines: seq<string>): seq<string> {
    if lines == [] then [] else NameOn(lines[0]) + NamesOn(lines[1..])
  }

  function Parse(text: string): seq<string> {
    NamesOn(Lines(text))
  }

  method ReadSeedLedger(file: Option<string>) returns (names: seq<string>)
    ensures names == match file case None => [] case Some(text) => Parse(text)
  {
    names := [];
    if file == None {
      return;
    }
    var rest := file.value;
    while rest != ""
      invariant names + Parse(rest) == Parse(file.value)
      decreases |rest|
    {
      var line;
      line, rest := FirstLine(rest, names);
      while line != "" && line[|line| - 1] in "\r\n"
        invariant names + NameOn(line) + Parse(rest) == Parse(file.value)
        decreases |line|
      {
        line := line[..|line| - 1];
      }
      if line == "" || line[0] == '#' {
        continue;
      }
      names := names + [line];
    }
  }

  method FirstLine(text: string, ghost names: seq<string>) returns (line: string, rest: string)
    requires text != ""
    ensures |rest| < |text|
    ensures names + Parse(text) == names + NameOn(line) + Parse(rest)
  {
    var end := Find(text, "\n");
    if end.None? {
      line, rest := text, "";
      assert [text][1..] == [];
    } else {
      line, rest := text[..end.value], text[end.value + 1..];
      assert ([line] + Lines(rest))[1..] == Lines(rest);
    }
    assert Parse(text) == NameOn(line) + Parse(rest);
  }

  method WriteSeedLedger(names: seq<string>) returns (text: string)
    ensures text == Print(names)
  {
    text := Header();
    for i := 0 to |names|
      invariant text + PrintLines(names[i..]) == Print(names)
    {
      assert names[i..][1..] == names[i + 1..];
      text := text + names[i] + "\n";
    }
  }

  /** A name that survives being a line: not empty, not a comment, no newline, no trailing return. */
  predicate Plain(n: string) {
    n != "" && n[0] != '#' && Free(n, '\n') && n[|n| - 1] != '\r'
  }

  predicate AllPlain(names: seq<string>) {
    forall i :: 0 <= i < |names| ==> Plain(names[i])
  }

  lemma {:induction false} StripKeeps(line: string)
    ensures var s := Stripped(line);
      && (s != "" ==> s[|s| - 1] != '\r' && s[|s| - 1] != '\n')
      && s <= line
    decreases |line|
  {
    if line != "" && line[|line| - 1] in "\r\n" {
      StripKeeps(line[..|line| - 1]);
    }
  }

  lemma {:induction false} LinesAreFree(s: string)
    ensures forall i :: 0 <= i < |Lines(s)| ==> Free(Lines(s)[i], '\n')
    decreases |s|
  {
    if s != "" {
      FindIsFirst(s, "\n", 0);
      match Find(s, "\n") {
        case None => BeforeNewline(s, |s|);
        case Some(k) =>
          BeforeNewline(s, k);
          LinesAreFree(s[k + 1..]);
      }
    }
  }

  lemma BeforeNewline(s: string, k: nat)
    requires k <= |s| && forall j :: 0 <= j < k ==> !At(s, "\n", j)
    ensures Free(s[..k], '\n')
  {
    forall j | 0 <= j < k ensures s[j] != '\n' {
      assert s[j..j + 1] == [s[j]];
      assert !At(s, "\n", j);
    }
  }

  lemma {:induction false} NamesArePlain(lines: seq<string>)
    requires forall i :: 0 <= i < |lines| ==> Free(lines[i], '\n')
    ensures AllPlain(NamesOn(lines))
  {
    if lines != [] {
      StripKeeps(lines[0]);
      NamesArePlain(lines[1..]);
    }
  }

  /** Whatever the text, what is read is plain. */
  lemma ParseIsPlain(text: string)
    ensures AllPlain(Parse(text))
  {
    LinesAreFree(text);
    NamesArePlain(Lines(text));
  }

  lemma LineFirst(n: string, rest: string)
    requires Free(n, '\n')
    ensures Lines(n + "\n" + rest) == [n] + Lines(rest)
  {
    NotContained(n, "\n", '\n');
    DelimiterFound(n, "\n", rest);
    var s := n + "\n" + rest;
    assert s[..|n|] == n && s[|n| + 1..] == rest;
  }

  lemma {:induction false} NamesOnConcat(a: seq<string>, b: seq<string>)
    ensures NamesOn(a + b) == NamesOn(a) + NamesOn(b)
  {
    if a == [] {
      assert a + b == b;
    } else {
      assert (a + b)[1..] == a[1..] + b;
      NamesOnConcat(a[1..], b);
    }
  }

  lemma NoLines()
    ensures Lines("") == []
  {
  }

  lemma {:induction false} LinesSplit(a: string, b: string)
    ensures Lines(a + "\n" + b) == Lines(a + "\n") + Lines(b)
    decreases |a|
  {
    hide FindFrom, At, Find, Lines, Free;
    var k := FirstBreak(a);
    var n := a[..k];
    if k == |a| {
      assert n == a;
      LineFirst(a, b);
      LineFirst(a, "");
      NoLines();
      assert a + "\n" + "" == a + "\n";
    } else {
      var t := a[k + 1..];
      assert a == n + "\n" + t;
      LineFirst(n, t + "\n" + b);
      LineFirst(n, t + "\n");
      assert a + "\n" + b == n + "\n" + (t + "\n" + b);
      assert a + "\n" == n + "\n" + (t + "\n");
      LinesSplit(t, b);
      assert [n] + (Lines(t + "\n") + Lines(b)) == [n] + Lines(t + "\n") + Lines(b);
    }
  }

  function FirstBreak(s: string): (k: nat)
    ensures k <= |s| && Free(s[..k], '\n') && (k < |s| ==> s[k] == '\n')
  {
    if s == "" || s[0] == '\n' then 0 else 1 + FirstBreak(s[1..])
  }

  /** The names read back from the printed lines, name by name: a plain one gives itself. */
  lemma PrintedName(n: string, rest: seq<string>)
    ensures Parse(PrintLines([n] + rest)) == Parse(n + "\n") + Parse(PrintLines(rest))
    ensures Plain(n) ==> Parse(n + "\n") == [n]
  {
    assert ([n] + rest)[1..] == rest;
    LinesSplit(n, PrintLines(rest));
    NamesOnConcat(Lines(n + "\n"), Lines(PrintLines(rest)));
    if Plain(n) {
      LineFirst(n, "");
      assert n + "\n" + "" == n + "\n";
      assert NamesOn([n]) == NameOn(n) + NamesOn([n][1..]);
    }
  }

  predicate Comment(line: string) {
    line != "" && line[0] == '#' && Free(line, '\n') && line[|line| - 1] != '\r'
  }

  lemma CommentIs(a: string, b: string)
    requires Comment(a) && b != "" && Free(b, '\n') && b[|b| - 1] != '\r'
    ensures Comment(a + b)
  {
  }

  lemma CommentsAreComments()
    ensures forall i :: 0 <= i < |Comments()| ==> Comment(Comments()[i])
  {
    CommentIs("# Families this app has seeded", " onto this card. A bundled family");
    CommentIs("# listed here but absent from", " fonts/ was deleted deliberately and");
    CommentIs("# is NOT re-seeded. Delete a line", " to have that family come back on");
  }

  lemma CommentSkipped(line: string, rest: string)
    requires Comment(line)
    ensures Parse(line + "\n" + rest) == Parse(rest)
  {
    LineFirst(line, rest);
    assert ([line] + Lines(rest))[1..] == Lines(rest);
  }

  lemma {:induction false} CommentsSkipped(lines: seq<string>, text: string)
    requires forall i :: 0 <= i < |lines| ==> Comment(lines[i])
    ensures Parse(PrintLines(lines) + text) == Parse(text)
  {
    if lines == [] {
      assert "" + text == text;
    } else {
      var rest := PrintLines(lines[1..]) + text;
      assert PrintLines(lines) + text == lines[0] + "\n" + rest;
      CommentSkipped(lines[0], rest);
      CommentsSkipped(lines[1..], text);
    }
  }

  lemma HeaderIsSkipped(text: string)
    ensures Parse(Header() + text) == Parse(text)
  {
    hide Comments;
    CommentsAreComments();
    CommentsSkipped(Comments(), text);
  }

  lemma {:induction false} PrintedNames(names: seq<string>)
    ensures AllPlain(names) ==> Parse(PrintLines(names)) == names
    ensures forall i :: 0 <= i < |names| && Plain(names[i]) ==> names[i] in Parse(PrintLines(names))
  {
    if names != [] {
      assert names == [names[0]] + names[1..];
      PrintedName(names[0], names[1..]);
      PrintedNames(names[1..]);
    }
  }

  /** What is read back is what the names' lines say, each by itself. */
  lemma {:induction false} NamesSpellTheirLines(names: seq<string>, f: string)
    ensures f in Parse(PrintLines(names)) <==> exists n :: n in names && f in Parse(n + "\n")
  {
    hide Lines, NamesOn;
    if names == [] {
      ParseNothing();
    } else {
      assert names == [names[0]] + names[1..];
      PrintedName(names[0], names[1..]);
      NamesSpellTheirLines(names[1..], f);
    }
  }

  lemma ParseNothing()
    ensures Parse("") == []
  {
  }

  /** A name is read back from a ledger exactly when the line of some name in it reads as that name. */
  lemma LedgerReads(names: seq<string>, f: string)
    ensures f in Parse(Print(names)) <==> exists n :: n in names && f in Parse(n + "\n")
  {
    hide Comments, Header, Lines, NamesOn;
    HeaderIsSkipped(PrintLines(names));
    NamesSpellTheirLines(names, f);
  }

  /** A line the owner saved with a carriage return names the same family. */
  lemma CarriageReturnIsDropped(n: string)
    requires Plain(n)
    ensures Parse(n + "\r\n") == [n]
  {
    hide Find;
    LineFirst(n + "\r", "");
    NoLines();
    assert n + "\r" + "\n" + "" == n + "\r\n";
    assert (n + "\r")[..|n + "\r"| - 1] == n;
    assert Stripped(n) == n;
    assert NamesOn([n + "\r"]) == NameOn(n + "\r") + NamesOn([n + "\r"][1..]);
  }

  /** A name with a newline in it is two lines. */
  lemma NewlineNameSpells(a: string, f: string)
    requires Free(a, '\n') && Plain(f)
    ensures f in Parse(a + "\n" + f + "\n")
  {
    hide Lines, NamesOn;
    PrintedName(f, []);
    LinesSplit(a, f + "\n");
    NamesOnConcat(Lines(a + "\n"), Lines(f + "\n"));
    assert a + "\n" + f + "\n" == a + "\n" + (f + "\n");
  }

  /** The ledger comes back from its text exactly when every name in it is plain. */
  lemma LedgerRoundTrip(names: seq<string>)
    ensures Parse(Print(names)) == names <==> AllPlain(names)
  {
    hide Comments, Header, Lines, NamesOn;
    HeaderIsSkipped(PrintLines(names));
    PrintedNames(names);
    ParseIsPlain(Print(names));
  }

  /** A plain name is found again whatever the other names are; a name that is not plain never is. */
  lemma PlainIsFound(names: seq<string>, n: string)
    requires n in names
    ensures n in Parse(Print(names)) <==> Plain(n)
  {
    hide Comments, Header, Lines, NamesOn;
    HeaderIsSkipped(PrintLines(names));
    PrintedNames(names);
    ParseIsPlain(Print(names));
  }
}
