/** The multipart/form-data printer the parser undoes (sections 4.1 and 4.2 of RFC 7578,
    section 5.1.1 of RFC 2046), and exactly when it does. */
module MultipartPrinter {
  import opened Text
  import opened Paths
  import opened Multipart

  function Disposition(): string {
    "Content-Disposition: form-data; name="
  }

  const FILENAME := "filename="
  const CONTENT_TYPE := "\r\nContent-Type: "

  /** One form field: its name, a filename when it is a file, an optional content type, its bytes. */
  datatype Part = Part(name: string, filename: Option<string>, ctype: Option<string>, content: string) {
    function TypeLine(): string {
      match ctype
      case None => ""
      case Some(t) => CONTENT_TYPE + t
    }

    function Head(): string {
      Disposition() + QUOTE + name + QUOTE
      + (match filename case None => "" case Some(f) => "; " + FILENAME + QUOTE + f + QUOTE)
      + TypeLine()
    }
  }

  function Delimiter(b: string): string {
    CRLF + "--" + b
  }

  /** A part, from the line end after its boundary to the delimiter that closes it. */
  function PrintPart(p: Part, b: string): string {
    CRLF + p.Head() + BLANK_LINE + p.content + Delimiter(b)
  }

  function PrintParts(parts: seq<Part>, b: string): string {
    if parts == [] then "" else PrintPart(parts[0], b) + PrintParts(parts[1..], b)
  }

  /** A body: the opening boundary, the parts, and anything after the last delimiter. */
  function Print(parts: seq<Part>, b: string, tail: string): string {
    "--" + b + PrintParts(parts, b) + tail
  }

  function ContentType(b: string): string {
    "multipart/form-data; boundary=" + b
  }

  /** Field names are header text without a carriage return or a quote, content types header text
      without a carriage return, quotes and all; a field's type line does not spell the marker, and
      no content holds the delimiter. */
  ghost predicate Printable(p: Part, b: string) {
    && Free(p.name, '\r') && Free(p.name, '"')
    && (p.ctype.Some? ==> Free(p.ctype.value, '\r'))
    && (p.filename == None ==> !Contains(p.TypeLine(), MARKER))
    && (p.filename.Some? ==> Free(p.filename.value, '"') && Free(p.filename.value, '/'))
    && !Contains(p.content, Delimiter(b))
  }

  // --- the marker, quote by quote ---

  /** A match of the marker ends at a quote, and the text before that quote ends with `filename=`. */
  lemma MarkerEndsAtQuote(s: string, rest: string, j: int)
    requires Free(s, '"')
    ensures j + 9 <= |s| ==> (At(s + QUOTE + rest, MARKER, j) <==> j + 9 == |s| && Ends(s, FILENAME))
    ensures |s| < j + 9 && j <= |s| ==> !At(s + QUOTE + rest, MARKER, j)
  {
    var t := s + QUOTE + rest;
    assert t[|s|] == '"';
    MatchReads(t, MARKER, j, 9);
    MatchReads(t, MARKER, j, |s| - j);
    if 0 <= j && j + 9 == |s| {
      assert t[j..j + 10] == s[j..] + QUOTE;
      assert s[j..j + 9] == s[j..];
      if t[j..j + 10] == MARKER {
        assert s[j..] == MARKER[..9];
      }
    }
  }

  /** The first marker in text cut at its first quote. */
  lemma MarkerAtFirstQuote(s: string, rest: string)
    requires Free(s, '"')
    ensures Find(s + QUOTE + rest, MARKER) ==
      if Ends(s, FILENAME) then Some(|s| - 9) else Shift(Find(rest, MARKER), |s| + 1)
  {
    hide FindFrom, At;
    var t := s + QUOTE + rest;
    if Ends(s, FILENAME) {
      forall j | 0 <= j <= |s| - 9 ensures At(t, MARKER, j) <==> j + 9 == |s| {
        MarkerEndsAtQuote(s, rest, j);
      }
      EndsFits(s, FILENAME);
      FirstMatch(t, MARKER, |s| - 9);
    } else {
      forall j | 0 <= j < |s| + 1 ensures !At(t, MARKER, j) {
        MarkerEndsAtQuote(s, rest, j);
      }
      SkipPrefix(s + QUOTE, rest, MARKER);
    }
  }

  lemma EndsFits(s: string, p: string)
    ensures Ends(s, p) ==> |p| <= |s|
  {
  }

  lemma FirstQuote(f: string, rest: string)
    requires Free(f, '"')
    ensures Find(f + QUOTE + rest, QUOTE) == Some(|f|)
  {
    NotContained(f, QUOTE, '"');
    DelimiterFound(f, QUOTE, rest);
  }

  lemma NoQuote(f: string)
    requires Free(f, '"')
    ensures Find(f, QUOTE) == None
  {
    NotContained(f, QUOTE, '"');
    NoMatch(f, QUOTE);
  }

  // --- one part ---

  /** The headers of a field up to the quote that closes its name. */
  function FieldOpening(name: string): string {
    Disposition() + QUOTE + name + QUOTE
  }

  /** The headers of a file up to the quote that opens its filename. */
  function Opening(name: string): string {
    FieldOpening(name) + ("; " + FILENAME + QUOTE)
  }

  lemma HeadShape(p: Part, rest: string)
    ensures p.filename == None ==> p.Head() + rest == FieldOpening(p.name) + (p.TypeLine() + rest)
    ensures p.filename.Some? ==>
      p.Head() + rest == Opening(p.name) + (p.filename.value + ['"'] + (p.TypeLine() + rest))
  {
    var sep := "; " + FILENAME + QUOTE;
    match p.filename {
      case None =>
        assert p.Head() == FieldOpening(p.name) + "" + p.TypeLine();
        assert FieldOpening(p.name) + "" == FieldOpening(p.name);
      case Some(f) =>
        assert p.Head() == FieldOpening(p.name) + (sep + f + QUOTE) + p.TypeLine();
        Regroup(FieldOpening(p.name), sep, f, p.TypeLine(), rest);
    }
  }

  lemma Regroup(a: string, sep: string, f: string, line: string, rest: string)
    ensures a + (sep + f + QUOTE) + line + rest == a + sep + (f + ['"'] + (line + rest))
  {
  }

  lemma OpeningsHaveNoBreak(name: string)
    requires Free(name, '\r')
    ensures Free(FieldOpening(name), '\r') && Free(Opening(name), '\r')
  {
    hide Free, Disposition;
    LiteralsHaveNoBreak();
    FreeConcat(Disposition(), QUOTE, '\r');
    FreeConcat(Disposition() + QUOTE, name, '\r');
    FreeConcat(Disposition() + QUOTE + name, QUOTE, '\r');
    FreeConcat(FieldOpening(name), "; " + FILENAME + QUOTE, '\r');
  }

  lemma LiteralsHaveNoBreak()
    ensures Free(Disposition(), '\r') && Free(QUOTE, '\r') && Free("; " + FILENAME + QUOTE, '\r')
  {
  }

  lemma DispositionIsNoFilename()
    ensures !Ends(Disposition(), FILENAME) && Free(Disposition(), '"')
  {
    MatchReads(Disposition(), FILENAME, |Disposition()| - 9, 0);
  }

  /** What is found in the headers after the name's closing quote, and what the name itself adds. */
  lemma MarkerAfterName(name: string, rest: string)
    requires Free(name, '"')
    ensures Find(FieldOpening(name) + rest, MARKER) ==
      if Ends(name, FILENAME) then Some(|FieldOpening(name)| - 10)
      else Shift(Find(rest, MARKER), |FieldOpening(name)|)
  {
    hide FindFrom, At, Disposition;
    assert FieldOpening(name) + rest == Disposition() + QUOTE + (name + QUOTE + rest);
    DispositionIsNoFilename();
    MarkerAtFirstQuote(Disposition(), name + QUOTE + rest);
    MarkerAtFirstQuote(name, rest);
    EndsFits(name, FILENAME);
  }

  /** The filename the parser reads is what lies between the marker and the next quote. */
  lemma FilenameAfterMarker(a: string, value: string)
    requires |a| >= 10 && Find(a + value, MARKER) == Some(|a| - 10)
    ensures FilenameIn(a + value) ==
      match Find(value, QUOTE)
      case None => Some(None)
      case Some(e) => Some(Some(BasenameOf(value[..e])))
  {
    hide FindFrom, At, BasenameOf;
    assert (a + value)[|a|..] == value;
  }

  /** A field's headers hold a filename only when its name runs into the closing quote as `filename="`;
      the filename is then the type line up to its first quote, or not closed at all. */
  lemma FieldHead(name: string, line: string)
    requires Free(name, '"') && !Contains(line, MARKER)
    ensures FilenameIn(FieldOpening(name) + line) ==
      if !Ends(name, FILENAME) then None
      else match Find(line, QUOTE)
        case None => Some(None)
        case Some(e) => Some(Some(BasenameOf(line[..e])))
  {
    hide FindFrom, At, Disposition, BasenameOf, Contains;
    MarkerAfterName(name, line);
    NoMatch(line, MARKER);
    if Ends(name, FILENAME) {
      EndsFits(name, FILENAME);
      FilenameAfterMarker(FieldOpening(name), line);
    }
  }

  /** What the parser reads as the filename when `rest` follows the opening. */
  lemma FileHead(name: string, rest: string)
    requires Free(name, '"')
    ensures FilenameIn(Opening(name) + rest) ==
      if Ends(name, FILENAME) then Some(Some("; " + FILENAME))
      else match Find(rest, QUOTE)
        case None => Some(None)
        case Some(e) => Some(Some(BasenameOf(rest[..e])))
  {
    hide FindFrom, At, Disposition, BasenameOf, FilenameIn;
    var open, sep := FieldOpening(name), "; " + FILENAME;
    var value := sep + QUOTE + rest;
    assert Opening(name) + rest == open + value;
    MarkerAfterName(name, value);
    if Ends(name, FILENAME) {
      EndsFits(name, FILENAME);
      FilenameAfterMarker(open, value);
      FirstQuote(sep, rest);
      assert value[..|sep|] == sep;
      PlainBasename(sep);
    } else {
      SeparatorEnds();
      MarkerAtFirstQuote(sep, rest);
      FilenameAfterMarker(Opening(name), rest);
    }
  }

  lemma SeparatorEnds()
    ensures Ends("; " + FILENAME, FILENAME)
  {
    assert ("; " + FILENAME)[2..] == FILENAME;
  }

  /** After the last closing quote the next blank line is the one that ends the headers. */
  lemma LineThenBlank(p: Part, b: string, rest: string)
    requires Printable(p, b)
    ensures Find(p.TypeLine() + (BLANK_LINE + rest), BLANK_LINE) == Some(|p.TypeLine()|)
  {
    hide FindFrom, At, Contains, Free;
    BlankAtOnce(rest);
    match p.ctype {
      case None => assert p.TypeLine() + (BLANK_LINE + rest) == BLANK_LINE + rest;
      case Some(t) =>
        var tail := "ontent-Type: " + t;
        TypeLineTail(t);
        TypeThenBlank(tail, BLANK_LINE + rest);
    }
  }

  lemma TypeLineTail(t: string)
    requires Free(t, '\r')
    ensures CONTENT_TYPE + t == CRLF + ['C'] + ("ontent-Type: " + t)
    ensures Free("ontent-Type: " + t, '\r')
  {
    FreeConcat("ontent-Type: ", t, '\r');
  }

  lemma TypeThenBlank(tail: string, rest: string)
    requires Free(tail, '\r') && Find(rest, BLANK_LINE) == Some(0)
    ensures Find(CRLF + ['C'] + tail + rest, BLANK_LINE) == Some(3 + |tail|)
  {
    hide FindFrom, At;
    assert CRLF + ['C'] + tail + rest == CRLF + ['C'] + (tail + rest);
    ShortHasNoBlank();
    SkipOver(CRLF, 'C', tail + rest, BLANK_LINE);
    SkipFree(tail, rest, BLANK_LINE);
  }

  lemma BlankAtOnce(rest: string)
    ensures Find(BLANK_LINE + rest, BLANK_LINE) == Some(0)
  {
    assert (BLANK_LINE + rest)[0..4] == BLANK_LINE;
    FirstMatch(BLANK_LINE + rest, BLANK_LINE, 0);
  }

  lemma ShortHasNoBlank()
    ensures !Contains(CRLF, BLANK_LINE)
  {
  }

  /** Where the parser ends a field's headers: at their end. */
  lemma FieldHeadersEnd(p: Part, b: string, rest: string)
    requires Printable(p, b) && p.filename == None
    ensures Find(p.Head() + (BLANK_LINE + rest), BLANK_LINE) == Some(|p.Head()|)
  {
    hide FindFrom, At, FieldOpening;
    HeadShape(p, BLANK_LINE + rest);
    HeadShape(p, "");
    OpeningsHaveNoBreak(p.name);
    LineThenBlank(p, b, rest);
    SkipFree(FieldOpening(p.name), p.TypeLine() + (BLANK_LINE + rest), BLANK_LINE);
  }

  lemma FileOpeningSkipped(p: Part, rest: string)
    requires p.filename.Some? && Free(p.name, '\r')
    ensures var t := p.TypeLine() + (BLANK_LINE + rest);
      Find(p.Head() + (BLANK_LINE + rest), BLANK_LINE)
        == Shift(Find(p.filename.value + ['"'] + t, BLANK_LINE), |Opening(p.name)|)
  {
    hide FindFrom, At, Find, Opening, Contains;
    HeadShape(p, BLANK_LINE + rest);
    OpeningsHaveNoBreak(p.name);
    SkipFree(Opening(p.name), p.filename.value + ['"'] + (p.TypeLine() + (BLANK_LINE + rest)), BLANK_LINE);
  }

  lemma HeadLength(p: Part)
    requires p.filename.Some?
    ensures |p.Head()| == |Opening(p.name)| + |p.filename.value| + 1 + |p.TypeLine()|
  {
  }

  /** Where the parser ends a file's headers when the filename holds no blank line: at their end. */
  lemma FileHeadersEnd(p: Part, b: string, rest: string)
    requires Printable(p, b) && p.filename.Some? && !Contains(p.filename.value, BLANK_LINE)
    ensures Find(p.Head() + (BLANK_LINE + rest), BLANK_LINE) == Some(|p.Head()|)
  {
    hide FindFrom, At, Find, Opening, Contains;
    FileOpeningSkipped(p, rest);
    LineThenBlank(p, b, rest);
    SkipOver(p.filename.value, '"', p.TypeLine() + (BLANK_LINE + rest), BLANK_LINE);
    HeadLength(p);
  }

  /** And when it does hold one: at that blank line. */
  lemma FileHeadersCut(p: Part, b: string, rest: string)
    requires Printable(p, b) && p.filename.Some? && Contains(p.filename.value, BLANK_LINE)
    ensures Find(p.filename.value, BLANK_LINE).Some?
    ensures Find(p.Head() + (BLANK_LINE + rest), BLANK_LINE)
         == Some(|Opening(p.name)| + Find(p.filename.value, BLANK_LINE).value)
  {
    hide FindFrom, At, Find, Opening, Contains;
    var f, t := p.filename.value, p.TypeLine() + (BLANK_LINE + rest);
    FileOpeningSkipped(p, rest);
    FindInside(f, ['"'] + t, BLANK_LINE);
    assert f + ['"'] + t == f + (['"'] + t);
  }
}
