/** Parsing undoes printing: the first file part comes back exactly, and exactly when. */
module MultipartRoundTrip {
  import opened Text
  import opened Paths
  import opened Multipart
  import opened MultipartPrinter

  function Dashed(b: string): string {
    "--" + b
  }

  lemma DelimiterIsBorderless(b: string)
    requires Free(b, '\r')
    ensures Borderless(Delimiter(b)) && Delimiter(b) == CRLF + Dashed(b) && |Delimiter(b)| == |b| + 4
  {
  }

  /** A delimiter is found after its content and nowhere before, because it has no border. */
  lemma ContentEnds(p: Part, b: string, more: string)
    requires Printable(p, b) && Free(b, '\r')
    ensures Find(p.content + (Delimiter(b) + more), CRLF + Dashed(b)) == Some(|p.content|)
  {
    hide FindFrom, At;
    DelimiterIsBorderless(b);
    DelimiterFound(p.content, Delimiter(b), more);
    assert p.content + (Delimiter(b) + more) == p.content + Delimiter(b) + more;
  }

  /** Text that ends at a blank line, and its tail, cut by the parser. */
  lemma BodyOf(head: string, content: string, rest: string, boundary: string)
    requires Find(head + (BLANK_LINE + (content + rest)), BLANK_LINE) == Some(|head|)
    requires Find(content + rest, CRLF + boundary) == Some(|content|)
    ensures Body(head + (BLANK_LINE + (content + rest)), boundary) == Cut(head, content, rest)
  {
    hide FindFrom, At;
    var part := head + (BLANK_LINE + (content + rest));
    assert part[..|head|] == head;
    assert part[|head| + 4..] == content + rest;
    assert (content + rest)[..|content|] == content;
    assert (content + rest)[|content|..] == rest;
  }

  /** The line end after a boundary is stepped over, and it is not the closing pair of dashes. */
  lemma LineEndSkipped(part: string, boundary: string)
    ensures CutAfter(CRLF + part, boundary) == Body(part, boundary)
  {
    hide FindFrom, Body;
    var rest := CRLF + part;
    MatchReads(rest, "--", 0, 0);
    assert rest[0..2] == CRLF;
    assert rest[2..] == part;
  }

  lemma PartShape(p: Part, b: string, more: string)
    ensures PrintPart(p, b) + more == CRLF + (p.Head() + (BLANK_LINE + (p.content + (Delimiter(b) + more))))
  {
    var h := p.Head();
    Nest(CRLF, h, BLANK_LINE, p.content, Delimiter(b), more);
  }

  lemma Nest(a: string, h: string, l: string, c: string, d: string, m: string)
    ensures a + h + l + c + d + m == a + (h + (l + (c + (d + m))))
  {
  }

  /** The delimiter's own dashes are the next boundary found. */
  lemma NextBoundary(b: string, more: string)
    ensures Find(Delimiter(b) + more, Dashed(b)) == Some(2)
    ensures (Delimiter(b) + more)[2 + |Dashed(b)|..] == more
  {
    var s := Delimiter(b) + more;
    assert s == CRLF + Dashed(b) + more;
    assert s[2..2 + |Dashed(b)|] == Dashed(b);
    MatchReads(s, Dashed(b), 0, 0);
    MatchReads(s, Dashed(b), 1, 0);
    FirstMatch(s, Dashed(b), 2);
  }

  /** What a field whose name runs into the marker is taken for: a file named by the type line up to
      its first quote, or nothing. */
  function Misread(p: Part): Option<Upload> {
    match Find(p.TypeLine(), QUOTE)
    case None => None
    case Some(e) => Some(Upload(BasenameOf(p.TypeLine()[..e]), p.content))
  }

  /** A field is stepped over, unless its name runs into the marker: then the parse ends with it. */
  lemma FieldSkipped(p: Part, b: string, more: string)
    requires Printable(p, b) && p.filename == None && Free(b, '\r')
    ensures ParseAfter(PrintPart(p, b) + more, Dashed(b)) ==
      if Ends(p.name, FILENAME) then Misread(p) else ParseAfter(more, Dashed(b))
  {
    hide FindFrom, At, FilenameIn, Delimiter, PrintPart, CutAfter, Body, Dashed, BasenameOf;
    var content, rest := p.content, Delimiter(b) + more;
    PartShape(p, b, more);
    FieldHeadersEnd(p, b, content + rest);
    ContentEnds(p, b, more);
    BodyOf(p.Head(), content, rest, Dashed(b));
    LineEndSkipped(p.Head() + (BLANK_LINE + (content + rest)), Dashed(b));
    HeadShape(p, "");
    assert p.Head() == FieldOpening(p.name) + p.TypeLine();
    FieldHead(p.name, p.TypeLine());
    NextBoundary(b, more);
  }

  /** The part is the file the reader asked for. */
  ghost predicate Readable(p: Part) {
    && p.filename.Some?
    && !Contains(p.filename.value, BLANK_LINE)
    && (Ends(p.name, FILENAME) ==> p.filename.value == "; " + FILENAME)
  }

  /** A file whose filename holds no blank line is cut where it was printed. */
  lemma FileRead(p: Part, b: string, more: string)
    requires Printable(p, b) && p.filename.Some? && Free(b, '\r')
    requires !Contains(p.filename.value, BLANK_LINE)
    ensures ParseAfter(PrintPart(p, b) + more, Dashed(b)) ==
      Some(Upload(if Ends(p.name, FILENAME) then "; " + FILENAME else p.filename.value, p.content))
  {
    hide FindFrom, At, FilenameIn, Delimiter, PrintPart, CutAfter, Body, Dashed, BasenameOf;
    var f, content, rest := p.filename.value, p.content, Delimiter(b) + more;
    PartShape(p, b, more);
    FileHeadersEnd(p, b, content + rest);
    ContentEnds(p, b, more);
    BodyOf(p.Head(), content, rest, Dashed(b));
    LineEndSkipped(p.Head() + (BLANK_LINE + (content + rest)), Dashed(b));
    HeadShape(p, "");
    var value := f + QUOTE + p.TypeLine();
    assert p.Head() == Opening(p.name) + value;
    FileHead(p.name, value);
    FirstQuote(f, p.TypeLine());
    assert value[..|f|] == f;
    PlainBasename(f);
  }

  /** A blank line inside the filename cuts the headers there, and no reading of them gives the file back. */
  lemma FileLost(p: Part, b: string, more: string)
    requires Printable(p, b) && p.filename.Some?
    requires Contains(p.filename.value, BLANK_LINE)
    ensures var r := ParseAfter(PrintPart(p, b) + more, Dashed(b));
      r.Some? ==> r.value.filename != p.filename.value
  {
    hide FindFrom, At, FilenameIn, Delimiter, PrintPart, CutAfter, Dashed, BasenameOf;
    var f, rest := p.filename.value, p.content + (Delimiter(b) + more);
    PartShape(p, b, more);
    FileHeadersCut(p, b, rest);
    var part := p.Head() + (BLANK_LINE + rest);
    LineEndSkipped(part, Dashed(b));
    var k := Find(f, BLANK_LINE).value;
    HeadShape(p, BLANK_LINE + rest);
    assert part[..|Opening(p.name)| + k] == Opening(p.name) + f[..k];
    FileHead(p.name, f[..k]);
    NoQuote(f[..k]);
    SeparatorHasNoBlank(f);
  }

  lemma SeparatorHasNoBlank(f: string)
    requires Contains(f, BLANK_LINE)
    ensures f != "; " + FILENAME
  {
    if Free(f, '\r') {
      NotContained(f, BLANK_LINE, '\r');
    }
  }

  ghost predicate Fields(parts: seq<Part>, b: string) {
    forall i :: 0 <= i < |parts| ==> Printable(parts[i], b) && parts[i].filename == None
  }

  predicate Clear(parts: seq<Part>) {
    forall i :: 0 <= i < |parts| ==> !Ends(parts[i].name, FILENAME)
  }

  /** The parser's answer is the file: no field is in its way and it is readable, or the first field
      in its way happens to be misread as that very file. */
  ghost predicate ComesBack(fields: seq<Part>, file: Part) {
    if fields == [] then Readable(file)
    else if Ends(fields[0].name, FILENAME) then
      file.filename.Some? && Misread(fields[0]) == Some(Upload(file.filename.value, file.content))
    else ComesBack(fields[1..], file)
  }

  predicate Unquoted(fields: seq<Part>) {
    forall i :: 0 <= i < |fields| ==> Free(fields[i].TypeLine(), '"')
  }

  /** Without quotes in the fields' type lines nothing is misread as a file. */
  lemma {:induction false} UnquotedComesBack(fields: seq<Part>, file: Part)
    requires Unquoted(fields)
    ensures ComesBack(fields, file) <==> Clear(fields) && Readable(file)
  {
    hide FindFrom, At, Find, BasenameOf, Readable, Contains;
    if fields != [] {
      NoQuote(fields[0].TypeLine());
      UnquotedComesBack(fields[1..], file);
      assert Clear(fields) <==> !Ends(fields[0].name, FILENAME) && Clear(fields[1..]);
    }
  }

  lemma {:induction false} PartsParse(fields: seq<Part>, file: Part, b: string, tail: string)
    requires Free(b, '\r') && Fields(fields, b) && Printable(file, b) && file.filename.Some?
    ensures ParseAfter(PrintParts(fields + [file], b) + tail, Dashed(b))
         == Some(Upload(file.filename.value, file.content))
      <==> ComesBack(fields, file)
  {
    hide FindFrom, At, FilenameIn, Delimiter, PrintPart, CutAfter, Body, Dashed, ParseAfter, Misread;
    if fields == [] {
      assert ([] + [file])[1..] == [];
      assert PrintParts([] + [file], b) == PrintPart(file, b) + "";
      assert PrintPart(file, b) + "" + tail == PrintPart(file, b) + tail;
      if Contains(file.filename.value, BLANK_LINE) {
        FileLost(file, b, tail);
      } else {
        FileRead(file, b, tail);
      }
    } else {
      var rest := PrintParts(fields[1..] + [file], b);
      assert (fields + [file])[1..] == fields[1..] + [file];
      assert PrintParts(fields + [file], b) + tail == PrintPart(fields[0], b) + (rest + tail);
      FieldSkipped(fields[0], b, rest + tail);
      PartsParse(fields[1..], file, b, tail);
    }
  }

  lemma ClosingStops(tail: string, boundary: string)
    ensures ParseAfter("--" + tail, boundary) == None
  {
    assert ("--" + tail)[0..2] == "--";
  }

  lemma {:induction false} FieldsParse(fields: seq<Part>, b: string, tail: string)
    requires Free(b, '\r') && Fields(fields, b) && Clear(fields)
    ensures ParseAfter(PrintParts(fields, b) + tail, Dashed(b)) == ParseAfter(tail, Dashed(b))
  {
    hide FindFrom, At, FilenameIn, Delimiter, PrintPart, CutAfter, Body, Dashed, ParseAfter, Misread;
    if fields == [] {
      assert "" + tail == tail;
    } else {
      var rest := PrintParts(fields[1..], b);
      assert PrintParts(fields, b) + tail == PrintPart(fields[0], b) + (rest + tail);
      FieldSkipped(fields[0], b, rest + tail);
      FieldsParse(fields[1..], b, tail);
    }
  }

  /** A form closed by its two dashes before any file has none, whatever comes after them. */
  lemma ClosedFormHasNoFile(headers: map<string, string>, fields: seq<Part>, b: string, epilogue: string)
    requires "content-type" in headers && headers["content-type"] == ContentType(b)
    requires Free(b, '\r') && Fields(fields, b) && Clear(fields)
    ensures Parse(headers, Print(fields, b, "--" + epilogue)) == None
  {
    hide FindFrom, At, PrintParts, ParseAfter, Boundary, Misread;
    BoundaryOfHeader(headers, b);
    var rest := PrintParts(fields, b) + ("--" + epilogue);
    assert Print(fields, b, "--" + epilogue) == Dashed(b) + rest;
    AtStart(Dashed(b), rest);
    FieldsParse(fields, b, "--" + epilogue);
    ClosingStops(epilogue, Dashed(b));
  }

  lemma BoundaryOfHeader(headers: map<string, string>, b: string)
    requires "content-type" in headers && headers["content-type"] == ContentType(b)
    ensures Boundary(headers) == Dashed(b)
  {
    hide FindFrom, At;
    var lead, key := "multipart/form-data; ", "boundary=";
    NotContained(lead, key, 'b');
    DelimiterFound(lead, key, b);
    assert ContentType(b) == lead + key + b;
    assert ContentType(b)[|lead| + 9..] == b;
  }

  /** For every CR-free boundary, every list of leading fields, every file and every tail, the parser gives
      the file's name and bytes back if and only if the parts say so; and without quotes in the fields'
      type lines they do if and only if no leading field's name ends with `filename=`, the filename holds
      no blank line, and the file field's own name does not end with `filename=` either (or the filename
      happens to be what would be read then). */
  lemma RoundTrip(headers: map<string, string>, fields: seq<Part>, file: Part, b: string, tail: string)
    requires "content-type" in headers && headers["content-type"] == ContentType(b)
    requires Free(b, '\r') && Fields(fields, b) && Printable(file, b) && file.filename.Some?
    ensures Parse(headers, Print(fields + [file], b, tail)) == Some(Upload(file.filename.value, file.content))
      <==> ComesBack(fields, file)
    ensures Unquoted(fields) ==> (ComesBack(fields, file) <==> Clear(fields) && Readable(file))
  {
    hide FindFrom, At, PrintParts, ParseAfter, Boundary, Readable, Misread;
    BoundaryOfHeader(headers, b);
    var rest := PrintParts(fields + [file], b) + tail;
    var body := Print(fields + [file], b, tail);
    assert body == Dashed(b) + rest;
    AtStart(Dashed(b), rest);
    PartsParse(fields, file, b, tail);
    if Unquoted(fields) {
      UnquotedComesBack(fields, file);
    }
  }

  lemma AtStart(p: string, rest: string)
    ensures Find(p + rest, p) == Some(0) && (p + rest)[|p|..] == rest
  {
    assert (p + rest)[0..|p|] == p;
    FirstMatch(p + rest, p, 0);
  }

  /** The leading field that defeats the parser: its name ends with `filename=`. */
  lemma FieldNamedFilenameDefeats(headers: map<string, string>, b: string, tail: string)
    requires "content-type" in headers && headers["content-type"] == ContentType(b) && Free(b, '\r')
    ensures var field := Part("filename=", None, None, "");
      var file := Part("file", Some("book.epub"), None, "text");
      Parse(headers, Print([field] + [file], b, tail)) != Some(Upload("book.epub", "text"))
  {
    var field := Part("filename=", None, None, "");
    var file := Part("file", Some("book.epub"), None, "text");
    assert FILENAME[0..9] == FILENAME;
    NotContained("", Delimiter(b), '\r');
    NotContained("text", Delimiter(b), '\r');
    RoundTrip(headers, [field], file, b, tail);
    assert Ends([field][0].name, FILENAME);
  }
}
