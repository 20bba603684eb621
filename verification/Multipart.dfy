/** The upload parser of the web server (src/CrossPointWebServer.cpp). */
module Multipart {
  import opened Text
  import opened Paths
  import opened Query

  const BLANK_LINE := "\r\n\r\n"
  const MARKER := "filename=\""
  const QUOTE := "\""

  datatype Upload = Upload(filename: string, bytes: string)

  /** The delimiter with its two dashes, or nothing when the header names no boundary. */
  function Boundary(headers: map<string, string>): string {
    if "content-type" !in headers then ""
    else
      var value := headers["content-type"];
      match Find(value, "boundary=")
      case None => ""
      case Some(pos) => "--" + value[pos + 9..]
  }

  /** What follows a `filename="` in a part's headers, up to the closing quote. */
  function FilenameIn(head: string): Option<Option<string>> {
    match Find(head, MARKER)
    case None => None
    case Some(m) =>
      var value := head[m + 10..];
      match Find(value, QUOTE)
      case None => Some(None)
      case Some(end) => Some(Some(BasenameOf(value[..end])))
  }

  /** A part cut out of what follows a boundary: its headers, its bytes, and the rest from the next
      delimiter on. Stop stands for the closing `--` and for a part that is not closed. */
  datatype Cut = Stop | Cut(head: string, bytes: string, more: string)

  function Body(part: string, boundary: string): (c: Cut)
    ensures c.Cut? ==> |c.more| < |part|
  {
    match Find(part, BLANK_LINE)
    case None => Stop
    case Some(h) =>
      var content := part[h + 4..];
      match Find(content, CRLF + boundary)
      case None => Stop
      case Some(n) => Cut(part[..h], content[..n], content[n..])
  }

  function CutAfter(rest: string, boundary: string): (c: Cut)
    ensures c.Cut? ==> |c.more| < |rest|
  {
    if Starts(rest, "--") then Stop else Body(AfterLineEnd(rest), boundary)
  }

  function AfterLineEnd(rest: string): (part: string)
    ensures |part| <= |rest|
  {
    if Starts(rest, CRLF) then rest[2..] else rest
  }

  /** The parse of what follows a boundary. */
  function ParseAfter(rest: string, boundary: string): Option<Upload>
    decreases |rest|
  {
    match CutAfter(rest, boundary)
    case Stop => None
    case Cut(head, bytes, more) =>
      match FilenameIn(head)
      case Some(None) => None
      case Some(Some(f)) => Some(Upload(f, bytes))
      case None =>
        match Find(more, boundary)
        case None => None
        case Some(k) => ParseAfter(more[k + |boundary|..], boundary)
  }

  function Parse(headers: map<string, string>, body: string): Option<Upload> {
    var boundary := Boundary(headers);
    if boundary == "" then None
    else match Find(body, boundary)
      case None => None
      case Some(p) => ParseAfter(body[p + |boundary|..], boundary)
  }

  /** The bounds of the part whose headers begin at `start`, found by index. */
  method FindPart(body: string, boundary: string, start: nat, ghost part: string)
    returns (stop: bool, headerEnd: nat, next: nat)
    requires start <= |body| && part == body[start..]
    ensures stop <==> Body(part, boundary) == Stop
    ensures !stop ==> (start <= headerEnd && headerEnd + 4 <= next <= |body|)
    ensures !stop ==> (Body(part, boundary) == Cut(body[start..headerEnd], body[headerEnd + 4..next], body[next..]))
  {
    hide FindFrom, At;
    stop, headerEnd, next := true, 0, 0;
    FindTail(body, BLANK_LINE, start);
    var blank := FindFrom(body, BLANK_LINE, start);
    if blank.None? {
      return;
    }
    headerEnd := blank.value;
    ghost var content := part[headerEnd - start + 4..];
    assert body[start..headerEnd] == part[..headerEnd - start];
    assert body[headerEnd + 4..] == content;
    FindTail(body, CRLF + boundary, headerEnd + 4);
    var delimiter := FindFrom(body, CRLF + boundary, headerEnd + 4);
    if delimiter.None? {
      return;
    }
    stop, next := false, delimiter.value;
    assert body[headerEnd + 4..next] == content[..next - (headerEnd + 4)];
    assert body[next..] == content[next - (headerEnd + 4)..];
  }

  /** Past the line end after a boundary; `closing` when the boundary is the last one. */
  method PastBoundary(body: string, start: nat, ghost rest: string) returns (closing: bool, at: nat)
    requires start <= |body| && rest == body[start..]
    ensures closing <==> Starts(rest, "--")
    ensures start <= at <= |body| && AfterLineEnd(rest) == body[at..]
  {
    AtTail(body, "--", start, start);
    AtTail(body, CRLF, start, start);
    closing, at := At(body, "--", start), start;
    if At(body, CRLF, start) {
      at := start + 2;
      assert body[at..] == rest[2..];
    }
  }

  /** The parser itself: one index moving through the body. */
  method ParseMultipartFile(headers: map<string, string>, body: string) returns (r: Option<Upload>)
    ensures r == Parse(headers, body)
  {
    hide FindFrom, At, ParseAfter, Boundary;
    var boundary := Boundary(headers);
    if boundary == "" {
      return None;
    }
    var found := Find(body, boundary);
    if found.None? {
      return None;
    }
    r := ParseParts(body, boundary, found.value + |boundary|);
  }

  method ParseParts(body: string, boundary: string, first: nat) returns (r: Option<Upload>)
    requires first <= |body|
    ensures r == ParseAfter(body[first..], boundary)
  {
    hide FindFrom, At, FilenameIn;
    var start := first;
    ghost var rest := body[first..];
    while true
      invariant 0 <= start <= |body| && rest == body[start..]
      invariant ParseAfter(body[first..], boundary) == ParseAfter(rest, boundary)
      decreases |body| - start
    {
      var closing, at := PastBoundary(body, start, rest);
      if closing {
        return None;
      }
      var stop, headerEnd, next := FindPart(body, boundary, at, AfterLineEnd(rest));
      if stop {
        return None;
      }
      var filename := FilenameIn(body[at..headerEnd]);
      if filename == Some(None) {
        return None;
      } else if filename.Some? {
        return Some(Upload(filename.value.value, body[headerEnd + 4..next]));
      }
      ghost var more := body[next..];
      FindTail(body, boundary, next);
      var again := FindFrom(body, boundary, next);
      if again.None? {
        return None;
      }
      start := again.value + |boundary|;
      rest := more[start - next..];
    }
  }

  // --- from the request to the path ---

  lemma {:induction false} ParsedNameIsFree(rest: string, boundary: string)
    ensures var r := ParseAfter(rest, boundary); r.Some? ==> Free(r.value.filename, '/')
    decreases |rest|
  {
    hide FindFrom, CutAfter;
    match CutAfter(rest, boundary) {
      case Stop =>
      case Cut(head, _, more) =>
        match FilenameIn(head) {
          case Some(Some(f)) => FilenameIsFree(head);
          case Some(None) =>
          case None =>
            if Find(more, boundary).Some? {
              ParsedNameIsFree(more[Find(more, boundary).value + |boundary|..], boundary);
            }
        }
    }
  }

  lemma FilenameIsFree(head: string)
    ensures var f := FilenameIn(head); f.Some? && f.value.Some? ==> Free(f.value.value, '/')
  {
    match Find(head, MARKER) {
      case None =>
      case Some(m) =>
        var value := head[m + 10..];
        match Find(value, QUOTE) {
          case None =>
          case Some(end) => BasenameIsFree(value[..end]);
        }
    }
  }

  /** Whatever the request, well formed or not: an upload is let through exactly when neither the parsed
      name nor a name on the way is protected, and what the storage is handed is then as stated. */
  lemma EveryUploadIsSafe(headers: map<string, string>, body: string, query: Values)
    ensures match Parse(headers, body)
      case None => true
      case Some(upload) => UploadDelivers(query, upload.filename)
  {
    hide ParseAfter, UploadDelivers, FindFrom;
    var boundary := Boundary(headers);
    if boundary != "" && Find(body, boundary).Some? {
      var rest := body[Find(body, boundary).value + |boundary|..];
      ParsedNameIsFree(rest, boundary);
      if ParseAfter(rest, boundary).Some? {
        UploadIsSafe(query, ParseAfter(rest, boundary).value.filename);
      }
    }
  }
}
