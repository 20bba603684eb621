// The read-aloud core: channel pages, speech-engine reports, taps and toggles in;
// utterance, highlight and page-turn actions out.

/** Values and the step function of the core (ios/ReadAloudCore.h, ios/ReadAloudCore.cpp). */
module ReadAloud {

  /** uint32_t arithmetic wraps at this bound. */
  const WORD := 0x1_0000_0000

  const TAP_INFLATE := 2
  const MAX_SKIPS := 12

  datatype Rect = Rect(x: nat, y: nat, w: nat, h: nat, offset: nat, len: nat) {
    /** `byteOffset <= b < byteOffset + byteLen`, the sum taken in uint32_t. */
    predicate Holds(b: nat) {
      offset <= b < (offset + len) % WORD
    }

    predicate Hit(px: int, py: int) {
      && x - TAP_INFLATE <= px < x + w + TAP_INFLATE
      && y - TAP_INFLATE <= py < y + h + TAP_INFLATE
    }

    function Range(): (nat, nat) {
      (offset, len)
    }
  }

  datatype Page = Page(cleared: bool, utf8: string, rects: seq<Rect>) {
    predicate Blank() {
      !cleared && utf8 == ""
    }
  }

  datatype Phase = Off | Speaking | Paused | AwaitingNextPage

  datatype Action =
    | StartUtterance(at: nat)
    | StopUtterance
    | PauseUtterance
    | ResumeUtterance
    | TurnPageForward
    | SetHighlight(offset: nat, len: nat)
    | ClearHighlight

  datatype Core = Core(
    phase: Phase, enabled: bool, rects: seq<Rect>, textBytes: nat, cursor: nat,
    lit: bool, litOffset: nat, litLen: nat, resume: nat, pageText: string, skipped: nat)
  {
    predicate Live() {
      phase == Speaking || phase == Paused
    }
  }

  const FRESH := Core(Off, false, [], 0, 0, false, 0, 0, 0, "", 0)

  datatype Input =
    | Enable(on: bool)
    | Arrive(page: Page)
    | Finished
    | Canceled
    | Timeout
    | WillSpeak(at: nat)
    | Tap(x: int, y: int)
    | Toggle
    | Restart

  // --- the resumable scan ---

  /** The scan from rect `i` on: stops early in a gap, because rects are in reading order. */
  function Scan(rects: seq<Rect>, b: nat, i: nat): int
    decreases |rects| - i
  {
    if i >= |rects| then -1
    else if b < rects[i].offset then -1
    else if rects[i].Holds(b) then i
    else Scan(rects, b, i + 1)
  }

  /** Where the scan for `b` starts, given the cursor the last one left. */
  function ScanStart(rects: seq<Rect>, cursor: nat, b: nat): (start: nat)
    requires rects != []
    ensures start < |rects|
  {
    var c := if cursor >= |rects| then 0 else cursor;
    if b < rects[c].offset then 0 else c
  }

  function Lookup(rects: seq<Rect>, cursor: nat, b: nat): int {
    if rects == [] then -1 else Scan(rects, b, ScanStart(rects, cursor, b))
  }

  function CursorAfter(rects: seq<Rect>, cursor: nat, b: nat): nat {
    if rects == [] then cursor
    else if Lookup(rects, cursor, b) >= 0 then Lookup(rects, cursor, b)
    else ScanStart(rects, cursor, b)
  }

  lemma ScanRange(rects: seq<Rect>, b: nat, i: nat)
    ensures -1 <= Scan(rects, b, i) < |rects|
    ensures Scan(rects, b, i) >= 0 ==> i <= Scan(rects, b, i) && rects[Scan(rects, b, i)].Holds(b)
    decreases |rects| - i
  {
  }

  /** The first rect from `i` on that a point falls in, or -1. */
  function FirstHit(rects: seq<Rect>, x: int, y: int, i: nat): (k: int)
    ensures -1 <= k < |rects|
    ensures k >= 0 ==> i <= k && rects[k].Hit(x, y) && forall j :: i <= j < k ==> !rects[j].Hit(x, y)
    ensures k < 0 ==> forall j :: i <= j < |rects| ==> !rects[j].Hit(x, y)
    decreases |rects| - i
  {
    if i >= |rects| then -1
    else if rects[i].Hit(x, y) then i
    else FirstHit(rects, x, y, i + 1)
  }

  // --- the steps ---

  function Dim(c: Core): (Core, seq<Action>) {
    (c.(lit := false), if c.lit then [ClearHighlight] else [])
  }

  /** What silences a core: stop the utterance it has, then put out the highlight. */
  function Hush(c: Core): seq<Action> {
    (if c.Live() then [StopUtterance] else []) + Dim(c).1
  }

  function BeginAt(c: Core, at: nat): (r: (Core, seq<Action>)) {
    var b := if at >= c.textBytes then 0 else at;
    var i := Lookup(c.rects, 0, b);
    var c' := c.(resume := b, cursor := CursorAfter(c.rects, 0, b), phase := Speaking);
    ScanRange(c.rects, b, if c.rects == [] then 0 else ScanStart(c.rects, 0, b));
    if i < 0 then (c', [StartUtterance(b)])
    else
      var r := c.rects[i];
      (c'.(lit := true, litOffset := r.offset, litLen := r.len),
       [StartUtterance(b), SetHighlight(r.offset, r.len)])
  }

  function SetEnabled(c: Core, on: bool): (Core, seq<Action>) {
    if c.enabled == on then (c, [])
    else if on then (c.(enabled := true), [])
    else
      (Dim(c).0.(enabled := false, phase := Off), Hush(c))
  }

  function PageArrived(c: Core, p: Page): (Core, seq<Action>) {
    if !c.enabled then (c, [])
    else if !p.cleared && p.utf8 != "" && p.utf8 == c.pageText && c.Live() then
      (c.(rects := p.rects), [])
    else
      var d, out := Dim(c).0, Hush(c);
      var bare := d.(rects := [], textBytes := 0, resume := 0, pageText := "");
      if p.cleared then
        (bare.(skipped := 0, phase := Off), out)
      else if p.utf8 == "" then
        if c.skipped < MAX_SKIPS then
          (bare.(skipped := c.skipped + 1, phase := AwaitingNextPage), out + [TurnPageForward])
        else
          (bare.(phase := Off), out)
      else
        (d.(skipped := 0, pageText := p.utf8, rects := p.rects, textBytes := |p.utf8| % WORD,
            cursor := 0, resume := 0, phase := Speaking),
         out + [StartUtterance(0)])
  }

  function UtteranceFinished(c: Core): (Core, seq<Action>) {
    if c.phase != Speaking then (c, [])
    else
      var (d, dim) := Dim(c);
      (d.(phase := AwaitingNextPage), dim + [TurnPageForward])
  }

  function UtteranceCanceled(c: Core): (Core, seq<Action>) {
    if !c.Live() then (c, [])
    else
      var (d, dim) := Dim(c);
      (d.(phase := Off), dim)
  }

  function PageTimeout(c: Core): (Core, seq<Action>) {
    if c.phase != AwaitingNextPage then (c, [])
    else
      var (d, dim) := Dim(c);
      (d.(phase := Off), dim)
  }

  function WillSpeakByte(c: Core, b: nat): (Core, seq<Action>) {
    if c.phase != Speaking then (c, [])
    else
      var i := Lookup(c.rects, c.cursor, b);
      var d := c.(cursor := CursorAfter(c.rects, c.cursor, b));
      ScanRange(c.rects, b, if c.rects == [] then 0 else ScanStart(c.rects, c.cursor, b));
      if i < 0 then (d, [])
      else
        var r := c.rects[i];
        if c.lit && c.litOffset == r.offset && c.litLen == r.len then
          (d.(resume := r.offset), [])
        else
          (d.(resume := r.offset, lit := true, litOffset := r.offset, litLen := r.len),
           [SetHighlight(r.offset, r.len)])
  }

  function ToggleSpeech(c: Core): (Core, seq<Action>) {
    if !c.enabled then (c, [])
    else match c.phase
      case Speaking => (c.(phase := Paused), [PauseUtterance])
      case Paused => (c.(phase := Speaking), [ResumeUtterance])
      case Off => if c.textBytes > 0 then BeginAt(c, c.resume) else (c, [])
      case AwaitingNextPage => (c, [])
  }

  function RestartAtCurrentWord(c: Core): (Core, seq<Action>) {
    if !c.enabled || c.phase != Speaking then (c, [])
    else
      var found := Lookup(c.rects, c.cursor, c.resume) >= 0;
      var (d, dim) := if found then (c, []) else Dim(c);
      var (e, begin) := BeginAt(d, d.resume);
      (e, [StopUtterance] + dim + begin)
  }

  function TapAtLogical(c: Core, x: int, y: int): (Core, seq<Action>) {
    if !c.enabled || c.rects == [] || c.phase == AwaitingNextPage then (c, [])
    else
      var i := FirstHit(c.rects, x, y, 0);
      if i < 0 then (c, [])
      else
        var r := c.rects[i];
        if c.Live() && c.lit && c.litOffset == r.offset && c.litLen == r.len then
          (c.(lit := false, resume := r.offset, phase := Off), [StopUtterance, ClearHighlight])
        else
          var (d, begin) := BeginAt(c, r.offset);
          (d, (if c.Live() then [StopUtterance] else []) + begin)
  }

  function Step(c: Core, i: Input): (Core, seq<Action>) {
    match i
    case Enable(on) => SetEnabled(c, on)
    case Arrive(p) => PageArrived(c, p)
    case Finished => UtteranceFinished(c)
    case Canceled => UtteranceCanceled(c)
    case Timeout => PageTimeout(c)
    case WillSpeak(b) => WillSpeakByte(c, b)
    case Tap(x, y) => TapAtLogical(c, x, y)
    case Toggle => ToggleSpeech(c)
    case Restart => RestartAtCurrentWord(c)
  }

  /** The object itself: fields updated in place, actions pushed onto a vector. */
  class ReadAloudCore {
    var phase: Phase
    var enabled: bool
    var rects: seq<Rect>
    var textBytes: nat
    var scanCursor: nat
    var highlightActive: bool
    var highlightOffset: nat
    var highlightLen: nat
    var resumeOffset: nat
    var pageText: string
    var skippedTextless: nat

    ghost function Model(): Core
      reads this
    {
      Core(phase, enabled, rects, textBytes, scanCursor, highlightActive, highlightOffset,
           highlightLen, resumeOffset, pageText, skippedTextless)
    }

    constructor ()
      ensures Model() == FRESH
    {
      phase, enabled, rects, textBytes, scanCursor := Off, false, [], 0, 0;
      highlightActive, highlightOffset, highlightLen := false, 0, 0;
      resumeOffset, pageText, skippedTextless := 0, "", 0;
    }

    method AppendClear(out: seq<Action>) returns (out': seq<Action>)
      modifies this`highlightActive
      ensures Model() == Dim(old(Model())).0 && out' == out + Dim(old(Model())).1
    {
      if !highlightActive {
        return out;
      }
      highlightActive := false;
      return out + [ClearHighlight];
    }

    method SetEnabled(on: bool) returns (out: seq<Action>)
      modifies this
      ensures Model() == Step(old(Model()), Enable(on)).0 && out == Step(old(Model()), Enable(on)).1
    {
      out := [];
      if enabled == on {
        return;
      }
      enabled := on;
      if !enabled {
        if phase == Speaking || phase == Paused {
          out := [StopUtterance];
        }
        out := AppendClear(out);
        phase := Off;
      }
    }

    method PageArrived(page: Page) returns (out: seq<Action>)
      modifies this
      ensures Model() == Step(old(Model()), Arrive(page)).0 && out == Step(old(Model()), Arrive(page)).1
    {
      out := [];
      if !enabled {
        return;
      }
      if !page.cleared && page.utf8 != "" && page.utf8 == pageText && (phase == Speaking || phase == Paused) {
        rects := page.rects;
        return;
      }
      if phase == Speaking || phase == Paused {
        out := [StopUtterance];
      }
      out := AppendClear(out);
      if page.cleared {
        rects, textBytes, resumeOffset, pageText := [], 0, 0, "";
        skippedTextless := 0;
        phase := Off;
        return;
      }
      if page.utf8 == "" {
        rects, textBytes, resumeOffset, pageText := [], 0, 0, "";
        if skippedTextless < MAX_SKIPS {
          skippedTextless := skippedTextless + 1;
          out := out + [TurnPageForward];
          phase := AwaitingNextPage;
          return;
        }
        phase := Off;
        return;
      }
      skippedTextless := 0;
      pageText, rects, textBytes := page.utf8, page.rects, |page.utf8| % WORD;
      scanCursor, resumeOffset := 0, 0;
      out := out + [StartUtterance(0)];
      phase := Speaking;
    }

    method UtteranceFinished() returns (out: seq<Action>)
      modifies this
      ensures Model() == Step(old(Model()), Finished).0 && out == Step(old(Model()), Finished).1
    {
      out := [];
      if phase != Speaking {
        return;
      }
      out := AppendClear(out);
      out := out + [TurnPageForward];
      phase := AwaitingNextPage;
    }

    method UtteranceCanceled() returns (out: seq<Action>)
      modifies this
      ensures Model() == Step(old(Model()), Canceled).0 && out == Step(old(Model()), Canceled).1
    {
      out := [];
      if phase != Speaking && phase != Paused {
        return;
      }
      out := AppendClear(out);
      phase := Off;
    }

    method PageTimeout() returns (out: seq<Action>)
      modifies this
      ensures Model() == Step(old(Model()), Timeout).0 && out == Step(old(Model()), Timeout).1
    {
      out := [];
      if phase != AwaitingNextPage {
        return;
      }
      out := AppendClear(out);
      phase := Off;
    }

    method RectContaining(b: nat) returns (found: int)
      modifies this`scanCursor
      ensures found == Lookup(rects, old(scanCursor), b)
      ensures scanCursor == CursorAfter(rects, old(scanCursor), b)
      ensures -1 <= found < |rects|
    {
      if rects == [] {
        return -1;
      }
      if scanCursor >= |rects| {
        scanCursor := 0;
      }
      if b < rects[scanCursor].offset {
        scanCursor := 0;
      }
      var i := scanCursor;
      while i < |rects|
        invariant scanCursor <= i <= |rects|
        invariant scanCursor == ScanStart(rects, old(scanCursor), b)
        invariant Lookup(rects, old(scanCursor), b) == Scan(rects, b, i)
      {
        if b < rects[i].offset {
          return -1;
        }
        if rects[i].Holds(b) {
          scanCursor := i;
          return i;
        }
        i := i + 1;
      }
      return -1;
    }

    method WillSpeakByte(b: nat) returns (out: seq<Action>)
      modifies this
      ensures Model() == Step(old(Model()), WillSpeak(b)).0 && out == Step(old(Model()), WillSpeak(b)).1
    {
      out := [];
      if phase != Speaking {
        return;
      }
      var i := RectContaining(b);
      if i < 0 {
        return;
      }
      var r := rects[i];
      resumeOffset := r.offset;
      if highlightActive && highlightOffset == r.offset && highlightLen == r.len {
        return;
      }
      highlightActive, highlightOffset, highlightLen := true, r.offset, r.len;
      out := [SetHighlight(r.offset, r.len)];
    }

    method BeginAtByte(at: nat, out: seq<Action>) returns (out': seq<Action>)
      modifies this
      ensures Model() == BeginAt(old(Model()), at).0
      ensures out' == out + BeginAt(old(Model()), at).1
    {
      var b := if at >= textBytes then 0 else at;
      out' := out + [StartUtterance(b)];
      resumeOffset := b;
      scanCursor := 0;
      var i := RectContaining(b);
      if i >= 0 {
        var r := rects[i];
        highlightActive, highlightOffset, highlightLen := true, r.offset, r.len;
        out' := out' + [SetHighlight(r.offset, r.len)];
      }
      phase := Speaking;
    }

    method ToggleSpeech() returns (out: seq<Action>)
      modifies this
      ensures Model() == Step(old(Model()), Toggle).0 && out == Step(old(Model()), Toggle).1
    {
      out := [];
      if !enabled {
        return;
      }
      match phase {
        case Speaking =>
          out := [PauseUtterance];
          phase := Paused;
        case Paused =>
          out := [ResumeUtterance];
          phase := Speaking;
        case Off =>
          if textBytes > 0 {
            out := BeginAtByte(resumeOffset, out);
          }
        case AwaitingNextPage =>
      }
    }

    method RestartAtCurrentWord() returns (out: seq<Action>)
      modifies this
      ensures Model() == Step(old(Model()), Restart).0 && out == Step(old(Model()), Restart).1
    {
      out := [];
      if !enabled || phase != Speaking {
        return;
      }
      out := [StopUtterance];
      var i := RectContaining(resumeOffset);
      if i < 0 {
        out := AppendClear(out);
      }
      out := BeginAtByte(resumeOffset, out);
    }

    method TapAtLogical(x: int, y: int) returns (out: seq<Action>)
      modifies this
      ensures Model() == Step(old(Model()), Tap(x, y)).0 && out == Step(old(Model()), Tap(x, y)).1
    {
      out := [];
      if !enabled || rects == [] || phase == AwaitingNextPage {
        return;
      }
      var i := 0;
      while i < |rects|
        invariant 0 <= i <= |rects| && out == []
        invariant Model() == old(Model())
        invariant FirstHit(rects, x, y, 0) == FirstHit(rects, x, y, i)
      {
        var r := rects[i];
        if r.Hit(x, y) {
          var live := phase == Speaking || phase == Paused;
          if live && highlightActive && highlightOffset == r.offset && highlightLen == r.len {
            out := [StopUtterance];
            out := AppendClear(out);
            resumeOffset := r.offset;
            phase := Off;
            return;
          }
          if live {
            out := [StopUtterance];
          }
          out := BeginAtByte(r.offset, out);
          return;
        }
        i := i + 1;
      }
    }
  }
}
