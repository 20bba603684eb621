/** What the read-aloud core keeps over every run: against the speech engine, the painter and blank pages. */
module ReadAloudProperties {
  import opened ReadAloud

  // --- the channel's promise about a page ---

  /** The word ranges of a text: the same text always publishes the same ones. */
  type Lexicon = string -> set<(nat, nat)>

  function Words(rects: seq<Rect>): set<(nat, nat)> {
    set r | r in rects :: r.Range()
  }

  predicate InOrder(r: Rect, s: Rect) {
    r.Range() == s.Range() || r.offset + r.len <= s.offset
  }

  /** Reading order; fragments of one word share its range, other ranges are disjoint; all lie in the text. */
  ghost predicate WellFormed(rects: seq<Rect>, bytes: nat) {
    && bytes < WORD
    && (forall i :: 0 <= i < |rects| ==> rects[i].len > 0 && rects[i].offset + rects[i].len <= bytes)
    && forall i, j {:trigger InOrder(rects[i], rects[j])} :: 0 <= i < j < |rects| ==> InOrder(rects[i], rects[j])
  }

  ghost predicate Published(p: Page, words: Lexicon) {
    && WellFormed(p.rects, |p.utf8|)
    && Words(p.rects) == words(p.utf8)
    && (p.cleared ==> p.utf8 == "")
  }

  // --- the resumable cursor ---

  /** The reference scan: every rect from `i` on, in order, no cursor and no early exit. */
  function PlainScan(rects: seq<Rect>, b: nat, i: nat): (k: int)
    ensures -1 <= k < |rects|
    ensures k >= 0 ==> i <= k && rects[k].Holds(b)
    ensures k < 0 ==> forall j :: i <= j < |rects| ==> !rects[j].Holds(b)
    decreases |rects| - i
  {
    if i >= |rects| then -1
    else if rects[i].Holds(b) then i
    else PlainScan(rects, b, i + 1)
  }

  lemma {:induction false} ScanFindsHolder(rects: seq<Rect>, bytes: nat, b: nat, i: nat)
    requires WellFormed(rects, bytes)
    ensures -1 <= Scan(rects, b, i) < |rects|
    ensures Scan(rects, b, i) >= 0 ==> rects[Scan(rects, b, i)].Holds(b)
    ensures Scan(rects, b, i) < 0 ==> forall j :: i <= j < |rects| ==> !rects[j].Holds(b)
    decreases |rects| - i
  {
    if i < |rects| && b >= rects[i].offset && !rects[i].Holds(b) {
      ScanFindsHolder(rects, bytes, b, i + 1);
    } else if i < |rects| && b < rects[i].offset {
      forall j | i < j < |rects| ensures !rects[j].Holds(b) {
        assert InOrder(rects[i], rects[j]);
      }
    }
  }

  /** Two rects that hold the same byte are fragments of one word. */
  lemma HoldersAgree(rects: seq<Rect>, bytes: nat, i: nat, j: nat, b: nat)
    requires WellFormed(rects, bytes) && i < |rects| && j < |rects|
    requires rects[i].Holds(b) && rects[j].Holds(b)
    ensures rects[i].Range() == rects[j].Range()
  {
    if i < j {
      assert InOrder(rects[i], rects[j]);
    } else if j < i {
      assert InOrder(rects[j], rects[i]);
    }
  }

  /** A rect before the scan's start holds the byte only if the rect at the start does too. */
  lemma StartSkipsNothing(rects: seq<Rect>, bytes: nat, start: nat, j: nat, b: nat)
    requires WellFormed(rects, bytes) && j < start < |rects|
    requires rects[start].offset <= b && rects[j].Holds(b)
    ensures rects[start].Holds(b)
  {
    assert InOrder(rects[j], rects[start]);
  }

  /** For every cursor, stale or out of range, the search finds the word the plain scan finds. */
  lemma CursorRefinesScan(rects: seq<Rect>, bytes: nat, cursor: nat, b: nat)
    requires WellFormed(rects, bytes)
    ensures var k, plain := Lookup(rects, cursor, b), PlainScan(rects, b, 0);
      && -1 <= k < |rects|
      && (k < 0 <==> plain < 0)
      && (k < 0 <==> forall j :: 0 <= j < |rects| ==> !rects[j].Holds(b))
      && (k >= 0 ==> rects[k].Holds(b) && rects[k].Range() == rects[plain].Range())
  {
    if rects != [] {
      var start := ScanStart(rects, cursor, b);
      var k, plain := Lookup(rects, cursor, b), PlainScan(rects, b, 0);
      ScanFindsHolder(rects, bytes, b, start);
      if k >= 0 {
        HoldersAgree(rects, bytes, k, plain, b);
      } else if plain >= 0 {
        if plain < start {
          StartSkipsNothing(rects, bytes, start, plain, b);
        }
        assert false;
      }
    }
  }

  // --- the core's own invariant ---

  /** Byte 0 and the first byte of every word: where an utterance may begin. */
  ghost predicate Beginning(rects: seq<Rect>, at: nat) {
    at == 0 || exists r :: r in rects && r.offset == at
  }

  ghost predicate Consistent(c: Core, words: Lexicon) {
    && WellFormed(c.rects, c.textBytes)
    && c.textBytes == |c.pageText|
    && (c.pageText != "" ==> Words(c.rects) == words(c.pageText))
    && Beginning(c.rects, c.resume)
    && (c.lit ==> c.Live() && c.litOffset == c.resume && (c.litOffset, c.litLen) in Words(c.rects))
    && (!c.enabled ==> c.phase == Off)
    && c.skipped <= MAX_SKIPS
    && (c.skipped > 0 ==> c.pageText == "")
    && (c.Live() ==> c.pageText != "")
  }

  // --- the engine and the painter the actions drive ---

  datatype Engine = Idle | Talking | Held

  predicate Accepts(e: Engine, a: Action) {
    match a
    case StartUtterance(_) => e == Idle
    case StopUtterance => e != Idle
    case PauseUtterance => e == Talking
    case ResumeUtterance => e == Held
    case _ => true
  }

  function Play(e: Engine, a: Action): Engine {
    match a
    case StartUtterance(_) => Talking
    case StopUtterance => Idle
    case PauseUtterance => Held
    case ResumeUtterance => Talking
    case _ => e
  }

  predicate AcceptsAll(e: Engine, out: seq<Action>)
    decreases |out|
  {
    out == [] || (Accepts(e, out[0]) && AcceptsAll(Play(e, out[0]), out[1..]))
  }

  function PlayAll(e: Engine, out: seq<Action>): Engine
    decreases |out|
  {
    if out == [] then e else PlayAll(Play(e, out[0]), out[1..])
  }

  datatype Painter = Dark | Shows(offset: nat, len: nat)

  function Paint(p: Painter, a: Action): Painter {
    match a
    case SetHighlight(offset, len) => Shows(offset, len)
    case ClearHighlight => Dark
    case _ => p
  }

  function PaintAll(p: Painter, out: seq<Action>): Painter
    decreases |out|
  {
    if out == [] then p else PaintAll(Paint(p, out[0]), out[1..])
  }

  datatype World = World(core: Core, engine: Engine, painter: Painter)

  /** An engine does not finish an utterance it holds. Nothing else is asked of its reports: a word queued
      before a pause or a stop may come late, and so may the cancel of the core's own stop. */
  ghost predicate Possible(w: World, i: Input, words: Lexicon) {
    && !(i.Finished? && w.engine == Held)
    && (i.Arrive? ==> Published(i.page, words))
  }

  function Reported(e: Engine, i: Input): Engine {
    if i.Finished? || i.Canceled? then Idle else e
  }

  function Next(w: World, i: Input): World {
    var (core, out) := Step(w.core, i);
    World(core, PlayAll(Reported(w.engine, i), out), PaintAll(w.painter, out))
  }

  ghost predicate Lockstep(w: World) {
    && w.engine == (match w.core.phase
                    case Speaking => Talking
                    case Paused => Held
                    case _ => Idle)
    && w.painter == (if w.core.lit then Shows(w.core.litOffset, w.core.litLen) else Dark)
  }

  /** An utterance begins at the top of the page or at a word's first byte, and inside the text. */
  ghost predicate StartsAtWords(c: Core, out: seq<Action>) {
    forall a :: a in out && a.StartUtterance? ==> a.at < c.textBytes && Beginning(c.rects, a.at)
  }

  /** No step emits more than three actions, so a replay is at most three moves long. */
  lemma Unrolled(e: Engine, p: Painter, out: seq<Action>)
    requires |out| <= 3
    ensures AcceptsAll(e, out) <==>
      && (|out| > 0 ==> Accepts(e, out[0]))
      && (|out| > 1 ==> Accepts(Play(e, out[0]), out[1]))
      && (|out| > 2 ==> Accepts(Play(Play(e, out[0]), out[1]), out[2]))
    ensures PlayAll(e, out) ==
      (match |out| case 0 => e case 1 => Play(e, out[0]) case 2 => Play(Play(e, out[0]), out[1])
       case _ => Play(Play(Play(e, out[0]), out[1]), out[2]))
    ensures PaintAll(p, out) ==
      (match |out| case 0 => p case 1 => Paint(p, out[0]) case 2 => Paint(Paint(p, out[0]), out[1])
       case _ => Paint(Paint(Paint(p, out[0]), out[1]), out[2]))
    decreases |out|
  {
    if |out| > 0 {
      Unrolled(Play(e, out[0]), Paint(p, out[0]), out[1..]);
    }
  }

  lemma PlaySnoc(e: Engine, p: Painter, out: seq<Action>, a: Action)
    ensures AcceptsAll(e, out + [a]) <==> AcceptsAll(e, out) && Accepts(PlayAll(e, out), a)
    ensures PlayAll(e, out + [a]) == Play(PlayAll(e, out), a)
    ensures PaintAll(p, out + [a]) == Paint(PaintAll(p, out), a)
    decreases |out|
  {
    if out != [] {
      assert (out + [a])[1..] == out[1..] + [a];
      PlaySnoc(Play(e, out[0]), Paint(p, out[0]), out[1..], a);
    }
  }

  lemma HushSilences(w: World)
    requires Lockstep(w)
    ensures AcceptsAll(w.engine, Hush(w.core))
    ensures PlayAll(w.engine, Hush(w.core)) == Idle && PaintAll(w.painter, Hush(w.core)) == Dark
    ensures forall a :: a in Hush(w.core) ==> a == StopUtterance || a == ClearHighlight
  {
    Unrolled(w.engine, w.painter, Hush(w.core));
  }

  lemma LookupBeginning(rects: seq<Rect>, bytes: nat, cursor: nat, at: nat)
    requires WellFormed(rects, bytes) && Beginning(rects, at)
    ensures var k := Lookup(rects, cursor, at);
      && -1 <= k < |rects|
      && (k < 0 <==> PlainScan(rects, at, 0) < 0)
      && (k >= 0 ==> rects[k].offset == at && rects[k].Range() in Words(rects))
    ensures bytes > 0 ==> at < bytes
  {
    CursorRefinesScan(rects, bytes, cursor, at);
    var k := Lookup(rects, cursor, at);
    if at != 0 {
      var r :| r in rects && r.offset == at;
      var j :| 0 <= j < |rects| && rects[j] == r;
      assert rects[j].Holds(at);
      HoldersAgree(rects, bytes, k, j, at);
    }
    if k >= 0 {
      assert rects[k] in rects;
    }
  }

  /** `BeginAt` from a beginning starts one utterance there and lights the word that holds it. */
  lemma BeginAtStarts(c: Core, at: nat)
    requires WellFormed(c.rects, c.textBytes) && c.textBytes > 0
    requires Beginning(c.rects, at)
    ensures var (d, out) := BeginAt(c, at);
      && d == c.(resume := at, phase := Speaking, cursor := d.cursor,
                 lit := d.lit, litOffset := d.litOffset, litLen := d.litLen)
      && (if PlainScan(c.rects, at, 0) >= 0 then
            && d.lit && d.litOffset == at && (d.litOffset, d.litLen) in Words(c.rects)
            && out == [StartUtterance(at), SetHighlight(d.litOffset, d.litLen)]
          else
            && out == [StartUtterance(at)]
            && d.lit == c.lit && d.litOffset == c.litOffset && d.litLen == c.litLen)
  {
    LookupBeginning(c.rects, c.textBytes, 0, at);
  }

  ghost predicate Good(w: World, i: Input, words: Lexicon) {
    var out := Step(w.core, i).1;
    && Lockstep(Next(w, i))
    && Consistent(Next(w, i).core, words)
    && AcceptsAll(Reported(w.engine, i), out)
    && StartsAtWords(Next(w, i).core, out)
    && (!w.core.enabled ==> out == [])
  }

  predicate Republished(c: Core, p: Page) {
    !p.cleared && p.utf8 != "" && p.utf8 == c.pageText && c.Live()
  }

  lemma StepRepublish(w: World, p: Page, words: Lexicon)
    requires Lockstep(w) && Consistent(w.core, words) && Published(p, words)
    requires w.core.enabled && Republished(w.core, p)
    ensures Good(w, Arrive(p), words)
  {
    var c := w.core;
    if c.resume != 0 {
      var r :| r in c.rects && r.offset == c.resume;
      assert r.Range() in Words(p.rects);
    }
  }

  lemma NewPageConsistent(c: Core, p: Page, words: Lexicon)
    requires Consistent(c, words) && Published(p, words) && c.enabled && !Republished(c, p)
    ensures Consistent(Step(c, Arrive(p)).0, words)
  {
    hide InOrder, Words;
  }

  lemma StepNewPage(w: World, p: Page, words: Lexicon)
    requires Lockstep(w) && Consistent(w.core, words) && Published(p, words)
    requires w.core.enabled && !Republished(w.core, p)
    ensures Good(w, Arrive(p), words)
  {
    NewPageConsistent(w.core, p, words);
    HushSilences(w);
    PlaySnoc(w.engine, w.painter, Hush(w.core), TurnPageForward);
    PlaySnoc(w.engine, w.painter, Hush(w.core), StartUtterance(0));
  }

  lemma StepTap(w: World, x: int, y: int, words: Lexicon)
    requires Lockstep(w) && Consistent(w.core, words)
    ensures Good(w, Tap(x, y), words)
  {
    var c := w.core;
    Unrolled(w.engine, w.painter, Step(c, Tap(x, y)).1);
    var k := FirstHit(c.rects, x, y, 0);
    if c.enabled && c.phase != AwaitingNextPage && k >= 0 {
      assert c.rects[k] in c.rects;
      assert c.rects[k].Holds(c.rects[k].offset);
      BeginAtStarts(c, c.rects[k].offset);
    }
  }

  lemma StepWord(w: World, b: nat, words: Lexicon)
    requires Lockstep(w) && Consistent(w.core, words)
    ensures Good(w, WillSpeak(b), words)
  {
    var c := w.core;
    Unrolled(w.engine, w.painter, Step(c, WillSpeak(b)).1);
    CursorRefinesScan(c.rects, c.textBytes, c.cursor, b);
    if Lookup(c.rects, c.cursor, b) >= 0 {
      assert c.rects[Lookup(c.rects, c.cursor, b)] in c.rects;
    }
  }

  lemma StepToggle(w: World, words: Lexicon)
    requires Lockstep(w) && Consistent(w.core, words)
    ensures Good(w, Toggle, words)
  {
    var c := w.core;
    Unrolled(w.engine, w.painter, Step(c, Toggle).1);
    if c.enabled && c.phase == Off && c.textBytes > 0 {
      BeginAtStarts(c, c.resume);
    }
  }

  lemma StepRestart(w: World, words: Lexicon)
    requires Lockstep(w) && Consistent(w.core, words)
    ensures Good(w, Restart, words)
  {
    var c := w.core;
    if c.enabled && c.phase == Speaking {
      LookupBeginning(c.rects, c.textBytes, c.cursor, c.resume);
      if Lookup(c.rects, c.cursor, c.resume) >= 0 {
        BeginAtStarts(c, c.resume);
      } else {
        BeginAtStarts(Dim(c).0, c.resume);
        assert !Step(c, Restart).0.lit;
      }
    }
    Unrolled(w.engine, w.painter, Step(c, Restart).1);
  }

  /** One step: every action is one the engine can take, and engine and painter match the core again. */
  lemma StepKeepsLockstep(w: World, i: Input, words: Lexicon)
    requires Lockstep(w) && Consistent(w.core, words) && Possible(w, i, words)
    ensures Good(w, i, words)
  {
    match i {
      case Arrive(p) =>
        if w.core.enabled && Republished(w.core, p) {
          StepRepublish(w, p, words);
        } else if w.core.enabled {
          StepNewPage(w, p, words);
        }
      case Tap(x, y) => StepTap(w, x, y, words);
      case WillSpeak(b) => StepWord(w, b, words);
      case Toggle => StepToggle(w, words);
      case Restart => StepRestart(w, words);
      case _ => Unrolled(Reported(w.engine, i), w.painter, Step(w.core, i).1);
    }
  }

  // --- whole runs ---

  function After(w: World, inputs: seq<Input>): World
    decreases |inputs|
  {
    if inputs == [] then w else After(Next(w, inputs[0]), inputs[1..])
  }

  ghost predicate PossibleRun(w: World, inputs: seq<Input>, words: Lexicon)
    decreases |inputs|
  {
    inputs != [] ==> Possible(w, inputs[0], words) && PossibleRun(Next(w, inputs[0]), inputs[1..], words)
  }

  const BOOT := World(FRESH, Idle, Dark)

  lemma {:induction false} RunKeepsLockstep(w: World, inputs: seq<Input>, words: Lexicon)
    requires Lockstep(w) && Consistent(w.core, words) && PossibleRun(w, inputs, words)
    ensures Lockstep(After(w, inputs)) && Consistent(After(w, inputs).core, words)
    decreases |inputs|
  {
    if inputs != [] {
      StepKeepsLockstep(w, inputs[0], words);
      RunKeepsLockstep(Next(w, inputs[0]), inputs[1..], words);
    }
  }

  /** From boot, after any run, the next step's actions are all playable and the core, the engine and
      the painter still agree: the lit word is the one at the resume point, and only a live core lights one. */
  lemma EveryRunStaysInLockstep(inputs: seq<Input>, last: Input, words: Lexicon)
    requires PossibleRun(BOOT, inputs, words)
    requires Possible(After(BOOT, inputs), last, words)
    ensures var w, w' := After(BOOT, inputs), Next(After(BOOT, inputs), last);
      && AcceptsAll(Reported(w.engine, last), Step(w.core, last).1)
      && StartsAtWords(w'.core, Step(w.core, last).1)
      && (!w.core.enabled ==> Step(w.core, last).1 == [])
      && (w'.engine == Talking <==> w'.core.phase == Speaking)
      && (w'.engine == Held <==> w'.core.phase == Paused)
      && (w'.painter == Dark <==> !w'.core.lit)
      && (w'.painter.Shows? ==>
            && w'.core.Live()
            && w'.painter.offset == w'.core.resume
            && (w'.painter.offset, w'.painter.len) in Words(w'.core.rects))
  {
    RunKeepsLockstep(BOOT, inputs, words);
    StepKeepsLockstep(After(BOOT, inputs), last, words);
  }

  /** Of all inputs in any state in step, the finish of a held utterance, and no other, breaks step. */
  lemma OnlyHeldFinishBreaksStep(w: World, i: Input, words: Lexicon)
    requires Lockstep(w) && Consistent(w.core, words) && (i.Arrive? ==> Published(i.page, words))
    ensures Good(w, i, words) <==> !(i.Finished? && w.engine == Held)
  {
    if i.Finished? && w.engine == Held {
      HeldFinishLeavesItPaused(w);
    } else {
      StepKeepsLockstep(w, i, words);
    }
  }

  /** What it breaks: the core stays paused, over an engine that is idle. */
  lemma HeldFinishLeavesItPaused(w: World)
    requires Lockstep(w) && w.engine == Held
    ensures Next(w, Finished).core == w.core && w.core.phase == Paused
    ensures Next(w, Finished).engine == Idle && !Lockstep(Next(w, Finished))
  {
    Unrolled(Idle, w.painter, []);
  }

  /** A word that comes late, with the engine held or idle, changes nothing and lights nothing. */
  lemma LateWordIsIgnored(w: World, at: nat)
    requires Lockstep(w) && w.engine != Talking
    ensures Next(w, WillSpeak(at)) == w && Step(w.core, WillSpeak(at)).1 == []
  {
    Unrolled(w.engine, w.painter, []);
  }

  /** The cancel of the core's own stop comes to a core that is Off or waiting, and changes nothing. */
  lemma LateCancelIsIgnored(w: World)
    requires Lockstep(w) && w.engine == Idle
    ensures Next(w, Canceled) == w && Step(w.core, Canceled).1 == []
  {
    Unrolled(Idle, w.painter, []);
  }

  // --- one word, tapped, tapped again, toggled ---

  /** From Off: the first tap on a word speaks from its byte and lights it, a second tap at the same
      place stops and clears, and a toggle speaks from that byte again. */
  lemma TapStopToggle(c: Core, x: int, y: int, words: Lexicon)
    requires Consistent(c, words) && c.enabled && c.phase == Off
    requires FirstHit(c.rects, x, y, 0) >= 0
    ensures var r := c.rects[FirstHit(c.rects, x, y, 0)];
      var speak := [StartUtterance(r.offset), SetHighlight(r.offset, r.len)];
      var (c1, out1) := Step(c, Tap(x, y));
      var (c2, out2) := Step(c1, Tap(x, y));
      var (c3, out3) := Step(c2, Toggle);
      && out1 == speak && c1.phase == Speaking
      && out2 == [StopUtterance, ClearHighlight] && c2.phase == Off
      && out3 == speak && c3.phase == Speaking
      && c1.resume == c2.resume == c3.resume == r.offset
  {
    var k := FirstHit(c.rects, x, y, 0);
    var r := c.rects[k];
    assert r in c.rects && r.Holds(r.offset);
    BeginLights(c, k);
    var c2 := Step(Step(c, Tap(x, y)).0, Tap(x, y)).0;
    BeginLights(c2, k);
  }

  lemma BeginLights(c: Core, k: nat)
    requires WellFormed(c.rects, c.textBytes) && k < |c.rects|
    ensures var r := c.rects[k];
      BeginAt(c, r.offset).1 == [StartUtterance(r.offset), SetHighlight(r.offset, r.len)]
    ensures var d := BeginAt(c, c.rects[k].offset).0;
      d == c.(resume := c.rects[k].offset, phase := Speaking, cursor := d.cursor,
              lit := true, litOffset := c.rects[k].offset, litLen := c.rects[k].len)
  {
    var r := c.rects[k];
    assert r.Holds(r.offset);
    CursorRefinesScan(c.rects, c.textBytes, 0, r.offset);
    HoldersAgree(c.rects, c.textBytes, Lookup(c.rects, 0, r.offset), k, r.offset);
  }

  // --- blank pages ---

  function Turns(out: seq<Action>): nat {
    multiset(out)[TurnPageForward]
  }

  predicate AcceptsPage(c: Core, i: Input) {
    i.Arrive? && c.enabled
  }

  /** The page turns of a run that an accepted blank page caused. */
  function BlankTurns(c: Core, inputs: seq<Input>): nat
    decreases |inputs|
  {
    if inputs == [] then 0
    else
      (if AcceptsPage(c, inputs[0]) && inputs[0].page.Blank() then Turns(Step(c, inputs[0]).1) else 0)
      + BlankTurns(Step(c, inputs[0]).0, inputs[1..])
  }

  function AllTurns(c: Core, inputs: seq<Input>): nat
    decreases |inputs|
  {
    if inputs == [] then 0 else Turns(Step(c, inputs[0]).1) + AllTurns(Step(c, inputs[0]).0, inputs[1..])
  }

  function CoreAfter(c: Core, inputs: seq<Input>): Core
    decreases |inputs|
  {
    if inputs == [] then c else CoreAfter(Step(c, inputs[0]).0, inputs[1..])
  }

  /** Every page accepted along the run is blank; every other input is free. */
  predicate OnlyBlanks(c: Core, inputs: seq<Input>)
    decreases |inputs|
  {
    inputs != [] ==>
      && (AcceptsPage(c, inputs[0]) ==> inputs[0].page.Blank())
      && OnlyBlanks(Step(c, inputs[0]).0, inputs[1..])
  }

  /** No page accepted along the run has words: each is blank or a clear. */
  predicate NoWords(c: Core, inputs: seq<Input>)
    decreases |inputs|
  {
    inputs != [] ==>
      && (AcceptsPage(c, inputs[0]) ==> inputs[0].page.utf8 == "")
      && NoWords(Step(c, inputs[0]).0, inputs[1..])
  }

  predicate Starts(out: seq<Action>) {
    exists a :: a in out && a.StartUtterance?
  }

  predicate EverStarts(c: Core, inputs: seq<Input>)
    decreases |inputs|
  {
    inputs != [] && (Starts(Step(c, inputs[0]).1) || EverStarts(Step(c, inputs[0]).0, inputs[1..]))
  }

  lemma HushTurnsNothing(c: Core)
    ensures Turns(Hush(c)) == 0 && Turns(Hush(c) + [TurnPageForward]) == 1
    ensures !Starts(Hush(c)) && !Starts(Hush(c) + [TurnPageForward])
  {
    assert TurnPageForward !in Hush(c);
  }

  lemma BlankPageStep(c: Core, p: Page)
    requires c.enabled && p.Blank()
    ensures var (d, out) := Step(c, Arrive(p));
      && Turns(out) == (if c.skipped < MAX_SKIPS then 1 else 0)
      && d.skipped == c.skipped + Turns(out)
      && d.phase == (if c.skipped < MAX_SKIPS then AwaitingNextPage else Off)
      && !Starts(out)
  {
    HushTurnsNothing(c);
    assert Step(c, Arrive(p)).1 == if c.skipped < MAX_SKIPS then Hush(c) + [TurnPageForward] else Hush(c);
  }

  lemma OtherStepsKeepSkipped(c: Core, i: Input)
    requires !AcceptsPage(c, i)
    ensures Step(c, i).0.skipped == c.skipped
  {
  }

  lemma {:induction false} BlankTurnsAreCounted(c: Core, inputs: seq<Input>)
    requires c.skipped <= MAX_SKIPS && OnlyBlanks(c, inputs)
    ensures c.skipped + BlankTurns(c, inputs) == CoreAfter(c, inputs).skipped <= MAX_SKIPS
    decreases |inputs|
  {
    if inputs != [] {
      if AcceptsPage(c, inputs[0]) {
        BlankPageStep(c, inputs[0].page);
      } else {
        OtherStepsKeepSkipped(c, inputs[0]);
      }
      BlankTurnsAreCounted(Step(c, inputs[0]).0, inputs[1..]);
    }
  }

  /** After an accepted page with words (or a clear), and until the next one, blank pages turn at most
      twelve pages under any interleaving; a blank page turns one exactly while fewer have been
      turned, and leaves the core Off from then on. */
  lemma BlankPagesTurnAtMostTwelve(c: Core, p: Page, inputs: seq<Input>, blank: Page, words: Lexicon)
    requires Consistent(c, words) && c.enabled && Published(p, words) && !p.Blank()
    requires OnlyBlanks(Step(c, Arrive(p)).0, inputs) && blank.Blank()
    ensures var start := Step(c, Arrive(p)).0;
      var end := CoreAfter(start, inputs);
      var turned := BlankTurns(start, inputs);
      && turned <= 12
      && (end.enabled ==>
            && Turns(Step(end, Arrive(blank)).1) == (if turned < 12 then 1 else 0)
            && (turned == 12 ==> Step(end, Arrive(blank)).0.phase == Off))
  {
    var start := Step(c, Arrive(p)).0;
    BlankTurnsAreCounted(start, inputs);
    if CoreAfter(start, inputs).enabled {
      BlankPageStep(CoreAfter(start, inputs), blank);
    }
  }

  predicate Textless(c: Core) {
    c.textBytes == 0 && c.rects == [] && c.pageText == "" && !c.Live()
  }

  lemma TextlessStep(c: Core, i: Input)
    requires Textless(c)
    requires AcceptsPage(c, i) ==> i.page.utf8 == ""
    ensures var (d, out) := Step(c, i);
      && Textless(d) && !Starts(out)
      && Turns(out) == (if AcceptsPage(c, i) && i.page.Blank() && c.skipped < MAX_SKIPS then 1 else 0)
  {
    hide Scan, FirstHit;
    if i.Arrive? && AcceptsPage(c, i) && i.page.Blank() {
      BlankPageStep(c, i.page);
    }
  }

  /** With no text held, nothing but a page with words starts speech or turns a page on its own account. */
  lemma {:induction false} SilentWithoutText(c: Core, inputs: seq<Input>)
    requires Textless(c) && NoWords(c, inputs)
    ensures !EverStarts(c, inputs) && AllTurns(c, inputs) == BlankTurns(c, inputs)
    decreases |inputs|
  {
    if inputs != [] {
      TextlessStep(c, inputs[0]);
      SilentWithoutText(Step(c, inputs[0]).0, inputs[1..]);
    }
  }

  /** Once a blank page is accepted, speech cannot start until a page with words arrives. */
  lemma BlankPageSilences(c: Core, blank: Page, inputs: seq<Input>)
    requires c.enabled && blank.Blank() && NoWords(Step(c, Arrive(blank)).0, inputs)
    ensures var d := Step(c, Arrive(blank)).0;
      !EverStarts(d, inputs) && AllTurns(d, inputs) == BlankTurns(d, inputs)
  {
    BlankPageStep(c, blank);
    SilentWithoutText(Step(c, Arrive(blank)).0, inputs);
  }
}
