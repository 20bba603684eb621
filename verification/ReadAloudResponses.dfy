/** What each input of the read-aloud core makes happen, told by the engine and the painter. */
module ReadAloudResponses {
  import opened ReadAloud
  import opened ReadAloudProperties

  /** The bytes the utterances of an action list begin at, in order. */
  function Begun(out: seq<Action>): seq<nat> {
    if out == [] then []
    else (if out[0].StartUtterance? then [out[0].at] else []) + Begun(out[1..])
  }

  /** Nothing is emitted, and the core keeps everything. */
  ghost predicate Ignored(w: World, i: Input) {
    Next(w, i) == w && Step(w.core, i).1 == []
  }

  /** What an action list amounts to: where utterances begin, how many pages turn, and what engine and
      painter are left at. */
  datatype Effect = Effect(begun: seq<nat>, turns: nat, engine: Engine, painter: Painter)

  function EffectOf(e: Engine, p: Painter, out: seq<Action>): Effect {
    Effect(Begun(out), Turns(out), PlayAll(e, out), PaintAll(p, out))
  }

  function Then(f: Effect, a: Action): Effect {
    Effect(f.begun + (if a.StartUtterance? then [a.at] else []), f.turns + (if a == TurnPageForward then 1 else 0),
           Play(f.engine, a), Paint(f.painter, a))
  }

  /** The step amounts to this. */
  ghost predicate Leads(w: World, i: Input, begun: seq<nat>, turns: nat, e: Engine, p: Painter) {
    EffectOf(Reported(w.engine, i), w.painter, Step(w.core, i).1) == Effect(begun, turns, e, p)
  }

  lemma LeadsToNext(w: World, i: Input, begun: seq<nat>, turns: nat, e: Engine, p: Painter)
    requires Leads(w, i, begun, turns, e, p)
    ensures Next(w, i).engine == e && Next(w, i).painter == p
    ensures Turns(Step(w.core, i).1) == turns
  {
    hide Step;
  }

  lemma {:induction false} BegunSnoc(out: seq<Action>, a: Action)
    ensures Begun(out + [a]) == Begun(out) + if a.StartUtterance? then [a.at] else []
  {
    if out == [] {
      assert [a][1..] == [] && [] + [a] == [a];
    } else {
      assert (out + [a])[1..] == out[1..] + [a] && (out + [a])[0] == out[0];
      BegunSnoc(out[1..], a);
    }
  }

  lemma EffectSnoc(e: Engine, p: Painter, out: seq<Action>, a: Action)
    ensures EffectOf(e, p, out + [a]) == Then(EffectOf(e, p, out), a)
  {
    BegunSnoc(out, a);
    PlaySnoc(e, p, out, a);
  }

  lemma EffectNone(e: Engine, p: Painter)
    ensures EffectOf(e, p, []) == Effect([], 0, e, p)
  {
  }

  lemma EffectOne(e: Engine, p: Painter, a: Action)
    ensures EffectOf(e, p, [a]) == Then(Effect([], 0, e, p), a)
  {
    hide EffectOf, Then;
    EffectNone(e, p);
    EffectSnoc(e, p, [], a);
    assert [] + [a] == [a];
  }

  lemma EffectTwo(e: Engine, p: Painter, a: Action, b: Action)
    ensures EffectOf(e, p, [a, b]) == Then(Then(Effect([], 0, e, p), a), b)
  {
    hide EffectOf, Then;
    EffectOne(e, p, a);
    EffectSnoc(e, p, [a], b);
    assert [a] + [b] == [a, b];
  }

  lemma EffectThree(e: Engine, p: Painter, a: Action, b: Action, c: Action)
    ensures EffectOf(e, p, [a, b, c]) == Then(Then(Then(Effect([], 0, e, p), a), b), c)
  {
    hide EffectOf, Then;
    EffectTwo(e, p, a, b);
    EffectSnoc(e, p, [a, b], c);
    assert [a, b] + [c] == [a, b, c];
  }

  /** Hushing ends in silence and darkness, and the next action acts from there. */
  lemma HushThen(w: World, a: Action)
    requires Lockstep(w)
    ensures EffectOf(w.engine, w.painter, Hush(w.core)) == Effect([], 0, Idle, Dark)
    ensures EffectOf(w.engine, w.painter, Hush(w.core) + [a]) == Then(Effect([], 0, Idle, Dark), a)
  {
    HushSilences(w);
    HushTurnsNothing(w.core);
    BegunNothing(Hush(w.core));
    EffectSnoc(w.engine, w.painter, Hush(w.core), a);
  }

  lemma BegunNothing(out: seq<Action>)
    requires forall a :: a in out ==> !a.StartUtterance?
    ensures Begun(out) == []
  {
  }

  /** What beginning at a byte amounts to, from an idle engine. */
  lemma BeginEffect(p: Painter, at: nat, shown: Painter)
    ensures var out := [StartUtterance(at)] + Highlighting(shown);
      EffectOf(Idle, p, out) == Effect([at], 0, Talking, if shown == Dark then p else shown)
    ensures var out := [StopUtterance, StartUtterance(at)] + Highlighting(shown);
      forall e :: EffectOf(e, p, out) == Effect([at], 0, Talking, if shown == Dark then p else shown)
  {
    hide EffectOf;
    forall e ensures EffectOf(e, p, [StopUtterance, StartUtterance(at)] + Highlighting(shown))
      == Effect([at], 0, Talking, if shown == Dark then p else shown)
    {
      EffectTwo(e, p, StopUtterance, StartUtterance(at));
      match shown {
        case Dark => assert [StopUtterance, StartUtterance(at)] + [] == [StopUtterance, StartUtterance(at)];
        case Shows(offset, len) =>
          EffectSnoc(e, p, [StopUtterance, StartUtterance(at)], SetHighlight(offset, len));
      }
    }
    EffectOne(Idle, p, StartUtterance(at));
    match shown {
      case Dark => assert [StartUtterance(at)] + [] == [StartUtterance(at)];
      case Shows(offset, len) => EffectSnoc(Idle, p, [StartUtterance(at)], SetHighlight(offset, len));
    }
  }

  function Highlighting(p: Painter): seq<Action> {
    match p
    case Dark => []
    case Shows(offset, len) => [SetHighlight(offset, len)]
  }

  // --- the page is read, and then the next ---

  /** A page with words, not the one being read: speech starts at its first byte, in the dark. */
  lemma PageStartsSpeech(w: World, p: Page)
    requires Lockstep(w) && w.core.enabled
    requires !p.cleared && p.utf8 != "" && !Republished(w.core, p)
    ensures Leads(w, Arrive(p), [0], 0, Talking, Dark)
    ensures var c := Next(w, Arrive(p)).core;
      c.pageText == p.utf8 && c.rects == p.rects && c.resume == 0
  {
    hide EffectOf;
    HushThen(w, StartUtterance(0));
  }

  /** The page being read, published again: only its rects are taken over. */
  lemma RepublishKeepsReading(w: World, p: Page)
    requires w.core.enabled && Republished(w.core, p)
    ensures Next(w, Arrive(p)) == w.(core := w.core.(rects := p.rects)) && Step(w.core, Arrive(p)).1 == []
  {
  }

  /** A clear silences the core, forgets the page and turns nothing. */
  lemma ClearSilences(w: World, p: Page)
    requires Lockstep(w) && w.core.enabled && p.cleared
    ensures Leads(w, Arrive(p), [], 0, Idle, Dark)
    ensures var c := Next(w, Arrive(p)).core;
      c.phase == Off && c.rects == [] && c.textBytes == 0 && c.pageText == "" && c.skipped == 0
  {
    hide EffectOf;
    HushThen(w, ClearHighlight);
  }

  /** A page read to its end is turned, once, and the core waits for the next one. */
  lemma FinishTurnsThePage(w: World)
    requires Lockstep(w) && w.engine == Talking
    ensures Leads(w, Finished, [], 1, Idle, Dark)
    ensures Next(w, Finished).core.phase == AwaitingNextPage
  {
    hide EffectOf;
    if w.core.lit {
      EffectTwo(Idle, w.painter, ClearHighlight, TurnPageForward);
      assert [ClearHighlight] + [TurnPageForward] == [ClearHighlight, TurnPageForward];
    } else {
      EffectOne(Idle, w.painter, TurnPageForward);
      assert [] + [TurnPageForward] == [TurnPageForward];
    }
  }

  /** An utterance the engine loses leaves the core Off, and turns nothing. */
  lemma CancelGoesOff(w: World)
    requires Lockstep(w) && w.engine != Idle
    ensures Leads(w, Canceled, [], 0, Idle, Dark)
    ensures Next(w, Canceled).core.phase == Off
  {
    hide EffectOf;
    EffectNone(Idle, w.painter);
    EffectOne(Idle, w.painter, ClearHighlight);
  }

  /** The next page does not come: only a waiting core gives up. */
  lemma TimeoutGivesUp(w: World, words: Lexicon)
    requires Lockstep(w) && Consistent(w.core, words)
    ensures if w.core.phase == AwaitingNextPage then
        Next(w, Timeout) == w.(core := w.core.(phase := Off)) && Step(w.core, Timeout).1 == []
      else Ignored(w, Timeout)
  {
  }

  // --- words ---

  /** A reported word is lit and becomes the resume point; a byte of no word changes neither. */
  lemma WordIsLit(w: World, b: nat, words: Lexicon)
    requires Lockstep(w) && Consistent(w.core, words) && w.engine == Talking
    ensures var w', k := Next(w, WillSpeak(b)), PlainScan(w.core.rects, b, 0);
      if k < 0 then
        Leads(w, WillSpeak(b), [], 0, Talking, w.painter) && w'.core.resume == w.core.resume
      else
        var r := w.core.rects[k];
        Leads(w, WillSpeak(b), [], 0, Talking, Shows(r.offset, r.len)) && w'.core.resume == r.offset
  {
    hide EffectOf;
    var c := w.core;
    CursorRefinesScan(c.rects, c.textBytes, c.cursor, b);
    var k := Lookup(c.rects, c.cursor, b);
    EffectNone(Talking, w.painter);
    if k >= 0 {
      EffectOne(Talking, w.painter, SetHighlight(c.rects[k].offset, c.rects[k].len));
    }
  }

  /** The word lit again is not painted again. */
  lemma WordIsPaintedOnce(w: World, b: nat, words: Lexicon)
    requires Lockstep(w) && Consistent(w.core, words) && w.engine == Talking
    ensures Next(w, WillSpeak(b)).painter == w.painter <==> Step(w.core, WillSpeak(b)).1 == []
  {
    var c, out := w.core, Step(w.core, WillSpeak(b)).1;
    CursorRefinesScan(c.rects, c.textBytes, c.cursor, b);
    Unrolled(w.engine, w.painter, out);
  }

  // --- toggles, restarts and the switch ---

  /** Play and pause: a talking engine is held, a held one talks on; from Off a page in hand is read from
      the resume point; otherwise nothing. */
  lemma TogglePlays(w: World, words: Lexicon)
    requires Lockstep(w) && Consistent(w.core, words) && w.core.enabled
    ensures var c := w.core;
      match w.engine
      case Talking => Leads(w, Toggle, [], 0, Held, w.painter) && Next(w, Toggle).core == c.(phase := Paused)
      case Held => Leads(w, Toggle, [], 0, Talking, w.painter) && Next(w, Toggle).core == c.(phase := Speaking)
      case Idle =>
        if c.phase == Off && c.pageText != "" then
          Leads(w, Toggle, [c.resume], 0, Talking, WordAt(c, c.resume)) && Next(w, Toggle).core.resume == c.resume
        else Ignored(w, Toggle)
  {
    hide EffectOf;
    var c := w.core;
    EffectOne(w.engine, w.painter, PauseUtterance);
    EffectOne(w.engine, w.painter, ResumeUtterance);
    EffectNone(w.engine, w.painter);
    if c.phase == Off && c.textBytes > 0 {
      BeginShowsWord(c, c.resume);
      BeginEffect(Dark, c.resume, WordAt(c, c.resume));
    }
  }

  /** What the painter shows when an utterance begins at a byte in the dark. */
  function WordAt(c: Core, at: nat): Painter {
    var k := PlainScan(c.rects, at, 0);
    if k < 0 then Dark else Shows(c.rects[k].offset, c.rects[k].len)
  }

  lemma BeginShowsWord(c: Core, at: nat)
    requires WellFormed(c.rects, c.textBytes) && c.textBytes > 0
    requires Beginning(c.rects, at)
    ensures var (d, out) := BeginAt(c, at);
      && d.resume == at && d.phase == Speaking
      && out == [StartUtterance(at)] + Highlighting(WordAt(c, at))
  {
    LookupBeginning(c.rects, c.textBytes, 0, at);
    CursorRefinesScan(c.rects, c.textBytes, 0, at);
  }

  lemma RestartOnWord(w: World)
    requires Lockstep(w) && w.core.enabled && w.core.phase == Speaking
    requires WellFormed(w.core.rects, w.core.textBytes) && w.core.textBytes > 0
    requires Beginning(w.core.rects, w.core.resume) && Lookup(w.core.rects, w.core.cursor, w.core.resume) >= 0
    ensures var c, out := w.core, Step(w.core, Restart).1;
      && Leads(w, Restart, [c.resume], 0, Talking, WordAt(c, c.resume))
      && out[0] == StopUtterance && Next(w, Restart).core.resume == c.resume
  {
    hide EffectOf, WordAt, BeginAt;
    var c := w.core;
    CursorRefinesScan(c.rects, c.textBytes, c.cursor, c.resume);
    BeginShowsWord(c, c.resume);
    WordIsThere(c, c.resume);
    BeginEffect(w.painter, c.resume, WordAt(c, c.resume));
    assert [StopUtterance] + [] + ([StartUtterance(c.resume)] + Highlighting(WordAt(c, c.resume)))
      == [StopUtterance, StartUtterance(c.resume)] + Highlighting(WordAt(c, c.resume));
  }

  lemma WordIsThere(c: Core, at: nat)
    requires PlainScan(c.rects, at, 0) >= 0
    ensures WordAt(c, at) != Dark
  {
  }

  lemma RestartOffWord(w: World)
    requires Lockstep(w) && w.core.enabled && w.core.phase == Speaking
    requires WellFormed(w.core.rects, w.core.textBytes) && w.core.textBytes > 0
    requires Beginning(w.core.rects, w.core.resume) && Lookup(w.core.rects, w.core.cursor, w.core.resume) < 0
    ensures var c, out := w.core, Step(w.core, Restart).1;
      && Leads(w, Restart, [c.resume], 0, Talking, Dark) && WordAt(c, c.resume) == Dark
      && out[0] == StopUtterance && Next(w, Restart).core.resume == c.resume
  {
    hide EffectOf, BeginAt;
    var c := w.core;
    CursorRefinesScan(c.rects, c.textBytes, c.cursor, c.resume);
    BeginShowsWord(Dim(c).0, c.resume);
    assert [StartUtterance(c.resume)] + [] == [StartUtterance(c.resume)];
    EffectTwo(w.engine, w.painter, StopUtterance, StartUtterance(c.resume));
    EffectThree(w.engine, w.painter, StopUtterance, ClearHighlight, StartUtterance(c.resume));
    assert [StopUtterance] + Dim(c).1 + [StartUtterance(c.resume)]
      == if c.lit then [StopUtterance, ClearHighlight, StartUtterance(c.resume)]
         else [StopUtterance, StartUtterance(c.resume)];
  }

  /** A restart stops the talking utterance and begins one at the current word; nothing else restarts. */
  lemma RestartBeginsAgain(w: World, words: Lexicon)
    requires Lockstep(w) && Consistent(w.core, words)
    ensures if w.engine == Talking then
        && Leads(w, Restart, [w.core.resume], 0, Talking, WordAt(w.core, w.core.resume))
        && Step(w.core, Restart).1[0] == StopUtterance
        && Next(w, Restart).core.resume == w.core.resume
      else Ignored(w, Restart)
  {
    hide Leads, WordAt;
    var c := w.core;
    if c.phase == Speaking {
      LookupBeginning(c.rects, c.textBytes, c.cursor, c.resume);
      if Lookup(c.rects, c.cursor, c.resume) >= 0 {
        RestartOnWord(w);
      } else {
        RestartOffWord(w);
      }
    }
  }

  /** Switched off, the core is silent and dark, and then deaf; switched on, or to what it is, it only
      remembers. */
  lemma SwitchObeys(w: World, on: bool, i: Input)
    requires Lockstep(w) && (w.core.enabled || w.core.phase == Off)
    ensures Next(w, Enable(on)).core.enabled == on
    ensures on || !w.core.enabled ==> Next(w, Enable(on)) == w.(core := w.core.(enabled := on))
    ensures !on && w.core.enabled ==>
      && Leads(w, Enable(on), [], 0, Idle, Dark) && Next(w, Enable(on)).core.phase == Off
    ensures !on && !i.Enable? ==> Step(Next(w, Enable(on)).core, i) == (Next(w, Enable(on)).core, [])
  {
    hide EffectOf;
    HushThen(w, ClearHighlight);
  }

  /** An utterance never begins past the text, whatever the rects say: it begins at the top instead. */
  lemma BeginNeverPastText(c: Core, at: nat)
    ensures var (d, out) := BeginAt(c, at);
      && Begun(out) == [if at < c.textBytes then at else 0]
      && d.resume == (if at < c.textBytes then at else 0)
  {
    hide Lookup;
    var b := if at < c.textBytes then at else 0;
    EffectOne(Idle, Dark, StartUtterance(b));
    if Lookup(c.rects, 0, b) >= 0 {
      ScanRange(c.rects, b, if c.rects == [] then 0 else ScanStart(c.rects, 0, b));
      LookupInRange(c.rects, b);
      var r := c.rects[Lookup(c.rects, 0, b)];
      EffectTwo(Idle, Dark, StartUtterance(b), SetHighlight(r.offset, r.len));
    }
  }

  lemma LookupInRange(rects: seq<Rect>, b: nat)
    ensures -1 <= Lookup(rects, 0, b) < |rects|
  {
    ScanRange(rects, b, if rects == [] then 0 else ScanStart(rects, 0, b));
  }

  // --- taps ---

  predicate Inside(r: Rect, qx: int, qy: int) {
    r.x <= qx < r.x + r.w && r.y <= qy < r.y + r.h
  }

  /** A point of the rect lies within two pixels of the tap, in either direction. */
  ghost predicate Near(r: Rect, px: int, py: int) {
    exists qx, qy :: Inside(r, qx, qy) && px - 2 <= qx <= px + 2 && py - 2 <= qy <= py + 2
  }

  lemma HitIsNear(r: Rect, px: int, py: int)
    requires r.w > 0 && r.h > 0
    ensures r.Hit(px, py) <==> Near(r, px, py)
  {
    if r.Hit(px, py) {
      var qx := if px < r.x then r.x as int else if px >= r.x + r.w then r.x + r.w - 1 else px;
      var qy := if py < r.y then r.y as int else if py >= r.y + r.h then r.y + r.h - 1 else py;
      assert Inside(r, qx, qy);
      assert px - 2 <= qx <= px + 2 && py - 2 <= qy <= py + 2;
    }
  }

  /** The first rect a tap comes near, or the number of rects. */
  ghost predicate FirstNear(rects: seq<Rect>, px: int, py: int, k: nat) {
    && k <= |rects|
    && (k < |rects| ==> Near(rects[k], px, py))
    && forall j :: 0 <= j < k ==> !Near(rects[j], px, py)
  }

  lemma TapMisses(w: World, px: int, py: int)
    requires FirstHit(w.core.rects, px, py, 0) < 0
    ensures Ignored(w, Tap(px, py))
  {
  }

  lemma TapLands(w: World, px: int, py: int, k: nat)
    requires Lockstep(w) && WellFormed(w.core.rects, w.core.textBytes)
    requires w.core.enabled && w.core.phase != AwaitingNextPage
    requires FirstHit(w.core.rects, px, py, 0) == k < |w.core.rects|
    ensures var r, i := w.core.rects[k], Tap(px, py);
      && Next(w, i).core.resume == r.offset
      && (if w.core.Live() && w.painter == Shows(r.offset, r.len) then
            Leads(w, i, [], 0, Idle, Dark) && Next(w, i).core.phase == Off
          else
            Leads(w, i, [r.offset], 0, Talking, Shows(r.offset, r.len)))
  {
    hide EffectOf;
    var c := w.core;
    var r := c.rects[k];
    BeginLights(c, k);
    EffectTwo(w.engine, w.painter, StopUtterance, ClearHighlight);
    EffectTwo(w.engine, w.painter, StartUtterance(r.offset), SetHighlight(r.offset, r.len));
    EffectThree(w.engine, w.painter, StopUtterance, StartUtterance(r.offset), SetHighlight(r.offset, r.len));
    assert [StopUtterance] + [StartUtterance(r.offset), SetHighlight(r.offset, r.len)]
      == [StopUtterance, StartUtterance(r.offset), SetHighlight(r.offset, r.len)];
    assert [] + BeginAt(c, r.offset).1 == BeginAt(c, r.offset).1;
  }

  /** A tap, while the core is enabled and not waiting: on the lit word it stops and darkens, on another
      word it speaks from there and lights it, off every word it does nothing. */
  lemma TapActsOnWord(w: World, px: int, py: int, k: nat, words: Lexicon)
    requires Lockstep(w) && Consistent(w.core, words) && w.core.enabled && w.core.phase != AwaitingNextPage
    requires forall r :: r in w.core.rects ==> r.w > 0 && r.h > 0
    requires FirstNear(w.core.rects, px, py, k)
    ensures var c, i := w.core, Tap(px, py);
      if k == |c.rects| then Ignored(w, i)
      else
        var r := c.rects[k];
        && Next(w, i).core.resume == r.offset
        && (if w.painter == Shows(r.offset, r.len) then
              Leads(w, i, [], 0, Idle, Dark) && Next(w, i).core.phase == Off
            else
              Leads(w, i, [r.offset], 0, Talking, Shows(r.offset, r.len)))
  {
    hide EffectOf, Step, Near;
    var c := w.core;
    forall j | 0 <= j < |c.rects| ensures c.rects[j].Hit(px, py) <==> Near(c.rects[j], px, py) {
      assert c.rects[j] in c.rects;
      HitIsNear(c.rects[j], px, py);
    }
    assert FirstHit(c.rects, px, py, 0) == if k == |c.rects| then -1 else k;
    if k < |c.rects| {
      TapLands(w, px, py, k);
    } else {
      TapMisses(w, px, py);
    }
  }

  /** A waiting or disabled core ignores taps. */
  lemma TapIgnored(w: World, px: int, py: int)
    requires !w.core.enabled || w.core.phase == AwaitingNextPage
    ensures Ignored(w, Tap(px, py))
  {
  }

  // --- every page turn has its cause ---

  function Tally(b: bool): nat {
    if b then 1 else 0
  }

  /** The reports of a finish that met a talking engine. */
  function Finishes(w: World, inputs: seq<Input>): nat
    decreases |inputs|
  {
    if inputs == [] then 0
    else Tally(inputs[0].Finished? && w.engine == Talking) + Finishes(Next(w, inputs[0]), inputs[1..])
  }

  lemma DisabledIgnoresPages(c: Core, p: Page)
    requires !c.enabled
    ensures Step(c, Arrive(p)) == (c, [])
  {
  }

  lemma ArriveTurns(w: World, p: Page)
    requires Lockstep(w)
    ensures Turns(Step(w.core, Arrive(p)).1) ==
      if AcceptsPage(w.core, Arrive(p)) && p.Blank() then Tally(w.core.skipped < 12) else 0
  {
    hide Step, EffectOf;
    if w.core.enabled && p.Blank() {
      BlankPageStep(w.core, p);
    } else if w.core.enabled && p.cleared {
      ClearSilences(w, p);
      LeadsToNext(w, Arrive(p), [], 0, Idle, Dark);
    } else if w.core.enabled && Republished(w.core, p) {
      RepublishKeepsReading(w, p);
    } else if w.core.enabled {
      PageStartsSpeech(w, p);
      LeadsToNext(w, Arrive(p), [0], 0, Talking, Dark);
    } else {
      DisabledIgnoresPages(w.core, p);
    }
  }

  lemma BeginTurnsNothing(c: Core, at: nat)
    ensures TurnPageForward !in BeginAt(c, at).1
  {
    hide Lookup;
  }

  lemma TapTurnsNothing(c: Core, px: int, py: int)
    ensures TurnPageForward !in Step(c, Tap(px, py)).1
  {
    hide Lookup, BeginAt;
    var k := FirstHit(c.rects, px, py, 0);
    if k >= 0 {
      BeginTurnsNothing(c, c.rects[k].offset);
    }
  }

  lemma RestartTurnsNothing(c: Core)
    ensures TurnPageForward !in Step(c, Restart).1
  {
    hide Lookup, BeginAt;
    BeginTurnsNothing(c, c.resume);
    BeginTurnsNothing(Dim(c).0, c.resume);
  }

  lemma ToggleTurnsNothing(c: Core)
    ensures TurnPageForward !in Step(c, Toggle).1
  {
    hide Lookup, BeginAt;
    BeginTurnsNothing(c, c.resume);
  }

  lemma OthersTurnNothing(c: Core, i: Input)
    requires !i.Arrive? && !i.Finished? && !i.Enable?
    ensures Turns(Step(c, i).1) == 0
  {
    hide Lookup, FirstHit, BeginAt, TapAtLogical, RestartAtCurrentWord, ToggleSpeech;
    match i {
      case Tap(x, y) => TapTurnsNothing(c, x, y);
      case Restart => RestartTurnsNothing(c);
      case Toggle => ToggleTurnsNothing(c);
      case _ =>
    }
    assert TurnPageForward !in Step(c, i).1;
  }

  lemma StepTurns(w: World, i: Input, words: Lexicon)
    requires Lockstep(w) && Consistent(w.core, words)
    ensures Turns(Step(w.core, i).1) ==
      if AcceptsPage(w.core, i) && i.page.Blank() then Tally(w.core.skipped < 12)
      else Tally(i.Finished? && w.engine == Talking)
  {
    match i {
      case Arrive(p) => ArriveTurns(w, p);
      case Finished =>
        if w.engine == Talking {
          FinishTurnsThePage(w);
          LeadsToNext(w, Finished, [], 1, Idle, Dark);
        }
      case Enable(on) => HushTurnsNothing(w.core);
      case _ => OthersTurnNothing(w.core, i);
    }
  }

  /** Over any run: the page turns are those of blank pages and of pages read to their end. */
  lemma {:induction false} EveryTurnHasItsCause(w: World, inputs: seq<Input>, words: Lexicon)
    requires Lockstep(w) && Consistent(w.core, words) && PossibleRun(w, inputs, words)
    ensures AllTurns(w.core, inputs) == BlankTurns(w.core, inputs) + Finishes(w, inputs)
    decreases |inputs|
  {
    if inputs != [] {
      StepTurns(w, inputs[0], words);
      StepKeepsLockstep(w, inputs[0], words);
      EveryTurnHasItsCause(Next(w, inputs[0]), inputs[1..], words);
    }
  }
}
