/** What the touch pipeline means, told from the event stream alone. */
module TouchProperties {
  import opened Numbers
  import opened ZenVerbs
  import opened TapCandidate
  import opened PadCore
  import opened TouchPipeline

  // --- the stream ---

  function Last(h: seq<Event>): Event
    requires h != []
  {
    h[|h| - 1]
  }

  function Init(h: seq<Event>): seq<Event>
    requires h != []
  {
    h[..|h| - 1]
  }

  /** The fingers on the glass after a stream. */
  function OnGlass(h: seq<Event>): set<int> {
    if h == [] then {}
    else match Last(h)
      case FingerDown(id, _, _, _) => OnGlass(Init(h)) + {id}
      case FingerMotion(_, _, _) => OnGlass(Init(h))
      case FingerUp(id, _, _, _, _) => OnGlass(Init(h)) - {id}
  }

  /** A finger lands before it moves or lifts, and lands again only after it lifted. */
  predicate WellFormed(h: seq<Event>) {
    h != [] ==> WellFormed(Init(h)) && (Last(h).FingerDown? <==> Last(h).id !in OnGlass(Init(h)))
  }

  /** The events since the glass was last empty, the last one included. */
  function Gesture(h: seq<Event>): seq<Event> {
    if h == [] then []
    else if OnGlass(Init(h)) == {} then [Last(h)]
    else Gesture(Init(h)) + [Last(h)]
  }

  predicate OneFinger(g: seq<Event>) {
    g != [] && forall k :: 0 < k < |g| ==> !g[k].FingerDown?
  }

  predicate Near(a: Event, b: Event, slop: real) {
    Abs(b.x - a.x) <= slop && Abs(b.y - a.y) <= slop
  }

  /** Controls that share an edge share no point of it: side by side or stacked, a point of both together
      lies on exactly one. */
  lemma EdgesAreNotShared(a: Rect, b: Rect, px: real, py: real)
    requires a.w >= 0.0 && a.h >= 0.0 && b.w >= 0.0 && b.h >= 0.0
    ensures b.x == a.x + a.w && b.y == a.y && b.h == a.h ==>
      && !(a.Holds(px, py) && b.Holds(px, py))
      && (a.Holds(px, py) || b.Holds(px, py) <==> Rect(a.x, a.y, a.w + b.w, a.h).Holds(px, py))
    ensures b.y == a.y + a.h && b.x == a.x && b.w == a.w ==>
      && !(a.Holds(px, py) && b.Holds(px, py))
      && (a.Holds(px, py) || b.Holds(px, py) <==> Rect(a.x, a.y, a.w, a.h + b.h).Holds(px, py))
    ensures a.Holds(a.x, a.y) <==> a.w > 0.0 && a.h > 0.0
  {
  }

  // --- the specifications ---

  /** The deliberate tap: one finger, not cancelled, never past the slop at any reported position
      including the lift's, and quick. */
  predicate DeliberateTap(g: seq<Event>) {
    && OneFinger(g) && Last(g).FingerUp? && !Last(g).cancelled
    && (forall k :: 0 <= k < |g| ==> Near(g[0], g[k], 28.0))
    && (g[0].FingerDown? ==> Last(g).tMs - g[0].tMs <= 400)
  }

  /** A finger that landed off every control and has not been dragged past the slop. */
  predicate StillTap(l: Layout, g: seq<Event>) {
    && OneFinger(g)
    && Hit(l.pads, g[0].x, g[0].y) < 0
    && forall k :: 0 <= k < |g| && g[k].FingerMotion? ==> Near(g[0], g[k], l.slop)
  }

  /** The control a lone finger landed on and has not left since, or -1. */
  function HeldControl(l: Layout, g: seq<Event>): int {
    if !OneFinger(g) then NO_SLOT
    else
      var k := Hit(l.pads, g[0].x, g[0].y);
      if k >= 0 && (forall i :: 0 <= i < |g| && g[i].FingerMotion? ==> l.pads[k].Holds(g[i].x, g[i].y)) then k
      else NO_SLOT
  }

  // --- running the stream ---

  function After(l: Layout, h: seq<Event>): Touch {
    if h == [] then Start(l) else Watch(l, After(l, Init(h)), Last(h)).0
  }

  function OutputOf(l: Layout, h: seq<Event>): Output
    requires h != []
  {
    Watch(l, After(l, Init(h)), Last(h)).1
  }

  // --- the classifier ---

  /** While fingers are down: one finger leaves one slot whose excursion judges every position;
      more leave at least two slots, which no lift can undo. */
  ghost predicate ZenTracks(s: Tracker, g: seq<Event>, on: set<int>) {
    && s.active == |on|
    && (on == {} ==> s == IDLE)
    && (on != {} ==>
          && g != [] && g[0].FingerDown?
          && s.firstDownMs == g[0].tMs
          && (OneFinger(g) ==>
                && on == {g[0].id}
                && |s.fingers| == 1 && s.peak == 1 && !s.overflow && !s.cancelled
                && s.fingers[0].id == g[0].id && !s.fingers[0].up
                && s.fingers[0].downX == g[0].x && s.fingers[0].downY == g[0].y
                && s.fingers[0].excursion >= 0.0
                && (s.fingers[0].excursion <= TAP_SLOP <==> forall k :: 0 <= k < |g| ==> Near(g[0], g[k], TAP_SLOP)))
          && (!OneFinger(g) ==> |s.fingers| >= 2))
  }

  lemma OneFingerGrows(g: seq<Event>, e: Event)
    requires g != []
    ensures OneFinger(g + [e]) <==> OneFinger(g) && !e.FingerDown?
    ensures (g + [e])[0] == g[0] && Last(g + [e]) == e && Init(g + [e]) == g
  {
    var g' := g + [e];
    assert Init(g') == g;
    if OneFinger(g') {
      forall k | 0 < k < |g| ensures !g[k].FingerDown? {
        assert g'[k] == g[k];
      }
      assert g'[|g|] == e;
    }
  }

  lemma NearGrows(g: seq<Event>, e: Event, slop: real)
    requires g != []
    ensures var g' := g + [e];
      (forall k :: 0 <= k < |g'| ==> Near(g'[0], g'[k], slop))
      <==> Near(g[0], e, slop) && forall k :: 0 <= k < |g| ==> Near(g[0], g[k], slop)
  {
    var g' := g + [e];
    assert g'[|g|] == e;
    forall k | 0 <= k < |g| ensures g'[k] == g[k] {
    }
  }

  lemma ZenLands(s: Tracker, g: seq<Event>, on: set<int>, e: Event)
    requires ZenTracks(s, g, on) && e.FingerDown? && e.id !in on
    ensures var s' := Landed(s, e.id, e.x, e.y, e.tMs);
      ZenTracks(s', if on == {} then [e] else g + [e], on + {e.id})
  {
    if on != {} {
      OneFingerGrows(g, e);
    }
  }

  lemma ZenMoves(s: Tracker, g: seq<Event>, on: set<int>, e: Event)
    requires ZenTracks(s, g, on) && e.FingerMotion? && e.id in on
    ensures ZenTracks(Moved(s, e.id, e.x, e.y), g + [e], on)
  {
    OneFingerGrows(g, e);
    NearGrows(g, e, TAP_SLOP);
    if OneFinger(g) {
      assert SlotOf(s.fingers, e.id) == 0;
    }
  }

  lemma ZenLifts(s: Tracker, g: seq<Event>, on: set<int>, e: Event)
    requires ZenTracks(s, g, on) && e.FingerUp? && e.id in on
    ensures var (s', verb) := Lifted(s, e.id, e.x, e.y, e.tMs, e.cancelled);
      && ZenTracks(s', g + [e], on - {e.id})
      && (verb == Down <==> on - {e.id} == {} && DeliberateTap(g + [e]))
  {
    OneFingerGrows(g, e);
    NearGrows(g, e, TAP_SLOP);
    assert |on - {e.id}| == |on| - 1;
    if on - {e.id} == {} {
      assert on == {e.id};
    }
    if OneFinger(g) {
      assert SlotOf(s.fingers, e.id) == 0;
    }
  }

  // --- the candidate ---

  ghost predicate CandTracks(l: Layout, c: Armed, g: seq<Event>, on: set<int>) {
    && c.id == (if on != {} && StillTap(l, g) then g[0].id else NOBODY)
    && (on != {} && StillTap(l, g) && g[0].FingerDown? ==> c.x == g[0].x && c.y == g[0].y && c.downMs == g[0].tMs)
  }

  lemma StillTapGrows(l: Layout, g: seq<Event>, e: Event)
    requires g != []
    ensures StillTap(l, g + [e]) <==>
      StillTap(l, g) && !e.FingerDown? && (e.FingerMotion? ==> Near(g[0], e, l.slop))
  {
    OneFingerGrows(g, e);
    var g' := g + [e];
    assert g'[|g|] == e;
    forall k | 0 <= k < |g| ensures g'[k] == g[k] {
    }
  }

  lemma CandSteps(l: Layout, c: Armed, s: Tracker, g: seq<Event>, on: set<int>, e: Event)
    requires ZenTracks(s, g, on) && CandTracks(l, c, g, on) && (e.FingerDown? <==> e.id !in on)
    ensures e.FingerDown? ==>
      CandTracks(l, if on != {} then c.(id := NOBODY)
                    else Arm(c, e.id, e.x, e.y, e.tMs, Hit(l.pads, e.x, e.y) >= 0, 1),
                 if on == {} then [e] else g + [e], on + {e.id})
    ensures e.FingerMotion? ==> CandTracks(l, Drag(c, e.id, e.x, e.y, l.slop), g + [e], on)
    ensures e.FingerUp? ==>
      var (c', tap) := Lift(c, e.id, e.cancelled);
      && CandTracks(l, c', g + [e], on - {e.id})
      && (tap <==> !e.cancelled && (StillTap(l, g + [e]) || e.id == NOBODY))
  {
    if on != {} {
      StillTapGrows(l, g, e);
      if e.FingerUp? && !OneFinger(g) {
        assert !StillTap(l, g + [e]);
      }
    }
  }

  // --- the pad ---

  ghost predicate PadTracks(l: Layout, slots: seq<Holder>, g: seq<Event>, on: set<int>) {
    && |slots| == |l.pads|
    && forall i :: 0 <= i < |slots| ==>
         slots[i] == if on != {} && HeldControl(l, g) == i then Held(g[0].id) else Nobody
  }

  lemma HeldControlGrows(l: Layout, g: seq<Event>, e: Event)
    requires g != []
    ensures var k, k' := HeldControl(l, g), HeldControl(l, g + [e]);
      k' == if k >= 0 && !e.FingerDown? && (e.FingerMotion? ==> l.pads[k].Holds(e.x, e.y)) then k else NO_SLOT
  {
    OneFingerGrows(g, e);
    var g' := g + [e];
    assert g'[|g|] == e;
    forall k | 0 <= k < |g| ensures g'[k] == g[k] {
    }
  }

  lemma PadSteps(l: Layout, slots: seq<Holder>, s: Tracker, g: seq<Event>, on: set<int>, e: Event)
    requires ZenTracks(s, g, on) && PadTracks(l, slots, g, on) && (e.FingerDown? <==> e.id !in on)
    ensures e.FingerDown? ==>
      PadTracks(l, if on != {} then Empty(|slots|) else Pressed(slots, Hit(l.pads, e.x, e.y), e.id).0,
                if on == {} then [e] else g + [e], on + {e.id})
    ensures e.FingerMotion? ==>
      var k := HeldSlot(slots, e.id);
      PadTracks(l, if 0 <= k < |l.pads| && !l.pads[k].Holds(e.x, e.y) then Let(slots, e.id).0 else slots, g + [e], on)
    ensures e.FingerUp? ==> PadTracks(l, Let(slots, e.id).0, g + [e], on - {e.id})
  {
    if on != {} {
      HeldControlGrows(l, g, e);
      if !e.FingerDown? && OneFinger(g) {
        assert e.id == g[0].id;
        var k := HeldControl(l, g);
        if k >= 0 {
          assert slots[k] == Held(e.id);
        }
      }
    }
  }

  // --- button edges ---

  function Buttons(slots: seq<Holder>): set<nat> {
    set i: nat | i < |slots| && slots[i].Held?
  }

  /** A press of a button that is up, or a release of one that is down. */
  predicate IsEdge(down: set<nat>, a: PadCore.Action) {
    a.Press? <==> a.slot !in down
  }

  function Edge(down: set<nat>, a: PadCore.Action): set<nat> {
    if a.Press? then down + {a.slot} else down - {a.slot}
  }

  predicate Alternates(down: set<nat>, actions: seq<PadCore.Action>)
    decreases |actions|
  {
    actions != [] ==> IsEdge(down, actions[0]) && Alternates(Edge(down, actions[0]), actions[1..])
  }

  function Edges(down: set<nat>, actions: seq<PadCore.Action>): set<nat>
    decreases |actions|
  {
    if actions == [] then down else Edges(Edge(down, actions[0]), actions[1..])
  }

  lemma EdgesSnoc(down: set<nat>, actions: seq<PadCore.Action>, a: PadCore.Action)
    ensures Alternates(down, actions + [a]) <==> Alternates(down, actions) && IsEdge(Edges(down, actions), a)
    ensures Edges(down, actions + [a]) == Edge(Edges(down, actions), a)
    decreases |actions|
  {
    if actions == [] {
      assert ([] + [a])[1..] == [];
    } else {
      assert (actions + [a])[1..] == actions[1..] + [a];
      EdgesSnoc(Edge(down, actions[0]), actions[1..], a);
    }
  }

  function ButtonsFrom(slots: seq<Holder>, n: nat): set<nat> {
    set i: nat | n <= i < |slots| && slots[i].Held?
  }

  lemma {:induction false} ReleasesAlternate(slots: seq<Holder>, n: nat)
    requires n <= |slots|
    ensures Alternates(Buttons(slots), Releases(slots, n))
    ensures Edges(Buttons(slots), Releases(slots, n)) == ButtonsFrom(slots, n)
  {
    if n > 0 {
      ReleasesAlternate(slots, n - 1);
      var before := Releases(slots, n - 1);
      if slots[n - 1].Held? {
        EdgesSnoc(Buttons(slots), before, Release(n - 1));
        assert Releases(slots, n) == before + [Release(n - 1)];
        assert ButtonsFrom(slots, n) == ButtonsFrom(slots, n - 1) - {n - 1};
      } else {
        assert Releases(slots, n) == before;
        assert ButtonsFrom(slots, n) == ButtonsFrom(slots, n - 1);
      }
    }
  }

  lemma SingleEdge(down: set<nat>, a: PadCore.Action)
    ensures Alternates(down, [a]) <==> IsEdge(down, a)
    ensures Edges(down, [a]) == Edge(down, a)
  {
    assert [a][1..] == [];
  }

  lemma PressAlternates(slots: seq<Holder>, slot: int, finger: int)
    ensures var (slots', actions) := Pressed(slots, slot, finger);
      Alternates(Buttons(slots), actions) && Edges(Buttons(slots), actions) == Buttons(slots')
  {
    if 0 <= slot < |slots| && !slots[slot].Held? {
      SingleEdge(Buttons(slots), Press(slot));
      assert Buttons(slots[slot := Held(finger)]) == Buttons(slots) + {slot};
    }
  }

  lemma LetAlternates(slots: seq<Holder>, finger: int)
    ensures var (slots', actions) := Let(slots, finger);
      Alternates(Buttons(slots), actions) && Edges(Buttons(slots), actions) == Buttons(slots')
  {
    var k := HeldSlot(slots, finger);
    if k >= 0 {
      SingleEdge(Buttons(slots), Release(k));
      assert Buttons(slots[k := Nobody]) == Buttons(slots) - {k};
    }
  }

  /** Whatever the slots, the actions an event emits are edges of the buttons that are down. */
  lemma StepAlternates(l: Layout, t: Touch, e: Event)
    requires |t.slots| == |l.pads|
    ensures var (t', out) := Watch(l, t, e);
      Alternates(Buttons(t.slots), out.actions) && Edges(Buttons(t.slots), out.actions) == Buttons(t'.slots)
  {
    match e {
      case FingerDown(id, x, y, _) =>
        ReleasesAlternate(t.slots, |t.slots|);
        PressAlternates(t.slots, Hit(l.pads, x, y), id);
      case FingerMotion(id, _, _) => LetAlternates(t.slots, id);
      case FingerUp(id, _, _, _, _) => LetAlternates(t.slots, id);
    }
  }

  // --- the laws ---

  ghost predicate Tracks(l: Layout, t: Touch, h: seq<Event>) {
    var g, on := Gesture(h), OnGlass(h);
    ZenTracks(t.zen, g, on) && CandTracks(l, t.cand, g, on) && PadTracks(l, t.slots, g, on)
  }

  lemma {:induction false} StreamTracks(l: Layout, h: seq<Event>)
    requires WellFormed(h)
    ensures Tracks(l, After(l, h), h)
    decreases |h|
  {
    if h != [] {
      StreamTracks(l, Init(h));
      var t, e, g, on := After(l, Init(h)), Last(h), Gesture(Init(h)), OnGlass(Init(h));
      CandSteps(l, t.cand, t.zen, g, on, e);
      PadSteps(l, t.slots, t.zen, g, on, e);
      match e {
        case FingerDown(_, _, _, _) => ZenLands(t.zen, g, on, e);
        case FingerMotion(_, _, _) => ZenMoves(t.zen, g, on, e);
        case FingerUp(_, _, _, _, _) => ZenLifts(t.zen, g, on, e);
      }
    }
  }

  /** The classifier answers exactly the deliberate taps of the stream. */
  lemma VerbIsDeliberateTap(l: Layout, h: seq<Event>)
    requires WellFormed(h) && h != []
    ensures OutputOf(l, h).verb == Down <==>
      Last(h).FingerUp? && OnGlass(h) == {} && DeliberateTap(Gesture(h))
  {
    StreamTracks(l, Init(h));
    var t, e := After(l, Init(h)), Last(h);
    if e.FingerUp? {
      ZenLifts(t.zen, Gesture(Init(h)), OnGlass(Init(h)), e);
    }
  }

  /** A chip or word tap fires exactly on the uncancelled lift of a lone finger that landed off every
      control and stayed within the slop; and, whatever it did, of a finger whose id is the "nobody" id. */
  lemma TapIsStillTap(l: Layout, h: seq<Event>)
    requires WellFormed(h) && h != []
    ensures OutputOf(l, h).tap <==>
      Last(h).FingerUp? && !Last(h).cancelled && (StillTap(l, Gesture(h)) || Last(h).id == NOBODY)
  {
    StreamTracks(l, Init(h));
    var t, e := After(l, Init(h)), Last(h);
    CandSteps(l, t.cand, t.zen, Gesture(Init(h)), OnGlass(Init(h)), e);
  }

  /** A finger with the "nobody" id lands second and lifts far away: a tap fires. */
  lemma NobodyTaps(l: Layout)
    ensures var h := [FingerDown(7, 0.0, 0.0, 0), FingerDown(NOBODY, 50.0, 0.0, 10),
                      FingerUp(NOBODY, 500.0, 500.0, 900, false)];
      WellFormed(h) && OutputOf(l, h).tap && !StillTap(l, Gesture(h))
  {
    var a, b := FingerDown(7, 0.0, 0.0, 0), FingerDown(NOBODY, 50.0, 0.0, 10);
    var c := FingerUp(NOBODY, 500.0, 500.0, 900, false);
    var h := [a, b, c];
    assert Init(h) == [a, b] && Init([a, b]) == [a] && Init([a]) == [];
    assert OnGlass([a]) == {7} && OnGlass([a, b]) == {7, NOBODY};
    assert WellFormed([]) && WellFormed([a]) && WellFormed([a, b]) && NOBODY in OnGlass([a, b]);
    assert Gesture([a]) == [a] && Gesture([a, b]) == [a] + [b] && Gesture(h) == [a] + [b] + [c];
    assert Gesture(h)[1].FingerDown?;
    TapIsStillTap(l, h);
  }

  /** The count is the fingers on the glass; a slot is held exactly by a lone finger on its control. */
  lemma PadHoldsLoneFinger(l: Layout, h: seq<Event>)
    requires WellFormed(h)
    ensures var t := After(l, h);
      && t.zen.active == |OnGlass(h)|
      && |t.slots| == |l.pads|
      && Buttons(t.slots) == (if OnGlass(h) != {} && HeldControl(l, Gesture(h)) >= 0
                           then {HeldControl(l, Gesture(h)) as nat} else {})
  {
    StreamTracks(l, h);
  }

  function ButtonsAfter(l: Layout, h: seq<Event>): set<nat> {
    if h == [] then {} else Edges(ButtonsAfter(l, Init(h)), OutputOf(l, h).actions)
  }

  /** Replayed on the buttons, presses and releases alternate, and the buttons down are the slots held. */
  lemma {:induction false} EdgesFollowSlots(l: Layout, h: seq<Event>)
    requires WellFormed(h)
    ensures ButtonsAfter(l, h) == Buttons(After(l, h).slots)
    ensures h != [] ==> Alternates(ButtonsAfter(l, Init(h)), OutputOf(l, h).actions)
    decreases |h|
  {
    if h != [] {
      EdgesFollowSlots(l, Init(h));
      PadHoldsLoneFinger(l, Init(h));
      StepAlternates(l, After(l, Init(h)), Last(h));
    }
  }
}
