/** What the e-ink panel keeps: bounded ghosts that fade, a 7:1 floor, a glass that never jumps,
    and a clearing refresh that forgets every history. */
module EinkPanelProperties {
  import opened Numbers
  import opened EinkOptics
  import opened EinkPanel

  // --- runs ---

  datatype Event =
    | Show(levels: seq<Level>, w: nat, h: nat, t: Refresh, lut: Ramp, now: nat, isX3: bool)
    | Shake(now: nat)
    | Frame(now: nat)
    | Stop
    | Drop

  /** The firmware hands over a whole page. Clock readings are free. */
  predicate Fits(e: Event) {
    e.Show? ==> |e.levels| == e.w * e.h
  }

  predicate AllFit(events: seq<Event>) {
    events != [] ==> Fits(events[0]) && AllFit(events[1..])
  }

  ghost function Apply(lin: Curve, s: Panel, e: Event): Panel
    requires NonNegative(lin) && Sized(s) && Fits(e)
  {
    match e
    case Show(levels, w, h, t, lut, now, isX3) => OnLevels(lin, s, levels, w, h, t, lut, now, isX3)
    case Shake(now) => RequestFull(s, now)
    case Frame(now) => FlashStep(s, now)
    case Stop => EndFlash(s)
    case Drop => Invalidate(s)
  }

  lemma ApplyKeepsSound(lin: Curve, s: Panel, e: Event)
    requires Sound(lin, s) && Fits(e)
    ensures Sound(lin, Apply(lin, s, e))
    ensures e.Show? ==> Apply(lin, s, e).valid
  {
    hide GhostCap, Fade, Shown, ProgramFor, TotalFrames;
  }

  /** The panel after a run; every panel it passes through is sound. */
  ghost function After(lin: Curve, s: Panel, events: seq<Event>): (s': Panel)
    requires Sound(lin, s) && AllFit(events)
    ensures Sound(lin, s')
    decreases |events|
  {
    if events == [] then s
    else
      ApplyKeepsSound(lin, s, events[0]);
      After(lin, Apply(lin, s, events[0]), events[1..])
  }

  // --- ghosts fade ---

  function FadeN(g: int, n: nat): int {
    if n == 0 then g else Fade(FadeN(g, n - 1))
  }

  lemma FadeMoves(g: int)
    ensures g > 0 ==> 0 <= Fade(g) < g
    ensures -12 <= g <= 0 ==> Fade(g) == g
    ensures g < -12 ==> g < Fade(g) <= -12
  {
  }

  lemma FadeMonotone(g: int, h: int)
    requires g <= h
    ensures Fade(g) <= Fade(h)
  {
  }

  lemma {:induction false} FadeNMonotone(g: int, h: int, n: nat)
    requires g <= h
    ensures FadeN(g, n) <= FadeN(h, n)
  {
    if n > 0 {
      FadeNMonotone(g, h, n - 1);
      FadeMonotone(FadeN(g, n - 1), FadeN(h, n - 1));
    }
  }

  /** Where a ghost comes to rest: nothing above zero, -12 from below it, itself in between. */
  function Rest(g: int): int {
    if g > 0 then 0 else if g < -12 then -12 else g
  }

  /** Each refresh moves a ghost at least one sixteenth of a level closer to its rest. */
  lemma {:induction false} FadeReachesRest(g: int, n: nat)
    ensures n >= (if g > 0 then g else if g < -12 then -12 - g else 0) ==> FadeN(g, n) == Rest(g)
    ensures if g > 0 then 0 <= FadeN(g, n) <= (if n <= g then g - n else 0)
            else FadeN(g, n) <= Rest(g) && FadeN(g, n) >= (if g + n <= Rest(g) then g + n else Rest(g))
  {
    if n > 0 {
      FadeReachesRest(g, n - 1);
      FadeMoves(FadeN(g, n - 1));
    }
  }

  const QUIET := 46

  /** Five fades, each checked by itself. */
  lemma FiveFades(g: int, n: nat, a: int, b: int, c: int, d: int, e: int, f: int)
    requires FadeN(g, n) == a
    requires Fade(a) == b && Fade(b) == c && Fade(c) == d && Fade(d) == e && Fade(e) == f
    ensures FadeN(g, n + 4) == e && FadeN(g, n + 5) == f
  {
    assert FadeN(g, n + 1) == b;
    assert FadeN(g, n + 2) == c;
    assert FadeN(g, n + 3) == d;
  }

  lemma DarkestFades()
    ensures FadeN(-GHOST_LIMIT, 25) == -58
  {
    var g := -GHOST_LIMIT;
    FiveFades(g, 0, -416, -383, -353, -325, -299, -276);
    FiveFades(g, 5, -276, -254, -234, -216, -199, -184);
    FiveFades(g, 10, -184, -170, -157, -145, -134, -124);
    FiveFades(g, 15, -124, -115, -106, -98, -91, -84);
    FiveFades(g, 20, -84, -78, -72, -67, -62, -58);
  }

  lemma DarkestVanishes(g: int, n: nat)
    requires FadeN(g, n) == -58
    ensures FadeN(g, n + 20) == -16 && FadeN(g, n + 21) == -15
  {
    FiveFades(g, n + 0, -58, -54, -50, -46, -43, -40);
    FiveFades(g, n + 5, -40, -37, -35, -33, -31, -29);
    FiveFades(g, n + 10, -29, -27, -25, -23, -22, -21);
    FiveFades(g, n + 15, -21, -20, -19, -18, -17, -16);
    assert FadeN(g, n + 21) == Fade(FadeN(g, n + 20));
  }

  lemma LightestFades()
    ensures FadeN(GHOST_LIMIT, 25) == 46
  {
    var g := GHOST_LIMIT;
    FiveFades(g, 0, 416, 382, 351, 322, 296, 272);
    FiveFades(g, 5, 272, 250, 229, 210, 193, 177);
    FiveFades(g, 10, 177, 162, 149, 137, 126, 115);
    FiveFades(g, 15, 115, 105, 96, 88, 80, 73);
    FiveFades(g, 20, 73, 67, 61, 56, 51, 46);
  }

  lemma LightestVanishes(g: int, n: nat)
    requires FadeN(g, n) == 46
    ensures FadeN(g, n + 21) == 3
  {
    FiveFades(g, n + 0, 46, 42, 38, 34, 31, 28);
    FiveFades(g, n + 5, 28, 25, 22, 20, 18, 16);
    FiveFades(g, n + 10, 16, 14, 12, 11, 10, 9);
    FiveFades(g, n + 15, 9, 8, 7, 6, 5, 4);
    assert FadeN(g, n + 21) == Fade(FadeN(g, n + 20));
  }

  /** After forty-six refreshes no ghost is a whole level any more; after forty-five the darkest still is. */
  lemma QuietIsEnough(g: int)
    requires -GHOST_LIMIT <= g <= GHOST_LIMIT
    ensures -15 <= FadeN(g, QUIET) <= 15
    ensures g == -GHOST_LIMIT ==> FadeN(g, QUIET - 1) == -16
  {
    DarkestFades();
    DarkestVanishes(-GHOST_LIMIT, 25);
    LightestFades();
    LightestVanishes(GHOST_LIMIT, 25);
    FadeNMonotone(-GHOST_LIMIT, g, QUIET);
    FadeNMonotone(g, GHOST_LIMIT, QUIET);
  }

  /** A FAST refresh of the same page size that redraws pixel `i` at the level it already has. */
  predicate LeavesAlone(s: Panel, e: Event, i: nat) {
    && s.valid && i < |s.prev|
    && e.Show? && e.t == FastRefresh && e.w == s.w && e.h == s.h
    && i < |e.levels| && e.levels[i] == s.prev[i]
  }

  ghost predicate AllLeaveAlone(lin: Curve, s: Panel, events: seq<Event>, i: nat)
    requires Sound(lin, s) && AllFit(events)
    decreases |events|
  {
    events != [] ==>
      && LeavesAlone(s, events[0], i)
      && (ApplyKeepsSound(lin, s, events[0]); AllLeaveAlone(lin, Apply(lin, s, events[0]), events[1..], i))
  }

  lemma QuietStep(lin: Curve, s: Panel, e: Event, i: nat)
    requires Sound(lin, s) && Fits(e) && LeavesAlone(s, e, i)
    ensures var s' := Apply(lin, s, e);
      && s'.valid && |s'.prev| == |s.prev| == |s'.residue|
      && s'.prev[i] == s.prev[i] && s'.residue[i] == Fade(s.residue[i])
  {
    FadeMoves(s.residue[i]);
  }

  lemma {:induction false} QuietRun(lin: Curve, s: Panel, events: seq<Event>, i: nat)
    requires Sound(lin, s) && AllFit(events) && s.valid && i < |s.prev|
    requires AllLeaveAlone(lin, s, events, i)
    ensures var s' := After(lin, s, events);
      && s'.valid && |s'.prev| == |s.prev| == |s'.residue|
      && s'.prev[i] == s.prev[i] && s'.residue[i] == FadeN(s.residue[i], |events|)
    decreases |events|
  {
    hide Apply, Fits, LeavesAlone, Fade;
    if events != [] {
      ApplyKeepsSound(lin, s, events[0]);
      QuietStep(lin, s, events[0], i);
      QuietRun(lin, Apply(lin, s, events[0]), events[1..], i);
      FadeFirst(s.residue[i], |events|);
    }
  }

  lemma {:induction false} FadeFirst(g: int, n: nat)
    requires n > 0
    ensures FadeN(g, n) == FadeN(Fade(g), n - 1)
  {
    if n > 1 {
      FadeFirst(g, n - 1);
    } else {
      assert FadeN(g, 0) == g;
    }
  }

  lemma {:induction false} SmallStaysSmall(g: int, n: nat)
    requires -15 <= FadeN(g, QUIET) <= 15 && n >= QUIET
    ensures -15 <= FadeN(g, n) <= 15
  {
    if n > QUIET {
      SmallStaysSmall(g, n - 1);
      FadeMoves(FadeN(g, n - 1));
    }
  }

  /** A pixel left alone by forty-six FAST refreshes is shown at exactly the level it was drawn with,
      from any sound panel and whatever happens to every other pixel and to the palette. */
  lemma QuietPixelIsExact(lin: Curve, s: Panel, events: seq<Event>, i: nat)
    requires Sound(lin, s) && AllFit(events) && s.valid && i < |s.prev|
    requires AllLeaveAlone(lin, s, events, i) && |events| >= QUIET
    ensures var s' := After(lin, s, events);
      s'.valid && |s'.prev| == |s.prev| && Displayed(s')[i] == s'.prev[i] == s.prev[i]
  {
    QuietRun(lin, s, events, i);
    QuietIsEnough(s.residue[i]);
    SmallStaysSmall(s.residue[i], |events|);
  }

  function Repeat(e: Event, n: nat): seq<Event> {
    if n == 0 then [] else [e] + Repeat(e, n - 1)
  }

  /** The page the panel holds, shown again as a FAST refresh. */
  predicate Redraws(s: Panel, e: Event) {
    s.valid && e.Show? && e.t == FastRefresh && e.w == s.w && e.h == s.h && e.levels == s.prev
  }

  lemma RedrawStep(lin: Curve, s: Panel, e: Event)
    requires Sound(lin, s) && Redraws(s, e)
    ensures Fits(e) && Sound(lin, Apply(lin, s, e)) && Redraws(Apply(lin, s, e), e)
    ensures forall i :: 0 <= i < |s.prev| ==> LeavesAlone(s, e, i)
  {
    ApplyKeepsSound(lin, s, e);
  }

  lemma {:induction false} RedrawLeavesAlone(lin: Curve, s: Panel, e: Event, n: nat, i: nat)
    requires Sound(lin, s) && Redraws(s, e) && i < |s.prev|
    ensures AllFit(Repeat(e, n)) && AllLeaveAlone(lin, s, Repeat(e, n), i)
    decreases n, 1
  {
    if n > 0 {
      RedrawStep(lin, s, e);
      RedrawnRest(lin, s, e, n, i);
    }
  }

  lemma {:induction false} RedrawnRest(lin: Curve, s: Panel, e: Event, n: nat, i: nat)
    requires n > 0
    requires Sound(lin, s) && Fits(e) && LeavesAlone(s, e, i)
    requires Sound(lin, Apply(lin, s, e)) && Redraws(Apply(lin, s, e), e)
    requires i < |Apply(lin, s, e).prev|
    ensures AllFit(Repeat(e, n)) && AllLeaveAlone(lin, s, Repeat(e, n), i)
    decreases n, 0
  {
    hide OnLevels, LeavesAlone;
    assert Repeat(e, n)[0] == e && Repeat(e, n)[1..] == Repeat(e, n - 1);
    RedrawLeavesAlone(lin, Apply(lin, s, e), e, n - 1, i);
  }

  /** Redrawing any page forty-six times shows it exactly, pixel by pixel. */
  lemma RedrawnPageIsExact(lin: Curve, s: Panel, e: Event, n: nat, i: nat)
    requires Sound(lin, s) && Redraws(s, e) && i < |s.prev| && n >= QUIET
    ensures AllFit(Repeat(e, n))
    ensures var s' := After(lin, s, Repeat(e, n));
      s'.valid && |s'.prev| == |e.levels| && Displayed(s')[i] == e.levels[i]
  {
    hide Apply, Sound, LeavesAlone, Fits;
    RedrawLeavesAlone(lin, s, e, n, i);
    RepeatLength(e, n);
    QuietPixelIsExact(lin, s, Repeat(e, n), i);
  }

  lemma {:induction false} RepeatLength(e: Event, n: nat)
    ensures |Repeat(e, n)| == n
  {
    if n > 0 {
      RepeatLength(e, n - 1);
    }
  }

  // --- the contrast floor ---

  ghost predicate MonotoneRamp(lin: Curve, lut: Ramp) {
    forall a: Level, b: Level :: a <= b ==> Luminance(lin, lut[a]) <= Luminance(lin, lut[b])
  }

  lemma WiderPair(hi: real, lo: real, hi': real, lo': real)
    requires 0.0 <= lo' <= lo && 0.0 <= hi <= hi'
    ensures (hi + 0.05) / (lo + 0.05) <= (hi' + 0.05) / (lo' + 0.05)
  {
    var a, b, c, d := hi + 0.05, lo + 0.05, hi' + 0.05, lo' + 0.05;
    CrossDivide(a, b, c, b);
    CrossDivide(c, b, c, d);
  }

  lemma CrossDivide(a: real, b: real, c: real, d: real)
    requires 0.0 < a <= c && 0.0 < d <= b && (a == c || b == d)
    ensures a / b <= c / d
  {
    var q, q' := a / b, c / d;
    assert q * b == a && q' * d == c;
    Cancel(0.0, q, b);
    if a == c {
      assert q * d <= q * b;
    }
    Cancel(q, q', d);
  }

  /** Pulling the darker level up or the lighter level down never raises the contrast of a monotone ramp. */
  lemma ContrastShrinks(lin: Curve, lut: Ramp, a: Level, b: Level, a': Level, b': Level)
    requires NonNegative(lin) && MonotoneRamp(lin, lut)
    requires a' <= a <= b <= b'
    requires Luminance(lin, lut[a]) >= 0.0 && Luminance(lin, lut[b]) >= 0.0
    requires Luminance(lin, lut[a']) >= 0.0 && Luminance(lin, lut[b']) >= 0.0
    ensures Contrast(lin, lut[a], lut[b]) <= Contrast(lin, lut[a'], lut[b'])
  {
    WiderPair(Luminance(lin, lut[b]), Luminance(lin, lut[a]), Luminance(lin, lut[b']), Luminance(lin, lut[a']));
  }

  lemma {:induction false} PassingRun(lin: Curve, lut: Ramp, g: nat, k: Level)
    requires NonNegative(lin) && g <= DESIGN_CAP + 1
    ensures Luminance(lin, lut[k]) >= 0.0 && Luminance(lin, lut[255 - k]) >= 0.0
    ensures g <= k <= LastPassing(lin, lut, g) ==> Passes(lin, lut, k)
    ensures k == LastPassing(lin, lut, g) + 1 <= DESIGN_CAP ==> !Passes(lin, lut, k)
    decreases DESIGN_CAP + 1 - g
  {
    LuminanceNonNegative(lin, lut[k]);
    LuminanceNonNegative(lin, lut[255 - k]);
    if g <= DESIGN_CAP && LastPassing(lin, lut, g) >= g {
      PassingRun(lin, lut, g + 1, k);
    }
  }

  /** The cap itself passes when anything does, and on a monotone ramp no larger level does. */
  lemma CapIsLargest(lin: Curve, lut: Ramp, g: Level)
    requires NonNegative(lin) && g <= DESIGN_CAP
    ensures Luminance(lin, lut[g]) >= 0.0 && Luminance(lin, lut[255 - g]) >= 0.0
    ensures Luminance(lin, lut[0]) >= 0.0 && Luminance(lin, lut[255]) >= 0.0
    ensures Passes(lin, lut, 0) && g <= GhostCap(lin, lut) ==> Passes(lin, lut, g)
    ensures MonotoneRamp(lin, lut) && g > GhostCap(lin, lut) ==> !Passes(lin, lut, g)
  {
    hide Luminance, Contrast, MonotoneRamp;
    PassingRun(lin, lut, 0, g);
    PassingRun(lin, lut, 0, 0);
    var last := LastPassing(lin, lut, 0);
    if MonotoneRamp(lin, lut) && g > GhostCap(lin, lut) {
      PassingRun(lin, lut, 0, last + 1);
      ContrastShrinks(lin, lut, g, 255 - g, last + 1, 255 - (last + 1));
    }
  }

  /** Nothing passes at a level above one that fails. */
  ghost predicate PassesDownward(lin: Curve, lut: Ramp)
    requires NonNegative(lin)
  {
    forall g: Level, h: Level :: g < h <= DESIGN_CAP && Allowed(lin, lut, h) ==> Allowed(lin, lut, g)
  }

  ghost predicate Allowed(lin: Curve, lut: Ramp, g: Level)
    requires NonNegative(lin)
  {
    LuminanceNonNegative(lin, lut[g]);
    LuminanceNonNegative(lin, lut[255 - g]);
    Passes(lin, lut, g)
  }

  /** The largest symmetric ghost that passes is what the loop returns exactly when the levels that pass
      are an unbroken run: on any other ramp it stops early. */
  lemma CapIsLargestIff(lin: Curve, lut: Ramp)
    requires NonNegative(lin)
    ensures (forall g: Level :: g <= DESIGN_CAP && Allowed(lin, lut, g) ==> g <= GhostCap(lin, lut))
      <==> PassesDownward(lin, lut)
  {
    hide Passes, GhostCap, LastPassing;
    forall g: Level | g <= DESIGN_CAP ensures PassingFacts(lin, lut, g) {
      CapSplits(lin, lut, g);
    }
    if forall g: Level :: g <= DESIGN_CAP && Allowed(lin, lut, g) ==> g <= GhostCap(lin, lut) {
      forall g: Level, h: Level | g < h <= DESIGN_CAP && Allowed(lin, lut, h) ensures Allowed(lin, lut, g) {
        assert PassingFacts(lin, lut, h) && PassingFacts(lin, lut, g);
      }
    } else {
      var g: Level :| g <= DESIGN_CAP && Allowed(lin, lut, g) && g > GhostCap(lin, lut);
      CapStops(lin, lut, g);
    }
  }

  /** Below the cap everything passes; at 0 the cap says nothing unless the bare palette passes. */
  ghost predicate PassingFacts(lin: Curve, lut: Ramp, g: Level)
    requires NonNegative(lin)
  {
    g <= GhostCap(lin, lut) && GhostCap(lin, lut) > 0 ==> Allowed(lin, lut, g)
  }

  lemma CapSplits(lin: Curve, lut: Ramp, g: Level)
    requires NonNegative(lin) && g <= DESIGN_CAP
    ensures PassingFacts(lin, lut, g)
  {
    PassingRun(lin, lut, 0, g);
  }

  /** The level the loop stopped at fails, so a larger one that passes leaves a gap. */
  lemma CapStops(lin: Curve, lut: Ramp, g: Level)
    requires NonNegative(lin) && GhostCap(lin, lut) < g <= DESIGN_CAP && Allowed(lin, lut, g)
    ensures !PassesDownward(lin, lut)
  {
    hide Passes, Luminance, LastPassing;
    var stop := LastPassing(lin, lut, 0) + 1;
    PassingRun(lin, lut, 0, stop);
    assert stop < g && !Allowed(lin, lut, stop);
  }

  const BLACK: Color := 0
  const WHITE: Color := 0xFFFFFF

  /** Black ink and white paper, with one stray white among the inks. */
  const GAPPED: Ramp := seq(256, i => if i == 1 || i >= 128 then WHITE else BLACK)

  /** On that ramp, under any curve from 0 for black to 1 for white, the loop stops at 0 although every
      level from 2 up passes. */
  lemma GappedRampStopsEarly(lin: Curve, g: Level)
    requires NonNegative(lin) && lin(0) == 0.0 && lin(255) == 1.0 && 2 <= g <= DESIGN_CAP
    ensures GhostCap(lin, GAPPED) == 0 && Allowed(lin, GAPPED, g)
  {
    BlackAndWhite(lin);
    assert GAPPED[0] == GAPPED[g] == BLACK && GAPPED[1] == GAPPED[254] == GAPPED[255] == GAPPED[255 - g] == WHITE;
    LuminanceNonNegative(lin, BLACK);
    LuminanceNonNegative(lin, WHITE);
    assert !Passes(lin, GAPPED, 1) && Passes(lin, GAPPED, 0);
    assert LastPassing(lin, GAPPED, 1) == 0;
    assert LastPassing(lin, GAPPED, 0) == 0;
  }

  lemma BlackAndWhite(lin: Curve)
    requires NonNegative(lin) && lin(0) == 0.0 && lin(255) == 1.0
    ensures Luminance(lin, BLACK) == 0.0 && Luminance(lin, WHITE) == 1.0
    ensures Contrast(lin, BLACK, WHITE) >= CONTRAST_FLOOR > Contrast(lin, WHITE, WHITE)
  {
    assert WHITE / 0x1_0000 % 0x100 == 255 && WHITE / 0x100 % 0x100 == 255 && WHITE % 0x100 == 255;
    assert Luminance(lin, WHITE) == 1.0;
    assert 1.05 / 0.05 == 21.0 && 1.05 / 1.05 == 1.0;
  }

  lemma GhostsStayNearTheRails(g: int, cap: nat)
    requires cap <= DESIGN_CAP
    ensures 0 <= Shown(0, g, cap) <= cap && 255 - cap <= Shown(255, g, cap) <= 255
  {
  }

  /** Levels no further from the rails than the cap keep the floor exactly when the rails do. */
  lemma NearRailsKeepFloor(lin: Curve, lut: Ramp, ink: Level, paper: Level)
    requires NonNegative(lin) && MonotoneRamp(lin, lut)
    requires ink <= GhostCap(lin, lut) && 255 - GhostCap(lin, lut) <= paper
    ensures Luminance(lin, lut[ink]) >= 0.0 && Luminance(lin, lut[paper]) >= 0.0
    ensures Luminance(lin, lut[0]) >= 0.0 && Luminance(lin, lut[255]) >= 0.0
    ensures Contrast(lin, lut[ink], lut[paper]) >= CONTRAST_FLOOR
      <==> Contrast(lin, lut[0], lut[255]) >= CONTRAST_FLOOR
  {
    hide GhostCap, LastPassing, Luminance, Contrast, MonotoneRamp;
    var cap := GhostCap(lin, lut);
    LuminanceNonNegative(lin, lut[ink]);
    LuminanceNonNegative(lin, lut[paper]);
    CapIsLargest(lin, lut, cap);
    assert Passes(lin, lut, 0) <==> Contrast(lin, lut[0], lut[255]) >= CONTRAST_FLOOR;
    ContrastShrinks(lin, lut, ink, paper, 0, 255);
    if Passes(lin, lut, 0) {
      LuminanceNonNegative(lin, lut[255 - cap]);
      ContrastShrinks(lin, lut, cap, 255 - cap, ink, paper);
    }
  }

  /** In every panel a run reaches, on a monotone ramp, settled ink against settled paper meets the floor
      exactly when the bare palette does. */
  lemma FloorHolds(lin: Curve, s: Panel, events: seq<Event>, i: nat, j: nat)
    requires Sound(lin, s) && AllFit(events)
    requires var p := After(lin, s, events);
      && p.valid && MonotoneRamp(lin, p.lut)
      && i < |p.prev| && j < |p.prev| && p.prev[i] == 0 && p.prev[j] == 255
    ensures var p := After(lin, s, events);
      && Luminance(lin, Settled(p)[i]) >= 0.0 && Luminance(lin, Settled(p)[j]) >= 0.0
      && Luminance(lin, p.lut[0]) >= 0.0 && Luminance(lin, p.lut[255]) >= 0.0
      && (Contrast(lin, Settled(p)[i], Settled(p)[j]) >= 7.0
          <==> Contrast(lin, p.lut[0], p.lut[255]) >= 7.0)
  {
    hide GhostCap, LastPassing, Luminance, Contrast, MonotoneRamp, After, AllFit;
    var p := After(lin, s, events);
    GhostsStayNearTheRails(p.residue[i], p.cap);
    GhostsStayNearTheRails(p.residue[j], p.cap);
    NearRailsKeepFloor(lin, p.lut, Shown(0, p.residue[i], p.cap), Shown(255, p.residue[j], p.cap));
  }

  // --- a clearing refresh forgets every history ---

  predicate SameSettled(p: Panel, q: Panel) {
    && p.valid == q.valid
    && (p.valid ==> p.w == q.w && p.h == q.h && p.cap == q.cap && p.lut == q.lut
                    && p.prev == q.prev && p.residue == q.residue)
  }

  lemma StepsAgree(lin: Curve, p: Panel, q: Panel, e: Event)
    requires Sound(lin, p) && Sound(lin, q) && Fits(e)
    requires SameSettled(p, q)
    ensures SameSettled(Apply(lin, p, e), Apply(lin, q, e))
  {
    hide GhostCap, GhostStep, Shown, ProgramFor, TotalFrames;
  }

  lemma {:induction false} RunsAgree(lin: Curve, p: Panel, q: Panel, events: seq<Event>)
    requires Sound(lin, p) && Sound(lin, q)
    requires AllFit(events)
    requires SameSettled(p, q)
    ensures SameSettled(After(lin, p, events), After(lin, q, events))
    decreases |events|
  {
    if events != [] {
      StepsAgree(lin, p, q, events[0]);
      ApplyKeepsSound(lin, p, events[0]);
      ApplyKeepsSound(lin, q, events[0]);
      RunsAgree(lin, Apply(lin, p, events[0]), Apply(lin, q, events[0]), events[1..]);
    }
  }

  /** Two panels with any histories that take one page as HALF or FULL, then the same events,
      settle on the same pixels from then on. */
  lemma ClearingForgets(lin: Curve, p: Panel, q: Panel, page: Event, events: seq<Event>)
    requires Sound(lin, p) && Sound(lin, q)
    requires page.Show? && (page.t == HalfRefresh || page.t == FullRefresh)
    requires AllFit([page] + events)
    ensures var p', q' := After(lin, p, [page] + events), After(lin, q, [page] + events);
      p'.valid == q'.valid && (p'.valid ==> Settled(p') == Settled(q'))
  {
    hide Apply;
    assert ([page] + events)[1..] == events;
    ApplyKeepsSound(lin, p, page);
    ApplyKeepsSound(lin, q, page);
    ClearingMeets(lin, p, q, page);
    RunsAgree(lin, Apply(lin, p, page), Apply(lin, q, page), events);
  }

  lemma ClearingMeets(lin: Curve, p: Panel, q: Panel, page: Event)
    requires Sound(lin, p) && Sound(lin, q) && Fits(page)
    requires page.Show? && (page.t == HalfRefresh || page.t == FullRefresh)
    ensures SameSettled(Apply(lin, p, page), Apply(lin, q, page))
    ensures Apply(lin, p, page).residue == Ghostless(|page.levels|)
  {
  }

  // --- the glass never jumps ---

  /** The pixels the panel last wrote, over a run that began with `image` written. */
  ghost function LastWritten(lin: Curve, s: Panel, image: seq<Color>, events: seq<Event>): seq<Color>
    requires Sound(lin, s) && AllFit(events)
    decreases |events|
  {
    if events == [] then image
    else
      var e := events[0];
      ApplyKeepsSound(lin, s, e);
      var s' := Apply(lin, s, e);
      LastWritten(lin, s', if e.Show? || (e.Shake? && s.valid) then Settled(s') else image, events[1..])
  }

  lemma {:induction false} LastWrittenIsSettled(lin: Curve, s: Panel, image: seq<Color>, events: seq<Event>)
    requires Sound(lin, s) && AllFit(events)
    requires s.valid ==> image == Settled(s)
    ensures After(lin, s, events).valid ==> LastWritten(lin, s, image, events) == Settled(After(lin, s, events))
    decreases |events|
  {
    if events != [] {
      var e := events[0];
      ApplyKeepsSound(lin, s, e);
      var s' := Apply(lin, s, e);
      var image' := if e.Show? || (e.Shake? && s.valid) then Settled(s') else image;
      LastWrittenIsSettled(lin, s', image', events[1..]);
    }
  }

  predicate StartsWaveform(s: Panel, e: Event) {
    && s.valid && !s.flashActive
    && (e.Shake? || (e.Show? && !Anew(s, e.w, e.h) && e.lut == s.lut && (e.t == HalfRefresh || e.t == FullRefresh)))
  }

  lemma WaveformStarts(lin: Curve, p: Panel, e: Event)
    requires Sound(lin, p) && StartsWaveform(p, e) && Fits(e)
    ensures var q := Apply(lin, p, e);
      && q.flashActive && q.flashStart == e.now && q.lut == p.lut
      && q.flashOld == Displayed(p) && |q.flashOld| == |q.flashNew| == |p.prev|
  {
    hide GhostCap, Shown, ProgramFor;
    ApplyKeepsSound(lin, p, e);
  }

  lemma FirstFrameIsDue(start: nat, now: nat)
    requires start <= now < start + FRAME_MS
    ensures Int32((now - start) % 0x1_0000_0000_0000_0000 / FRAME_MS) == 0
  {
    assert (now - start) % 0x1_0000_0000_0000_0000 == now - start;
    assert (now - start) / FRAME_MS == 0;
  }

  /** With no flash running and the palette unchanged, frame 0 of the waveform is pixel for pixel what
      the panel last wrote, and it is due for the waveform's first twenty milliseconds. */
  lemma FirstFrameIsTheOldGlass(lin: Curve, s: Panel, image: seq<Color>, events: seq<Event>, e: Event,
                                now: nat, r: real)
    requires Sound(lin, s) && AllFit(events) && (s.valid ==> image == Settled(s))
    requires var p := After(lin, s, events); StartsWaveform(p, e) && Fits(e)
    requires e.now <= now < e.now + FRAME_MS
    ensures var p := After(lin, s, events);
      var q := Apply(lin, p, e);
      && q.flashActive && FrameDue(q, now) == 0
      && |q.flashOld| == |q.flashNew| == |LastWritten(lin, s, image, events)|
      && forall i :: 0 <= i < |q.flashOld| ==> FlashPixel(q, i, 0, r) == LastWritten(lin, s, image, events)[i]
  {
    hide Apply, After, LastWritten, Shown, Int32, Nearest, Fits;
    LastWrittenIsSettled(lin, s, image, events);
    var p := After(lin, s, events);
    var q := Apply(lin, p, e);
    WaveformStarts(lin, p, e);
    FirstFrameIsDue(e.now, now);
    forall i | 0 <= i < |q.flashOld| ensures FlashPixel(q, i, 0, r) == Settled(p)[i] {
      NearestOfLevel(q.flashOld[i]);
    }
  }

  lemma NearestOfLevel(l: Level)
    ensures Nearest(l as real) == l
  {
  }
}
