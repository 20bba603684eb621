/** What a flash shows from its first frame to its last, read off the old glass and the new page. */
module EinkFlash {
  import opened Numbers
  import opened EinkOptics
  import opened EinkPanel
  import opened EinkPanelProperties

  // --- the two waveforms in closed form ---

  /** `n` frames toward a rail. */
  function Toward(rail: real, s: real, r: real, n: nat): real {
    rail + (s - rail) * Pow(r, n)
  }

  /** The scrub goes straight to the page's rail for twenty-four frames, and holds. */
  function ScrubPath(s: real, paper: bool, r: real, f: nat): real {
    Toward(if paper then 255.0 else 0.0, s, r, Least(f, 24))
  }

  /** The full waveform: what will be paper goes to ink for twenty-four frames, holds four, and goes to paper
      for twenty-four; what will be ink holds for twenty-eight frames, goes to ink for fourteen, holds ten and
      goes to ink again. */
  function FullPath(s: real, paper: bool, r: real, f: nat): real {
    if paper then
      (if f <= 28 then Toward(0.0, s, r, Least(f, 24))
       else Toward(255.0, Toward(0.0, s, r, 24), r, Least(f - 28, 24)))
    else
      Toward(0.0, s, r, if f <= 28 then 0 else if f <= 52 then Least(f - 28, 14) else f - 38)
  }

  lemma ScrubSegments(c: Class, f: nat, s: real, r: real)
    requires f <= 25
    ensures Glass(X3_HALF_SCRUB, c, f, s, r) == Driven(s, Target(c), r, Least(f, 24))
  {
    var p := X3_HALF_SCRUB;
    assert Elapsed(p.segs, 1) == 24;
    if f <= 24 {
      GlassSegment(p, c, 0, f, s, r);
    } else {
      GlassSegment(p, c, 0, 24, s, r);
      GlassSegment(p, c, 1, f - 24, s, r);
    }
  }

  lemma FullStarts()
    ensures var segs := X3_FULL.segs;
      && Elapsed(segs, 0) == 0 && Elapsed(segs, 1) == 24 && Elapsed(segs, 2) == 28
      && Elapsed(segs, 3) == 42 && Elapsed(segs, 4) == 52 && Elapsed(segs, 5) == 62
      && segs[0].On(WW) == Black && segs[1].On(WW) == Hold && segs[2].On(WW) == segs[3].On(WW) == White
      && segs[4].On(WW) == Hold
      && segs[0].On(WB) == segs[1].On(WB) == Hold && segs[2].On(WB) == Black && segs[3].On(WB) == Hold
      && segs[4].On(WB) == Black
  {
    assert Elapsed(X3_FULL.segs, 2) == 28 && Elapsed(X3_FULL.segs, 4) == 52;
  }

  lemma PaperSinks(f: nat, s: real, r: real)
    requires f <= 28
    ensures Glass(X3_FULL, WW, f, s, r) == Toward(0.0, s, r, Least(f, 24))
  {
    hide Glass, Pow, Elapsed;
    FullStarts();
    assert Glass(X3_FULL, WW, 0, s, r) == s by {
      GlassAtStart(X3_FULL, WW, s, r);
    }
    GlassSegment(X3_FULL, WW, 0, Least(f, 24), s, r);
    if f > 24 {
      GlassSegment(X3_FULL, WW, 1, f - 24, s, r);
    }
  }

  lemma GlassAtStart(p: Program, c: Class, s: real, r: real)
    ensures Glass(p, c, 0, s, r) == s
  {
  }

  lemma PaperRises(f: nat, s: real, r: real)
    requires 28 < f <= 62
    ensures Glass(X3_FULL, WW, f, s, r) == Toward(255.0, Glass(X3_FULL, WW, 28, s, r), r, Least(f - 28, 24))
  {
    hide Glass, Pow, Elapsed;
    FullStarts();
    var low := Glass(X3_FULL, WW, 28, s, r);
    GlassSegment(X3_FULL, WW, 2, Least(f - 28, 14), s, r);
    if f > 42 {
      GlassSegment(X3_FULL, WW, 3, Least(f - 42, 10), s, r);
      DrivenTwice(low, White, r, 14, Least(f - 42, 10));
    }
    if f > 52 {
      GlassSegment(X3_FULL, WW, 4, f - 52, s, r);
    }
  }

  lemma FullOnPaper(f: nat, s: real, r: real)
    requires f <= 62
    ensures Glass(X3_FULL, WW, f, s, r) == FullPath(s, true, r, f)
  {
    hide Glass, Toward;
    PaperSinks(Least(f, 28), s, r);
    if f > 28 {
      PaperRises(f, s, r);
    }
  }

  lemma InkHolds(f: nat, s: real, r: real)
    requires f <= 28
    ensures Glass(X3_FULL, WB, f, s, r) == s == Toward(0.0, s, r, 0)
  {
    hide Glass, Elapsed;
    FullStarts();
    GlassAtStart(X3_FULL, WB, s, r);
    DrivenNone(s, Black, r);
    GlassSegment(X3_FULL, WB, 0, Least(f, 24), s, r);
    if f > 24 {
      GlassSegment(X3_FULL, WB, 1, f - 24, s, r);
    }
  }

  lemma InkSinks(f: nat, s: real, r: real)
    requires 28 < f <= 62
    ensures Glass(X3_FULL, WB, f, s, r) == FullPath(s, false, r, f)
  {
    hide Glass, Pow, Elapsed;
    FullStarts();
    InkHolds(28, s, r);
    GlassSegment(X3_FULL, WB, 2, Least(f - 28, 14), s, r);
    if f > 42 {
      GlassSegment(X3_FULL, WB, 3, Least(f - 42, 10), s, r);
    }
    if f > 52 {
      GlassSegment(X3_FULL, WB, 4, f - 52, s, r);
      DrivenTwice(s, Black, r, 14, f - 52);
    }
  }

  lemma FullOnInk(f: nat, s: real, r: real)
    requires f <= 62
    ensures Glass(X3_FULL, WB, f, s, r) == FullPath(s, false, r, f)
  {
    hide Glass, Toward;
    if f <= 28 {
      InkHolds(f, s, r);
    } else {
      InkSinks(f, s, r);
    }
  }

  // --- on the panel ---

  /** A clearing page on a panel that keeps its size. */
  predicate Clears(s: Panel, e: Event) {
    s.valid && e.Show? && !Anew(s, e.w, e.h) && (e.t == HalfRefresh || e.t == FullRefresh)
  }

  predicate Scrubs(e: Event) {
    e.Show? && e.t == HalfRefresh && e.isX3
  }

  /** Frame by frame, from the level the glass showed to the level of the new page. */
  lemma ClearingFollowsThePath(lin: Curve, s: Panel, e: Event, i: nat, f: nat, r: real)
    requires Sound(lin, s) && Clears(s, e) && Fits(e) && i < |e.levels|
    requires f <= if Scrubs(e) then 25 else 62
    ensures var q := Apply(lin, s, e);
      var was := Shown(s.prev[i], s.residue[i], GhostCap(lin, e.lut)) as real;
      && q.flashActive && |q.flashOld| == |q.flashNew| == |e.levels|
      && FlashLevel(q, i, f, r) ==
        if Scrubs(e) then ScrubPath(was, e.levels[i] >= 128, r, f) else FullPath(was, e.levels[i] >= 128, r, f)
  {
    hide GhostCap, Shown, Glass, FullPath;
    ApplyKeepsSound(lin, s, e);
    var was := Shown(s.prev[i], s.residue[i], GhostCap(lin, e.lut)) as real;
    if Scrubs(e) {
      forall c {
        ScrubSegments(c, f, was, r);
      }
    } else {
      FullOnPaper(f, was, r);
      FullOnInk(f, was, r);
    }
  }

  /** A shake runs the full waveform over the page the panel holds. */
  lemma ShakeFollowsThePath(lin: Curve, s: Panel, now: nat, i: nat, f: nat, r: real)
    requires Sound(lin, s) && s.valid && i < |s.prev| && f <= 62
    ensures var q := Apply(lin, s, Shake(now));
      var was := Displayed(s)[i] as real;
      && q.flashActive && |q.flashOld| == |q.flashNew| == |s.prev|
      && FlashLevel(q, i, f, r) == FullPath(was, s.prev[i] >= 128, r, f)
      && q.prev == s.prev
  {
    hide GhostCap, Shown, Glass, FullPath;
    var was := Displayed(s)[i] as real;
    FullOnPaper(f, was, r);
    FullOnInk(f, was, r);
  }

  /** The rail of a page's level. */
  function RailOf(l: Level): real {
    if l >= 128 then 255.0 else 0.0
  }

  predicate Within(x: real, y: real, d: real) {
    -d <= x - y <= d
  }

  lemma TowardIsClose(rail: real, s: real, r: real, n: nat)
    requires 0.0 < r && 0.0 <= s <= 255.0 && (rail == 0.0 || rail == 255.0)
    ensures Within(Toward(rail, s, r, n), rail, 255.0 * Pow(r, n))
  {
    CloseToRail(s, if rail == 0.0 then Black else White, r, n);
  }

  lemma PowStep(r: real, n: nat)
    ensures Pow(r, n + 1) == r * Pow(r, n)
  {
  }

  lemma Commute(x: real, y: real)
    ensures x * y == y * x
  {
  }

  lemma PowShrinks(r: real, n: nat)
    requires 0.0 < r < 1.0
    ensures Pow(r, n + 1) <= Pow(r, n)
  {
    hide Pow;
    PowPositive(r, n);
    PowStep(r, n);
    Shrink(Pow(r, n), r);
    Commute(r, Pow(r, n));
  }

  lemma TowardStaysIn(rail: real, s: real, r: real, n: nat)
    requires 0.0 < r < 1.0 && 0.0 <= s <= 255.0 && (rail == 0.0 || rail == 255.0)
    ensures 0.0 <= Toward(rail, s, r, n) <= 255.0
    decreases n
  {
    if n > 0 {
      TowardStaysIn(rail, s, r, n - 1);
      DrivenOnce(s, if rail == 0.0 then Black else White, r, n);
      OneFrameInRange(Toward(rail, s, r, n - 1), if rail == 0.0 then Black else White, r);
    } else {
      assert Pow(r, 0) == 1.0;
    }
  }

  /** The last frame shown stands near the rail of the new page's level. */
  lemma PathEndsAtRail(s: real, l: Level, r: real)
    requires 0.0 < r < 1.0 && 0.0 <= s <= 255.0
    ensures Within(ScrubPath(s, l >= 128, r, 24), RailOf(l), 255.0 * Pow(r, 24))
    ensures Within(FullPath(s, l >= 128, r, 61), RailOf(l), 255.0 * Pow(r, 23))
  {
    TowardIsClose(RailOf(l), s, r, 24);
    TowardIsClose(0.0, s, r, 23);
    TowardStaysIn(0.0, s, r, 24);
    TowardIsClose(255.0, Toward(0.0, s, r, 24), r, 24);
    PowShrinks(r, 23);
  }

  /** A HALF or FULL refresh ends on the page that was drawn, not on its negative: the last frame it shows
      puts every pixel near paper where the page has paper, and near ink where it has ink. */
  lemma ClearingEndsOnThePage(lin: Curve, s: Panel, e: Event, i: nat, r: real)
    requires Sound(lin, s) && Clears(s, e) && Fits(e) && i < |e.levels| && 0.0 < r < 1.0
    ensures var q := Apply(lin, s, e);
      if Scrubs(e) then
        TotalFrames(q.prog) == 25 && Within(FlashLevel(q, i, 24, r), RailOf(e.levels[i]), 255.0 * Pow(r, 24))
      else
        TotalFrames(q.prog) == 62 && Within(FlashLevel(q, i, 61, r), RailOf(e.levels[i]), 255.0 * Pow(r, 23))
  {
    hide GhostCap, Glass, FullPath, ScrubPath, FlashLevel;
    ClearingFollowsThePath(lin, s, e, i, if Scrubs(e) then 24 else 61, r);
    PathEndsAtRail(Shown(s.prev[i], s.residue[i], GhostCap(lin, e.lut)) as real, e.levels[i], r);
    FramesOfBoth();
  }

  lemma FramesOfBoth()
    ensures TotalFrames(X3_HALF_SCRUB) == 25 && TotalFrames(X3_FULL) == 62
  {
    FullStarts();
    assert Elapsed(X3_HALF_SCRUB.segs, 1) == 24;
  }

  /** So does a shake, on the page the panel holds. */
  lemma ShakeEndsOnThePage(lin: Curve, s: Panel, now: nat, i: nat, r: real)
    requires Sound(lin, s) && s.valid && i < |s.prev| && 0.0 < r < 1.0
    ensures var q := Apply(lin, s, Shake(now));
      && TotalFrames(q.prog) == 62
      && Within(FlashLevel(q, i, 61, r), RailOf(s.prev[i]), 255.0 * Pow(r, 23))
  {
    hide GhostCap, Glass, FullPath, ScrubPath, FlashLevel;
    ShakeFollowsThePath(lin, s, now, i, 61, r);
    PathEndsAtRail(Displayed(s)[i] as real, s.prev[i], r);
    FramesOfBoth();
  }

  /** And in between the full waveform inverts: halfway, what will be paper stands near ink. */
  lemma FullInvertsFirst(s: real, r: real)
    requires 0.0 < r < 1.0 && 0.0 <= s <= 255.0
    ensures Within(FullPath(s, true, r, 28), 0.0, 255.0 * Pow(r, 24))
    ensures FullPath(s, false, r, 28) == s
  {
    TowardIsClose(0.0, s, r, 24);
    assert Pow(r, 0) == 1.0;
  }

  // --- how long it lasts, and what is written ---

  /** Half a second for the scrub, 1.24 s for the full: a frame every twenty milliseconds until then, each new
      to a panel that has just started, and from then on none. */
  lemma FlashLasts(lin: Curve, s: Panel, e: Event, now: nat)
    requires Sound(lin, s) && Fits(e) && (Clears(s, e) || (s.valid && e.Shake?))
    requires e.now <= now < e.now + 0x8000_0000
    ensures var q, last := Apply(lin, s, e), if Scrubs(e) then 500 else 1240;
      && (FlashStep(q, now).flashActive <==> now - e.now < last)
      && (FlashStep(q, now).flashActive ==> 20 * FlashStep(q, now).lastFrame <= now - e.now < 20 * FlashStep(q, now).lastFrame + 20)
      && FlashStep(q, now).prev == q.prev && FlashStep(q, now).residue == q.residue
      && (FlashStep(q, now).flashActive ==> q.lastFrame != FlashStep(q, now).lastFrame)
  {
    hide GhostCap, Shown, Int32;
    ApplyKeepsSound(lin, s, e);
    FramesOfBoth();
    FrameAt(now - e.now);
  }

  lemma FrameAt(elapsed: nat)
    requires elapsed < 0x8000_0000
    ensures Int32(elapsed % 0x1_0000_0000_0000_0000 / FRAME_MS) == elapsed / 20
  {
    assert elapsed % 0x1_0000_0000_0000_0000 == elapsed;
  }

  /** A cast to a 32-bit int keeps the low 32 bits; a frame number it makes negative shows the old glass. */
  lemma CastToInt(x: nat)
    ensures -0x8000_0000 <= Int32(x) < 0x8000_0000
    ensures (Int32(x) - x) % 0x1_0000_0000 == 0
  {
    var low, high := x % 0x1_0000_0000, x / 0x1_0000_0000;
    assert Int32(x) - x == -high * 0x1_0000_0000 || Int32(x) - x == (-high - 1) * 0x1_0000_0000;
  }

  lemma NegativeFrameIsTheOldGlass(s: Panel, i: nat, f: int, r: real)
    requires i < |s.flashOld| == |s.flashNew| && f < 0
    ensures FlashLevel(s, i, f, r) == s.flashOld[i] as real
  {
  }

  /** The level written is the one nearest to the optics'. */
  lemma NearestIsNearest(s: real)
    requires 0.0 <= s <= 255.0
    ensures -0.5 <= Nearest(s) as real - s <= 0.5
  {
  }
}
