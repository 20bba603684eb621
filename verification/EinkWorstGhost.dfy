/** A run that ends in the darkest ghost, and what is left of it after forty-five quiet refreshes. */
module EinkWorstGhost {
  import opened EinkPanel
  import opened EinkPanelProperties

  /** One FAST refresh of a page of one pixel. */
  function Pixel(lut: Ramp, level: Level): Event {
    Show([level], 1, 1, FastRefresh, lut, 0, false)
  }

  /** Ink and back to paper, `n` times. */
  function Swings(lut: Ramp, n: nat): seq<Event> {
    if n == 0 then [] else [Pixel(lut, 0), Pixel(lut, 255)] + Swings(lut, n - 1)
  }

  function Swing(g: int): int {
    GhostStep(GhostStep(g, 255, 0), 0, 255)
  }

  function SwingN(g: int, n: nat): int
    decreases n
  {
    if n == 0 then g else SwingN(Swing(g), n - 1)
  }

  lemma FiveSwings(g: int, a: int, b: int, c: int, d: int, e: int, n: nat)
    requires n >= 5
    requires Swing(g) == a && Swing(a) == b && Swing(b) == c && Swing(c) == d && Swing(d) == e
    ensures SwingN(g, n) == SwingN(e, n - 5)
  {
    hide Swing;
    assert SwingN(g, n) == SwingN(a, n - 1);
    assert SwingN(b, n - 2) == SwingN(c, n - 3) == SwingN(d, n - 4);
  }

  lemma SwingIs(g: int, mid: int, end: int)
    requires -GHOST_LIMIT <= g <= 0 && -GHOST_LIMIT <= mid <= GHOST_LIMIT
    requires g * KEEP / 1024 + 59 == mid
    requires end == if mid * KEEP / 1024 - 123 < -GHOST_LIMIT then -GHOST_LIMIT else mid * KEEP / 1024 - 123
    ensures Swing(g) == end
  {
  }

  lemma SwingsDeepen()
    ensures Swing(0) == -69
    ensures Swing(-69) == -128
    ensures Swing(-128) == -178
    ensures Swing(-178) == -220
    ensures Swing(-220) == -256
    ensures Swing(-256) == -286
    ensures Swing(-286) == -312
    ensures Swing(-312) == -334
  {
    SwingIs(0, 59, -69);
    SwingIs(-69, -5, -128);
    SwingIs(-128, -59, -178);
    SwingIs(-178, -105, -220);
    SwingIs(-220, -144, -256);
    SwingIs(-256, -177, -286);
    SwingIs(-286, -205, -312);
    SwingIs(-312, -229, -334);
  }

  lemma SwingsReachClamp()
    ensures Swing(-334) == -353
    ensures Swing(-353) == -368
    ensures Swing(-368) == -381
    ensures Swing(-381) == -392
    ensures Swing(-392) == -401
    ensures Swing(-401) == -409
    ensures Swing(-409) == -416
  {
    SwingIs(-334, -249, -353);
    SwingIs(-353, -266, -368);
    SwingIs(-368, -280, -381);
    SwingIs(-381, -292, -392);
    SwingIs(-392, -302, -401);
    SwingIs(-401, -310, -409);
    SwingIs(-409, -318, -416);
  }

  /** Fifteen swings reach the clamp. */
  lemma FifteenSwings(n: nat)
    requires n == 15
    ensures SwingN(0, n) == -GHOST_LIMIT
  {
    hide Swing;
    SwingsDeepen();
    SwingsReachClamp();
    FiveSwings(0, -69, -128, -178, -220, -256, n);
    FiveSwings(-256, -286, -312, -334, -353, -368, n - 5);
    FiveSwings(-368, -381, -392, -401, -409, -416, n - 10);
  }

  /** A panel of one pixel with a known ghost. */
  ghost predicate Holds(lin: Curve, s: Panel, lut: Ramp, level: Level, g: int) {
    Sound(lin, s) && s.valid && s.w == 1 && s.h == 1 && s.lut == lut && s.prev == [level] && s.residue == [g]
  }

  lemma PixelStep(lin: Curve, s: Panel, lut: Ramp, was: Level, now: Level, g: int)
    requires Holds(lin, s, lut, was, g)
    ensures Fits(Pixel(lut, now)) && Holds(lin, Apply(lin, s, Pixel(lut, now)), lut, now, GhostStep(g, was, now))
  {
    hide GhostCap, GhostStep, Shown;
    ApplyKeepsSound(lin, s, Pixel(lut, now));
  }

  lemma FirstPixel(lin: Curve, s: Panel, lut: Ramp)
    requires Sound(lin, s) && !s.valid
    ensures Fits(Pixel(lut, 255)) && Holds(lin, Apply(lin, s, Pixel(lut, 255)), lut, 255, 0)
  {
    hide GhostCap, GhostStep, Shown;
    ApplyKeepsSound(lin, s, Pixel(lut, 255));
  }

  lemma {:induction false} SwingsHold(lin: Curve, s: Panel, lut: Ramp, g: int, n: nat)
    requires Holds(lin, s, lut, 255, g)
    ensures AllFit(Swings(lut, n)) && Holds(lin, After(lin, s, Swings(lut, n)), lut, 255, SwingN(g, n))
    decreases n
  {
    hide Apply, Fits, GhostStep, GhostCap, LastPassing;
    if n > 0 {
      var events := Swings(lut, n);
      assert events[0] == Pixel(lut, 0) && events[1..][0] == Pixel(lut, 255);
      assert events[1..][1..] == Swings(lut, n - 1);
      PixelStep(lin, s, lut, 255, 0, g);
      var s1 := Apply(lin, s, Pixel(lut, 0));
      PixelStep(lin, s1, lut, 0, 255, GhostStep(g, 255, 0));
      SwingsHold(lin, Apply(lin, s1, Pixel(lut, 255)), lut, Swing(g), n - 1);
    }
  }

  /** From the first page of any panel: a run after which the pixel is drawn as paper, and is still shown
      darker after forty-five FAST refreshes that redraw it, wherever the palette allows any ghost. */
  lemma FortyFiveAreTooFew(lin: Curve, s: Panel, lut: Ramp)
    requires Sound(lin, s) && !s.valid && GhostCap(lin, lut) > 0
    ensures Fits(Pixel(lut, 255)) && AllFit(Swings(lut, 15)) && AllFit(Repeat(Pixel(lut, 255), QUIET - 1))
    ensures var drawn := After(lin, Apply(lin, s, Pixel(lut, 255)), Swings(lut, 15));
      var quiet := After(lin, drawn, Repeat(Pixel(lut, 255), QUIET - 1));
      && Redraws(drawn, Pixel(lut, 255))
      && quiet.valid && quiet.prev == [255] && Displayed(quiet) == [254]
  {
    hide Apply, Fits, AllLeaveAlone, GhostCap, LastPassing, GhostStep, SwingN;
    var paper := Pixel(lut, 255);
    FirstPixel(lin, s, lut);
    SwingsHold(lin, Apply(lin, s, paper), lut, 0, 15);
    FifteenSwings(15);
    var drawn := After(lin, Apply(lin, s, paper), Swings(lut, 15));
    RedrawnHolds(lin, drawn, lut, -GHOST_LIMIT, QUIET - 1);
    QuietIsEnough(-GHOST_LIMIT);
  }

  lemma {:induction false} RedrawnHolds(lin: Curve, s: Panel, lut: Ramp, g: int, n: nat)
    requires Holds(lin, s, lut, 255, g)
    ensures AllFit(Repeat(Pixel(lut, 255), n))
    ensures Holds(lin, After(lin, s, Repeat(Pixel(lut, 255), n)), lut, 255, FadeN(g, n))
    decreases n
  {
    hide Apply, Fits, GhostCap, LastPassing;
    if n > 0 {
      var e := Pixel(lut, 255);
      assert Repeat(e, n)[1..] == Repeat(e, n - 1);
      PixelStep(lin, s, lut, 255, 255, g);
      assert s.residue[0] == g;
      FadeMoves(g);
      FadeFirst(g, n);
      RedrawnHolds(lin, Apply(lin, s, e), lut, Fade(g), n - 1);
    }
  }
}
