/** What each refresh mode, a stop and a drop do to the settled page. */
module EinkModes {
  import opened EinkOptics
  import opened EinkPanel
  import opened EinkPanelProperties

  /** The first page of a panel, and the first of a new size, is shown as drawn and flashes nothing,
      whatever its mode. */
  lemma FirstPageIsExact(lin: Curve, s: Panel, e: Event)
    requires Sound(lin, s) && Fits(e) && e.Show? && (!s.valid || e.w != s.w || e.h != s.h)
    ensures var q := Apply(lin, s, e);
      q.valid && Displayed(q) == e.levels && !q.flashActive
  {
    hide GhostCap;
    ApplyKeepsSound(lin, s, e);
  }

  /** A dropped page is forgotten: the next one is a first page. */
  lemma DropForgets(lin: Curve, s: Panel, e: Event)
    requires Sound(lin, s) && Fits(e) && e.Show?
    ensures var q := Apply(lin, Apply(lin, s, Drop), e);
      q.valid && Displayed(q) == e.levels && !q.flashActive
    ensures !Apply(lin, s, Drop).flashActive
  {
    hide GhostCap;
    ApplyKeepsSound(lin, s, Drop);
    FirstPageIsExact(lin, Apply(lin, s, Drop), e);
  }

  /** A stopped flash is over, and the settled page is the one it would have ended on. */
  lemma StopSettles(lin: Curve, s: Panel)
    requires Sound(lin, s)
    ensures !Apply(lin, s, Stop).flashActive && SameSettled(Apply(lin, s, Stop), s)
  {
  }

  /** The page composed again keeps every ghost and the flash that runs, which then ends on the new page. */
  lemma ComposeKeepsGhosts(lin: Curve, s: Panel, e: Event)
    requires Sound(lin, s) && Fits(e) && s.valid && e.Show? && e.t == NoRefresh && e.w == s.w && e.h == s.h
    ensures var q := Apply(lin, s, e);
      && q.prev == e.levels && q.residue == s.residue && q.lut == e.lut
      && q.flashActive == s.flashActive && q.flashStart == s.flashStart && q.prog == s.prog
      && (s.flashActive ==> q.flashOld == s.flashOld && q.flashNew == e.levels)
  {
    hide GhostCap;
  }

  /** A FAST refresh starts no flash, and leaves a pixel that got lighter no lighter than the fade alone
      would, and one that got darker no darker. */
  lemma FastLeavesGhosts(lin: Curve, s: Panel, e: Event, i: nat)
    requires Sound(lin, s) && Fits(e) && s.valid && e.Show? && e.t == FastRefresh && e.w == s.w && e.h == s.h
    requires i < |e.levels|
    ensures var q := Apply(lin, s, e);
      && q.prev == e.levels && |q.residue| == |s.residue| == |s.prev| == |e.levels|
      && q.flashActive == s.flashActive && q.flashStart == s.flashStart && q.prog == s.prog
      && q.flashOld == s.flashOld
      && (e.levels[i] >= s.prev[i] ==> q.residue[i] <= Fade(s.residue[i]))
      && (e.levels[i] <= s.prev[i] ==> q.residue[i] >= Fade(s.residue[i]))
  {
    hide GhostCap;
    FadeMoves(s.residue[i]);
  }

  /** What a pixel keeps of its change, in sixteenths of a level: 31/64 for each level it lightens, and 15/64
      for each it darkens, rounded toward none. */
  lemma ResidueIsExact(was: Level, now: Level)
    ensures var g, d := GhostStep(0, was, now), now - was;
      if d >= 0 then 64 * -g <= 31 * d < 64 * -g + 64 else 64 * g <= 15 * -d < 64 * g + 64
  {
    assert Fade(0) == 0;
  }

  /** Three per cent of what a pixel lightens stays behind, and one and a half of what it darkens, to within
      a sixth of a level. */
  lemma ResidueIsAShare(was: Level, now: Level)
    ensures var g, d := GhostStep(0, was, now) as real / 16.0, (now - was) as real;
      if d >= 0.0 then -0.03 * d - 0.07 <= g <= -0.03 * d + 0.07 else -0.015 * d - 0.16 <= g <= -0.015 * d
  {
    var d := now - was;
    assert Fade(0) == 0;
    if d >= 0 {
      assert 496 * d - 1023 <= 1024 * (d * TO_WHITE / 1024) <= 496 * d;
    } else {
      assert 240 * -d - 1023 <= 1024 * (-d * TO_BLACK / 1024) <= 240 * -d;
    }
  }

  lemma BytesOf(a: nat, red: nat, green: nat, blue: nat)
    requires red < 256 && green < 256 && blue < 256
    ensures var argb := a * 0x100_0000 + red * 0x1_0000 + green * 0x100 + blue;
      argb / 0x1_0000 % 0x100 == red && argb / 0x100 % 0x100 == green && argb % 0x100 == blue
  {
    var argb := a * 0x100_0000 + red * 0x1_0000 + green * 0x100 + blue;
    assert argb / 0x1_0000 == a * 0x100 + red;
    assert argb / 0x100 == (a * 0x100 + red) * 0x100 + green;
  }

  /** The relative luminance of WCAG 2.1, whatever the alpha, each channel in its own byte. */
  lemma LuminanceWeighsChannels(lin: Curve, a: nat, red: nat, green: nat, blue: nat)
    requires red < 256 && green < 256 && blue < 256
    ensures Luminance(lin, a * 0x100_0000 + red * 0x1_0000 + green * 0x100 + blue)
      == 0.2126 * lin(red) + 0.7152 * lin(green) + 0.0722 * lin(blue)
  {
    BytesOf(a, red, green, blue);
  }
}
