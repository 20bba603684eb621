/** The e-ink panel: the ghost plane, its contrast cap and the flash that clears it (src/EinkPanel.h). */
module EinkPanel {
  import opened EinkOptics

  /** A pixel as the firmware drew it: 0 is full ink, 255 is paper. */
  type Level = x: int | 0 <= x < 256

  /** 0xAARRGGBB. */
  type Color = nat

  datatype Refresh = NoRefresh | FullRefresh | HalfRefresh | FastRefresh

  const DESIGN_CAP := 26
  const GHOST_SCALE := 16
  const GHOST_LIMIT := DESIGN_CAP * GHOST_SCALE
  const FRAME_MS := 20

  // kKeep, the two residues and their 1/16-level forms, scaled by 1024 and rounded.
  const KEEP := 942
  const TO_WHITE := 31 * GHOST_SCALE
  const TO_BLACK := 15 * GHOST_SCALE

  const CONTRAST_FLOOR := 7.0

  function Clamp(x: int, lo: int, hi: int): int {
    if x < lo then lo else if x > hi then hi else x
  }

  /** Integer division that truncates toward zero. */
  function TruncDiv(x: int, d: int): int
    requires d > 0
  {
    if x >= 0 then x / d else -((-x) / d)
  }

  /** A cast to int: truncates toward zero. */
  function Truncate(x: real): int {
    if x >= 0.0 then x.Floor else -((-x).Floor)
  }

  function Nearest(s: real): (l: Level) {
    Clamp(Truncate(s + 0.5), 0, 255)
  }

  // --- contrast and the cap ---

  /** `lin` is the sRGB-to-linear curve on one 8-bit channel. */
  type Curve = int -> real

  function Luminance(lin: Curve, argb: Color): real {
    0.2126 * lin(argb / 0x1_0000 % 0x100) + 0.7152 * lin(argb / 0x100 % 0x100) + 0.0722 * lin(argb % 0x100)
  }

  ghost predicate NonNegative(lin: Curve) {
    forall c :: lin(c) >= 0.0
  }

  lemma LuminanceNonNegative(lin: Curve, argb: Color)
    requires NonNegative(lin)
    ensures Luminance(lin, argb) >= 0.0
  {
  }

  function Contrast(lin: Curve, a: Color, b: Color): real
    requires Luminance(lin, a) >= 0.0 && Luminance(lin, b) >= 0.0
  {
    var la, lb := Luminance(lin, a), Luminance(lin, b);
    if la < lb then (lb + 0.05) / (la + 0.05) else (la + 0.05) / (lb + 0.05)
  }

  type Ramp = lut: seq<Color> | |lut| == 256 witness seq(256, i => 0)

  /** Level `g` against level `255 - g` meets the floor. */
  predicate Passes(lin: Curve, lut: Ramp, g: Level)
    requires Luminance(lin, lut[g]) >= 0.0 && Luminance(lin, lut[255 - g]) >= 0.0
  {
    Contrast(lin, lut[g], lut[255 - g]) >= CONTRAST_FLOOR
  }

  /** The end of the unbroken run of passing levels from `g` up, stopping at the design cap. */
  ghost function LastPassing(lin: Curve, lut: Ramp, g: nat): (last: int)
    requires NonNegative(lin) && g <= DESIGN_CAP + 1
    ensures g - 1 <= last <= DESIGN_CAP
    decreases DESIGN_CAP + 1 - g
  {
    LuminanceNonNegative(lin, lut[g]);
    LuminanceNonNegative(lin, lut[255 - g]);
    if g <= DESIGN_CAP && Passes(lin, lut, g) then LastPassing(lin, lut, g + 1) else g - 1
  }

  ghost function GhostCap(lin: Curve, lut: Ramp): (cap: nat)
    requires NonNegative(lin)
    ensures cap <= DESIGN_CAP
  {
    var last := LastPassing(lin, lut, 0);
    if last < 0 then 0 else last
  }

  // --- the ghost plane ---

  function Fade(g: int): int {
    g * KEEP / 1024
  }

  /** One FAST refresh at one pixel: forget a little, then keep part of what the pixel lost. */
  function GhostStep(g: int, was: Level, now: Level): int {
    var d := now - was;
    var left := if d > 0 then d * TO_WHITE / 1024 else 0;
    var gained := if d < 0 then -d * TO_BLACK / 1024 else 0;
    Clamp(Fade(g) - left + gained, -GHOST_LIMIT, GHOST_LIMIT)
  }

  function Shown(level: Level, g: int, cap: nat): Level {
    var c := cap * GHOST_SCALE;
    Clamp(level + TruncDiv(Clamp(g, -c, c), GHOST_SCALE), 0, 255)
  }

  // --- the panel as a value ---

  datatype Panel = Panel(
    valid: bool, w: nat, h: nat, cap: nat, lut: Ramp,
    prev: seq<Level>, residue: seq<int>, flashOld: seq<Level>, flashNew: seq<Level>,
    prog: Program, flashActive: bool, flashStart: nat, lastFrame: int)

  /** The buffers of a valid panel all cover the page. */
  predicate Sized(s: Panel) {
    s.valid ==> |s.prev| == |s.residue| == |s.flashOld| == |s.flashNew| == s.w * s.h
  }

  ghost predicate Sound(lin: Curve, s: Panel) {
    && NonNegative(lin)
    && Sized(s)
    && (s.valid ==> s.cap == GhostCap(lin, s.lut))
    && (s.valid ==> forall i :: 0 <= i < |s.residue| ==> -GHOST_LIMIT <= s.residue[i] <= GHOST_LIMIT)
    && (s.flashActive ==> s.valid)
  }

  /** What the glass shows of a page once nothing is flashing. */
  function Displayed(s: Panel): seq<Level>
    requires Sized(s) && s.valid
  {
    seq(|s.prev|, i requires 0 <= i < |s.prev| => Shown(s.prev[i], s.residue[i], s.cap))
  }

  function Settled(s: Panel): seq<Color>
    requires Sized(s) && s.valid
  {
    seq(|s.prev|, i requires 0 <= i < |s.prev| => s.lut[Shown(s.prev[i], s.residue[i], s.cap)])
  }

  function Paper(n: nat): seq<Level> {
    seq(n, i => 255)
  }

  function Ghostless(n: nat): seq<int> {
    seq(n, i => 0)
  }

  /** A page of `n == w * h` paper pixels and no ghosts. */
  function Blank(s: Panel, w: nat, h: nat, n: nat): Panel {
    s.(valid := true, w := w, h := h, flashActive := false,
       prev := Paper(n), residue := Ghostless(n),
       flashOld := Paper(n), flashNew := Paper(n))
  }

  function Accumulated(s: Panel, levels: seq<Level>): seq<int>
    requires |s.residue| == |s.prev| == |levels|
  {
    seq(|levels|, i requires 0 <= i < |levels| => GhostStep(s.residue[i], s.prev[i], levels[i]))
  }

  function StartFlash(s: Panel, p: Program, now: nat): Panel
    requires Sized(s) && s.valid
  {
    s.(flashOld := Displayed(s), residue := Ghostless(|s.residue|), prog := p,
       flashStart := now, flashActive := true, lastFrame := -1)
  }

  function ProgramFor(t: Refresh, isX3: bool): Program {
    if t == HalfRefresh && isX3 then X3_HALF_SCRUB else X3_FULL
  }

  predicate Anew(s: Panel, w: nat, h: nat) {
    !s.valid || w != s.w || h != s.h
  }

  ghost function Prepared(lin: Curve, s: Panel, w: nat, h: nat, n: nat, lut: Ramp): Panel
    requires NonNegative(lin)
  {
    (if Anew(s, w, h) then Blank(s, w, h, n) else s).(cap := GhostCap(lin, lut), lut := lut)
  }

  /** What the refresh mode does while the buffers still hold the old page. */
  function Refreshed(s: Panel, levels: seq<Level>, t: Refresh, now: nat, isX3: bool): Panel
    requires Sized(s) && s.valid && |levels| == |s.prev|
  {
    match t
    case NoRefresh => s
    case FastRefresh => s.(residue := Accumulated(s, levels))
    case _ => StartFlash(s, ProgramFor(t, isX3), now)
  }

  function Holding(s: Panel, levels: seq<Level>): Panel {
    s.(prev := levels, flashNew := if s.flashActive then levels else s.flashNew)
  }

  ghost function OnLevels(lin: Curve, s: Panel, levels: seq<Level>, w: nat, h: nat, t: Refresh,
                          lut: Ramp, now: nat, isX3: bool): Panel
    requires NonNegative(lin) && Sized(s) && |levels| == w * h
  {
    var s1 := Prepared(lin, s, w, h, |levels|, lut);
    Holding(if Anew(s, w, h) then s1 else Refreshed(s1, levels, t, now, isX3), levels)
  }

  function RequestFull(s: Panel, now: nat): Panel
    requires Sized(s)
  {
    if !s.valid then s else StartFlash(s, X3_FULL, now).(flashNew := s.prev)
  }

  /** A cast to a 32-bit int. */
  function Int32(x: nat): int {
    var low := x % 0x1_0000_0000;
    if low < 0x8000_0000 then low else low - 0x1_0000_0000
  }

  /** The frame the clock is at: an unsigned 64-bit difference, cast to int. */
  function FrameDue(s: Panel, now: nat): int {
    Int32((now - s.flashStart) % 0x1_0000_0000_0000_0000 / FRAME_MS)
  }

  function EndFlash(s: Panel): Panel {
    s.(flashActive := false, lastFrame := -1)
  }

  function FlashStep(s: Panel, now: nat): Panel {
    if !s.flashActive then s
    else if FrameDue(s, now) >= TotalFrames(s.prog) then EndFlash(s)
    else s.(lastFrame := FrameDue(s, now))
  }

  /** The optics of one pixel of the running waveform, stepped frame by frame: its level at frame `f`. */
  function FlashLevel(s: Panel, i: nat, f: int, r: real): real
    requires i < |s.flashOld| == |s.flashNew|
  {
    var o := s.flashOld[i];
    var c := ClassOf(s.prog.oldAssumedWhite || o >= 128, s.flashNew[i] >= 128);
    Glass(s.prog, c, Frames(f), o as real, r)
  }

  function FlashPixel(s: Panel, i: nat, f: int, r: real): Color
    requires i < |s.flashOld| == |s.flashNew|
  {
    s.lut[Nearest(FlashLevel(s, i, f, r))]
  }

  function Invalidate(s: Panel): Panel {
    s.(valid := false, flashActive := false)
  }

  /** The object: buffers rewritten in place, pixels written through the ramp. */
  class EinkDisplay {
    const lin: Curve
    const decay: real
    var valid: bool
    var w: nat
    var h: nat
    var cap: nat
    var lut: Ramp
    var prev: seq<Level>
    var residue: seq<int>
    var flashOld: seq<Level>
    var flashNew: seq<Level>
    var prog: Program
    var flashActive: bool
    var flashStart: nat
    var lastFrame: int

    ghost function Model(): Panel
      reads this
    {
      Panel(valid, w, h, cap, lut, prev, residue, flashOld, flashNew, prog, flashActive, flashStart, lastFrame)
    }

    constructor (curve: Curve, r: real)
      ensures lin == curve && decay == r
      ensures !valid && !flashActive
    {
      lin, decay := curve, r;
      valid, w, h, cap, lut := false, 0, 0, 0, seq(256, i => 0);
      prev, residue, flashOld, flashNew := [], [], [], [];
      prog, flashActive, flashStart, lastFrame := X3_FULL, false, 0, -1;
    }

    method CapLevels(ramp: Ramp) returns (c: nat)
      requires NonNegative(lin)
      ensures c == GhostCap(lin, ramp)
    {
      c := 0;
      var g := 0;
      while g <= DESIGN_CAP
        invariant 0 <= g <= DESIGN_CAP + 1
        invariant c == if g == 0 then 0 else g - 1
        invariant LastPassing(lin, ramp, 0) == LastPassing(lin, ramp, g)
        decreases DESIGN_CAP + 1 - g
      {
        LuminanceNonNegative(lin, ramp[g]);
        LuminanceNonNegative(lin, ramp[255 - g]);
        if Contrast(lin, ramp[g], ramp[255 - g]) >= CONTRAST_FLOOR {
          c := g;
        } else {
          break;
        }
        g := g + 1;
      }
    }

    method Reset(w': nat, h': nat, n: nat)
      modifies this
      ensures Model() == Blank(old(Model()), w', h', n)
    {
      w, h := w', h';
      prev := Paper(n);
      residue := Ghostless(n);
      flashOld := Paper(n);
      flashNew := Paper(n);
      flashActive := false;
      valid := true;
    }

    method Accumulate(levels: seq<Level>)
      requires |residue| == |prev| == |levels|
      modifies this`residue
      ensures residue == Accumulated(old(Model()), levels)
    {
      for i := 0 to |levels|
        invariant |residue| == |levels|
        invariant forall k :: 0 <= k < i ==> residue[k] == GhostStep(old(residue[k]), prev[k], levels[k])
        invariant forall k :: i <= k < |levels| ==> residue[k] == old(residue[k])
      {
        var g := residue[i] * KEEP / 1024;
        var now: int, was: int := levels[i], prev[i];
        var d := now - was;
        if d > 0 {
          g := g - d * TO_WHITE / 1024;
        } else if d < 0 {
          g := g + -d * TO_BLACK / 1024;
        }
        residue := residue[i := if g < -GHOST_LIMIT then -GHOST_LIMIT else if g > GHOST_LIMIT then GHOST_LIMIT else g];
      }
    }

    method StartWaveform(p: Program, now: nat)
      requires Sized(Model()) && valid
      modifies this
      ensures Model() == StartFlash(old(Model()), p, now)
    {
      for i := 0 to |prev|
        modifies this`flashOld
        invariant |flashOld| == |prev|
        invariant forall k :: 0 <= k < i ==> flashOld[k] == Shown(prev[k], residue[k], cap)
      {
        flashOld := flashOld[i := Shown(prev[i], residue[i], cap)];
      }
      assert flashOld == Displayed(old(Model()));
      residue := Ghostless(|residue|);
      prog, flashStart, flashActive, lastFrame := p, now, true, -1;
    }

    method Write(out: array<Color>)
      requires Sized(Model()) && valid && out.Length >= |prev|
      modifies out
      ensures out[..|prev|] == Settled(Model())
      ensures forall i :: |prev| <= i < out.Length ==> out[i] == old(out[i])
    {
      if cap == 0 {
        for i := 0 to |prev|
          invariant forall k :: 0 <= k < i ==> out[k] == lut[prev[k]]
          invariant forall k :: i <= k < out.Length ==> out[k] == old(out[k])
        {
          out[i] := lut[prev[i]];
        }
      } else {
        for i := 0 to |prev|
          invariant forall k :: 0 <= k < i ==> out[k] == lut[Shown(prev[k], residue[k], cap)]
          invariant forall k :: i <= k < out.Length ==> out[k] == old(out[k])
        {
          out[i] := lut[Shown(prev[i], residue[i], cap)];
        }
      }
    }

    method Show(levels: seq<Level>, w': nat, h': nat, t: Refresh, ramp: Ramp, now: nat, isX3: bool,
                out: array<Color>)
      requires Sized(Model()) && NonNegative(lin)
      requires |levels| == w' * h' <= out.Length
      modifies this, out
      ensures Model() == OnLevels(lin, old(Model()), levels, w', h', t, ramp, now, isX3)
      ensures Sized(Model()) && valid
      ensures out[..|levels|] == Settled(Model())
      ensures forall i :: |levels| <= i < out.Length ==> out[i] == old(out[i])
    {
      hide GhostCap, GhostStep, Shown, ProgramFor;
      var anew := !valid || w' != w || h' != h;
      Prepare(w', h', |levels|, ramp);
      if !anew && t == FastRefresh {
        Accumulate(levels);
      } else if !anew && (t == HalfRefresh || t == FullRefresh) {
        StartWaveform(ProgramFor(t, isX3), now);
      }
      prev := levels;
      if flashActive {
        flashNew := levels;
      }
      Write(out);
    }

    method Prepare(w': nat, h': nat, n: nat, ramp: Ramp)
      requires NonNegative(lin)
      modifies this
      ensures Model() == Prepared(lin, old(Model()), w', h', n, ramp)
    {
      if !valid || w' != w || h' != h {
        Reset(w', h', n);
      }
      cap := CapLevels(ramp);
      lut := ramp;
    }

    method Shake(now: nat, out: array<Color>) returns (refreshed: bool)
      requires Sized(Model())
      requires valid ==> out.Length >= |prev|
      modifies this, out
      ensures Model() == RequestFull(old(Model()), now) && Sized(Model())
      ensures refreshed == valid
      ensures valid ==> out[..|prev|] == Settled(Model())
    {
      if !valid {
        return false;
      }
      StartWaveform(X3_FULL, now);
      flashNew := prev;
      Write(out);
      return true;
    }

    /** 1: a new frame was written; 0: the due frame already was; -1: no flash is running. */
    method FlashFrame(now: nat, out: array<Color>) returns (code: int)
      requires Sized(Model()) && (flashActive ==> valid)
      requires flashActive ==> out.Length >= |prev|
      modifies this, out
      ensures old(flashActive) ==> Model() == FlashStep(old(Model()), now)
      ensures !old(flashActive) ==> Model() == old(Model())
      ensures code == -1 <==> !flashActive
      ensures code == 0 <==> flashActive && old(lastFrame) == lastFrame
      ensures code == -1 || code == 0 || code == 1
      ensures code != 1 ==> out[..] == old(out[..])
      ensures code == 1 ==> forall i :: 0 <= i < |flashOld| ==> out[i] == FlashPixel(Model(), i, FrameDue(Model(), now), decay)
    {
      if !flashActive {
        return -1;
      }
      var total := CountFrames(prog);
      var f := Int32((now - flashStart) % 0x1_0000_0000_0000_0000 / FRAME_MS);
      if f >= total {
        flashActive := false;
        lastFrame := -1;
        return -1;
      }
      if f == lastFrame {
        return 0;
      }
      lastFrame := f;
      PaintFrame(f, out);
      return 1;
    }

    method PaintFrame(f: int, out: array<Color>)
      requires |flashOld| == |flashNew| <= out.Length
      modifies out
      ensures forall i :: 0 <= i < |flashOld| ==> out[i] == FlashPixel(Model(), i, f, decay)
    {
      var tab := FrameTable(f);
      for i := 0 to |flashOld|
        modifies out
        invariant forall k :: 0 <= k < i ==> out[k] == FlashPixel(Model(), k, f, decay)
      {
        var o := flashOld[i];
        var c := ClassOf(prog.oldAssumedWhite || o >= 128, flashNew[i] >= 128);
        AffineIsGlass(prog, c, Frames(f), o as real, decay);
        out[i] := tab[Column(c), o];
      }
    }

    function Column(c: Class): (k: nat)
      ensures k < 4
    {
      match c
      case WW => 0
      case WB => 1
      case BW => 2
      case BB => 3
    }

    /** What frame `f` shows of a pixel of class `c` that started at level `s0`. */
    function TableEntry(c: Class, f: int, s0: Level): Color
      reads this
    {
      lut[Nearest(MapAt(prog, c, Frames(f), decay).At(s0 as real))]
    }

    /** One class of the table, level by level. */
    method FillRow(tab: array2<Color>, c: Class, f: int)
      requires tab.Length0 == 4 && tab.Length1 == 256
      modifies tab
      ensures forall s0: Level :: tab[Column(c), s0] == TableEntry(c, f, s0)
      ensures forall k, s0: Level :: 0 <= k < 4 && k != Column(c) ==> tab[k, s0] == old(tab[k, s0])
    {
      hide MapAt, Nearest, Affine.At;
      var m := AffineAt(prog, c, f, decay);
      for s0 := 0 to 256
        invariant forall s: Level :: s < s0 ==> tab[Column(c), s] == TableEntry(c, f, s)
        invariant forall k, s: Level :: 0 <= k < 4 && k != Column(c) ==> tab[k, s] == old(tab[k, s])
      {
        tab[Column(c), s0] := lut[Nearest(m.At(s0 as real))];
      }
    }

    /** One entry per class and starting level: the frame costs one lookup per pixel. */
    method FrameTable(f: int) returns (tab: array2<Color>)
      ensures fresh(tab) && tab.Length0 == 4 && tab.Length1 == 256
      ensures forall c: Class, s0: Level :: tab[Column(c), s0] == TableEntry(c, f, s0)
    {
      hide TableEntry;
      tab := new Color[4, 256];
      for k := 0 to 4
        invariant forall c: Class, s0: Level :: Column(c) < k ==> tab[Column(c), s0] == TableEntry(c, f, s0)
      {
        var c := [WW, WB, BW, BB][k];
        FillRow(tab, c, f);
      }
    }

    method Stop()
      modifies this
      ensures Model() == EndFlash(old(Model()))
    {
      flashActive := false;
      lastFrame := -1;
    }

    method Drop()
      modifies this
      ensures Model() == Invalidate(old(Model()))
    {
      valid := false;
      flashActive := false;
    }
  }
}
