/** The optics of an e-ink refresh: a pixel moves exponentially toward the rail it is driven at
    (src/EinkPanel.h). Levels are reals, and the per-frame decay `r` stands for exp(-1/tau). */
module EinkOptics {
  import opened Numbers

  const INK := 0.0
  const PAPER := 255.0

  datatype Drive = Black | Hold | White

  /** Transition classes: old pixel, then new pixel. */
  datatype Class = WW | WB | BW | BB

  datatype Segment = Segment(frames: nat, ww: Drive, wb: Drive, bw: Drive, bb: Drive) {
    function On(c: Class): Drive {
      match c
      case WW => ww
      case WB => wb
      case BW => bw
      case BB => bb
    }
  }

  datatype Program = Program(oldAssumedWhite: bool, segs: seq<Segment>)

  const X3_FULL := Program(true, [
    Segment(24, Black, Hold, Hold, White),
    Segment(4, Hold, Hold, Hold, Hold),
    Segment(14, White, Black, White, Black),
    Segment(10, White, Hold, White, Hold),
    Segment(10, Hold, Black, Hold, Black)])

  const X3_HALF_SCRUB := Program(false, [
    Segment(24, White, Black, White, Black),
    Segment(1, Hold, Hold, Hold, Hold)])

  function ClassOf(oldWhite: bool, newWhite: bool): Class {
    if oldWhite then (if newWhite then WW else WB) else (if newWhite then BW else BB)
  }

  /** Frames of the first `i` segments. */
  function Elapsed(segs: seq<Segment>, i: nat): nat
    requires i <= |segs|
  {
    if i == 0 then 0 else Elapsed(segs, i - 1) + segs[i - 1].frames
  }

  function TotalFrames(p: Program): nat {
    Elapsed(p.segs, |p.segs|)
  }

  method CountFrames(p: Program) returns (n: nat)
    ensures n == TotalFrames(p)
  {
    n := 0;
    for i := 0 to |p.segs|
      invariant n == Elapsed(p.segs, i)
    {
      n := n + p.segs[i].frames;
    }
  }

  // --- the reference: one frame at a time ---

  function Rail(d: Drive): real {
    if d == White then PAPER else INK
  }

  function OneFrame(s: real, d: Drive, r: real): real {
    if d == Hold then s else Rail(d) + (s - Rail(d)) * r
  }

  /** How frame `k` drives a pixel of class `c`; past the last frame nothing does. */
  function DriveAt(segs: seq<Segment>, c: Class, k: nat): Drive {
    if segs == [] then Hold
    else if k < segs[0].frames then segs[0].On(c)
    else DriveAt(segs[1..], c, k - segs[0].frames)
  }

  function Glass(p: Program, c: Class, frames: nat, s: real, r: real): real {
    if frames == 0 then s
    else OneFrame(Glass(p, c, frames - 1, s, r), DriveAt(p.segs, c, frames - 1), r)
  }

  function Pow(r: real, n: nat): real {
    if n == 0 then 1.0 else r * Pow(r, n - 1)
  }

  // --- a run of equal frames in closed form ---

  function Driven(s: real, d: Drive, r: real, n: nat): real {
    if d == Hold then s else Rail(d) + (s - Rail(d)) * Pow(r, n)
  }

  lemma {:induction false} GlassRun(p: Program, c: Class, from: nat, n: nat, d: Drive, s: real, r: real)
    requires forall k :: from <= k < from + n ==> DriveAt(p.segs, c, k) == d
    ensures Glass(p, c, from + n, s, r) == Driven(Glass(p, c, from, s, r), d, r, n)
  {
    if n == 0 {
      DrivenNone(Glass(p, c, from, s, r), d, r);
    } else {
      GlassRun(p, c, from, n - 1, d, s, r);
      assert DriveAt(p.segs, c, from + n - 1) == d;
      DrivenOnce(Glass(p, c, from, s, r), d, r, n);
    }
  }

  lemma DrivenNone(g: real, d: Drive, r: real)
    ensures Driven(g, d, r, 0) == g
  {
    assert Pow(r, 0) == 1.0;
  }

  lemma DrivenOnce(g: real, d: Drive, r: real, n: nat)
    requires n > 0
    ensures OneFrame(Driven(g, d, r, n - 1), d, r) == Driven(g, d, r, n)
  {
    assert Pow(r, n) == r * Pow(r, n - 1);
    MulSwap(g - Rail(d), Pow(r, n - 1), r);
  }

  lemma MulSwap(x: real, y: real, z: real)
    ensures x * y * z == x * (z * y)
  {
  }

  lemma {:induction false} DriveInSegment(segs: seq<Segment>, c: Class, i: nat, k: nat)
    requires i < |segs| && Elapsed(segs, i) <= k < Elapsed(segs, i + 1)
    ensures DriveAt(segs, c, k) == segs[i].On(c)
  {
    if i == 0 {
      assert Elapsed(segs, 0 + 1) == segs[0].frames;
    } else {
      ElapsedTail(segs, i);
      ElapsedTail(segs, i + 1);
      DriveInSegment(segs[1..], c, i - 1, k - segs[0].frames);
    }
  }

  lemma {:induction false} ElapsedTail(segs: seq<Segment>, i: nat)
    requires 0 < i <= |segs|
    ensures Elapsed(segs, i) == segs[0].frames + Elapsed(segs[1..], i - 1)
  {
    if i > 1 {
      ElapsedTail(segs, i - 1);
    }
  }

  lemma {:induction false} DrivePastEnd(segs: seq<Segment>, c: Class, k: nat)
    requires k >= Elapsed(segs, |segs|)
    ensures DriveAt(segs, c, k) == Hold
  {
    if segs != [] {
      ElapsedTail(segs, |segs|);
      DrivePastEnd(segs[1..], c, k - segs[0].frames);
    }
  }

  /** `n` frames into segment `i`, the glass is where the segment's drive takes it. */
  lemma GlassSegment(p: Program, c: Class, i: nat, n: nat, s: real, r: real)
    requires i < |p.segs| && n <= p.segs[i].frames
    ensures Glass(p, c, Elapsed(p.segs, i) + n, s, r)
         == Driven(Glass(p, c, Elapsed(p.segs, i), s, r), p.segs[i].On(c), r, n)
  {
    forall k | Elapsed(p.segs, i) <= k < Elapsed(p.segs, i) + n
      ensures DriveAt(p.segs, c, k) == p.segs[i].On(c)
    {
      DriveInSegment(p.segs, c, i, k);
    }
    GlassRun(p, c, Elapsed(p.segs, i), n, p.segs[i].On(c), s, r);
  }

  // --- the affine map, segment by segment ---

  datatype Affine = Affine(a: real, b: real) {
    function At(s: real): real {
      a * s + b
    }
  }

  const IDENTITY := Affine(1.0, 0.0)

  /** A map followed by frames that keep the fraction `k` of the distance to the drive's rail. */
  function Pull(m: Affine, d: Drive, k: real): Affine {
    Affine(k * m.a, k * m.b + Rail(d) * (1.0 - k))
  }

  /** `n` more frames of drive `d` on top of a map. */
  function Compose(m: Affine, d: Drive, r: real, n: nat): Affine {
    if d == Hold then m else Pull(m, d, Pow(r, n))
  }

  function MapFrom(p: Program, c: Class, i: nat, left: nat, r: real, m: Affine): Affine
    decreases |p.segs| - i
  {
    if i >= |p.segs| || left == 0 then m
    else
      var n := Least(left, p.segs[i].frames);
      MapFrom(p, c, i + 1, left - n, r, Compose(m, p.segs[i].On(c), r, n))
  }

  function MapAt(p: Program, c: Class, frames: nat, r: real): Affine {
    MapFrom(p, c, 0, frames, r, IDENTITY)
  }

  lemma MapFromStep(p: Program, c: Class, i: nat, left: nat, r: real, m: Affine)
    requires i < |p.segs| && left > 0
    ensures var n := Least(left, p.segs[i].frames);
      MapFrom(p, c, i, left, r, m) == MapFrom(p, c, i + 1, left - n, r, Compose(m, p.segs[i].On(c), r, n))
  {
  }

  method PowN(r: real, n: nat) returns (k: real)
    ensures k == Pow(r, n)
  {
    k := 1.0;
    for i := 0 to n
      invariant k == Pow(r, i)
    {
      k := r * k;
    }
  }

  /** A count below zero drives nothing. */
  function Frames(count: int): nat {
    if count < 0 then 0 else count
  }

  /** The map of a pixel of class `c` after `frames` frames, one multiply-add per segment. */
  method AffineAt(p: Program, c: Class, frames: int, r: real) returns (m: Affine)
    ensures m == MapAt(p, c, Frames(frames), r)
  {
    m := IDENTITY;
    var left := frames;
    var i := 0;
    while i < |p.segs| && left > 0
      invariant 0 <= i <= |p.segs|
      invariant MapFrom(p, c, i, Frames(left), r, m) == MapAt(p, c, Frames(frames), r)
    {
      var n := Least(left, p.segs[i].frames);
      var d := p.segs[i].On(c);
      MapFromStep(p, c, i, left, r, m);
      left := left - n;
      i := i + 1;
      if d == Hold {
        continue;
      }
      var k := PowN(r, n);
      m := Pull(m, d, k);
    }
  }

  lemma ComposeDrives(m: Affine, s: real, d: Drive, r: real, n: nat)
    ensures Compose(m, d, r, n).At(s) == Driven(m.At(s), d, r, n)
  {
    Distribute(m.a, m.b, s, Rail(d), Pow(r, n));
  }

  lemma Distribute(a: real, b: real, s: real, t: real, k: real)
    ensures t + (a * s + b - t) * k == (k * a) * s + (k * b + t * (1.0 - k))
  {
    assert (a * s + b - t) * k == (a * s) * k + b * k - t * k;
    assert (a * s) * k == (k * a) * s;
  }

  lemma {:induction false} MapFromIsGlass(p: Program, c: Class, i: nat, left: nat, r: real, m: Affine, s: real)
    requires i <= |p.segs|
    requires m.At(s) == Glass(p, c, Elapsed(p.segs, i), s, r)
    ensures MapFrom(p, c, i, left, r, m).At(s) == Glass(p, c, Elapsed(p.segs, i) + left, s, r)
    decreases |p.segs| - i
  {
    var e := Elapsed(p.segs, i);
    if i == |p.segs| {
      forall k | e <= k < e + left ensures DriveAt(p.segs, c, k) == Hold {
        DrivePastEnd(p.segs, c, k);
      }
      GlassRun(p, c, e, left, Hold, s, r);
    } else if left > 0 {
      var n := Least(left, p.segs[i].frames);
      GlassSegment(p, c, i, n, s, r);
      var m' := Compose(m, p.segs[i].On(c), r, n);
      ComposeDrives(m, s, p.segs[i].On(c), r, n);
      if n == p.segs[i].frames {
        MapFromIsGlass(p, c, i + 1, left - n, r, m', s);
      }
    }
  }

  /** The affine map is the optics stepped one frame at a time, for every program, class, frame and level. */
  lemma AffineIsGlass(p: Program, c: Class, frames: nat, s: real, r: real)
    ensures MapAt(p, c, frames, r).At(s) == Glass(p, c, frames, s, r)
  {
    MapFromIsGlass(p, c, 0, frames, r, IDENTITY, s);
  }

  // --- bounds ---

  lemma {:induction false} GlassInRange(p: Program, c: Class, frames: nat, s: real, r: real)
    requires 0.0 < r < 1.0 && INK <= s <= PAPER
    ensures INK <= Glass(p, c, frames, s, r) <= PAPER
  {
    if frames > 0 {
      GlassInRange(p, c, frames - 1, s, r);
      OneFrameInRange(Glass(p, c, frames - 1, s, r), DriveAt(p.segs, c, frames - 1), r);
    }
  }

  lemma OneFrameInRange(g: real, d: Drive, r: real)
    requires 0.0 < r < 1.0 && INK <= g <= PAPER
    ensures INK <= OneFrame(g, d, r) <= PAPER
  {
    Shrink(g, r);
    Shrink(PAPER - g, r);
    assert (g - PAPER) * r == -((PAPER - g) * r);
  }

  lemma Shrink(x: real, r: real)
    requires 0.0 < r < 1.0 && 0.0 <= x
    ensures 0.0 <= x * r <= x
  {
  }

  /** The rail a transition's new pixel selects. */
  function Target(c: Class): Drive {
    if c == WW || c == BW then White else Black
  }

  /** Two runs at one rail drive as one run. */
  lemma {:induction false} DrivenTwice(s: real, d: Drive, r: real, m: nat, n: nat)
    ensures Driven(Driven(s, d, r, m), d, r, n) == Driven(s, d, r, m + n)
  {
    if n == 0 {
      DrivenNone(Driven(s, d, r, m), d, r);
    } else {
      DrivenTwice(s, d, r, m, n - 1);
      DrivenOnce(Driven(s, d, r, m), d, r, n);
      DrivenOnce(s, d, r, m + n);
    }
  }

  lemma {:induction false} PowPositive(r: real, n: nat)
    requires 0.0 < r
    ensures Pow(r, n) > 0.0
  {
    if n > 0 {
      PowPositive(r, n - 1);
    }
  }

  lemma CloseToRail(s: real, d: Drive, r: real, n: nat)
    requires 0.0 < r && INK <= s <= PAPER && d != Hold
    ensures -(PAPER * Pow(r, n)) <= Driven(s, d, r, n) - Rail(d) <= PAPER * Pow(r, n)
  {
    PowPositive(r, n);
    var x, k := s - Rail(d), Pow(r, n);
    assert x * k <= PAPER * k;
    assert (-x) * k <= PAPER * k;
  }

  /** The full waveform ends with twenty-four frames at the target's rail, whatever came before. */
  lemma FullEndsAtTarget(c: Class, s: real, r: real) returns (before: real)
    requires 0.0 < r < 1.0 && INK <= s <= PAPER
    ensures INK <= before <= PAPER
    ensures Glass(X3_FULL, c, TotalFrames(X3_FULL), s, r) == Driven(before, Target(c), r, 24)
  {
    var p := X3_FULL;
    assert Elapsed(p.segs, 1) == 24 && Elapsed(p.segs, 2) == 28 && Elapsed(p.segs, 3) == 42;
    assert Elapsed(p.segs, 4) == 52 && Elapsed(p.segs, 5) == 62;
    GlassSegment(p, c, 2, 14, s, r);
    GlassSegment(p, c, 3, 10, s, r);
    GlassSegment(p, c, 4, 10, s, r);
    before := Glass(p, c, 28, s, r);
    GlassInRange(p, c, 28, s, r);
    DrivenTwice(before, Target(c), r, 14, 10);
  }

  /** After all its frames either waveform leaves every pixel within 255 * r^24 of its target's rail. */
  lemma WaveformSettles(p: Program, c: Class, s: real, r: real)
    requires p == X3_FULL || p == X3_HALF_SCRUB
    requires 0.0 < r < 1.0 && INK <= s <= PAPER
    ensures var off := Glass(p, c, TotalFrames(p), s, r) - Rail(Target(c));
      -(PAPER * Pow(r, 24)) <= off <= PAPER * Pow(r, 24)
  {
    if p == X3_FULL {
      var before := FullEndsAtTarget(c, s, r);
      CloseToRail(before, Target(c), r, 24);
    } else {
      assert Elapsed(p.segs, 1) == 24 && Elapsed(p.segs, 2) == 25;
      GlassSegment(p, c, 0, 24, s, r);
      GlassSegment(p, c, 1, 1, s, r);
      CloseToRail(s, Target(c), r, 24);
    }
  }
}
