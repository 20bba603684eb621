/** The deliberate tap: a classifier over one finger stream (ios/ZenVerbs.h). Positions are reals. */
module ZenVerbs {
  import opened Numbers

  datatype Verb = NoVerb | Down

  const TAP_SLOP := 28.0
  const TAP_MAX_MS := 400
  const MAX_FINGERS := 10

  datatype Finger = Finger(id: int, downX: real, downY: real, lastX: real, lastY: real, excursion: real, up: bool)

  /** `fingers` are the touched slots, in the order the fingers landed. */
  datatype Tracker = Tracker(
    fingers: seq<Finger>, active: nat, peak: nat, overflow: bool, cancelled: bool, firstDownMs: nat)

  const IDLE := Tracker([], 0, 0, false, false, 0)

  /** The slot of a finger still down, or -1. */
  function SlotOf(fingers: seq<Finger>, id: int): (k: int)
    ensures -1 <= k < |fingers|
    ensures k >= 0 ==> fingers[k].id == id && !fingers[k].up
    ensures k < 0 ==> forall i :: 0 <= i < |fingers| ==> fingers[i].id != id || fingers[i].up
  {
    if fingers == [] then -1
    else if fingers[0].id == id && !fingers[0].up then 0
    else
      var k := SlotOf(fingers[1..], id);
      if k < 0 then -1 else k + 1
  }

  function Landed(s: Tracker, id: int, x: real, y: real, tMs: nat): Tracker {
    var s0 := if s.active == 0 then IDLE.(firstDownMs := tMs) else s;
    var s1 := s0.(active := s0.active + 1, peak := if s0.active + 1 > s0.peak then s0.active + 1 else s0.peak);
    if |s1.fingers| >= MAX_FINGERS then s1.(overflow := true)
    else s1.(fingers := s1.fingers + [Finger(id, x, y, x, y, 0.0, false)])
  }

  function MovedTo(f: Finger, x: real, y: real): Finger {
    f.(lastX := x, lastY := y,
       excursion := Max(Max(f.excursion, Abs(x - f.downX)), Abs(y - f.downY)))
  }

  function Moved(s: Tracker, id: int, x: real, y: real): Tracker {
    var k := SlotOf(s.fingers, id);
    if k < 0 then s else s.(fingers := s.fingers[k := MovedTo(s.fingers[k], x, y)])
  }

  function Classify(s: Tracker, tMs: nat): Verb {
    if s.cancelled || s.overflow then NoVerb
    else if |s.fingers| != s.peak || |s.fingers| == 0 then NoVerb
    else if s.peak != 1 then NoVerb
    else
      var dur := if tMs >= s.firstDownMs then tMs - s.firstDownMs else 0;
      if dur > TAP_MAX_MS || s.fingers[0].excursion > TAP_SLOP then NoVerb else Down
  }

  /** The slot of the finger that lifts: its last position counted, and up. */
  function Raised(s: Tracker, id: int, x: real, y: real): Tracker {
    var k := SlotOf(s.fingers, id);
    if k < 0 then s else s.(fingers := s.fingers[k := MovedTo(s.fingers[k], x, y).(up := true)])
  }

  function Lifted(s: Tracker, id: int, x: real, y: real, tMs: nat, cancelled: bool): (Tracker, Verb) {
    var s1 := Raised(s, id, x, y);
    var s2 := s1.(cancelled := s1.cancelled || cancelled, active := if s1.active > 0 then s1.active - 1 else 0);
    if s2.active != 0 then (s2, NoVerb) else (IDLE, Classify(s2, tMs))
  }

  /** The object: ten slots, filled in landing order and never shifted. */
  class Classifier {
    const slots: array<Finger>
    var touched: nat
    var active: nat
    var peak: nat
    var overflow: bool
    var cancelled: bool
    var firstDownMs: nat

    ghost predicate Valid()
      reads this
    {
      slots.Length == MAX_FINGERS && touched <= MAX_FINGERS
    }

    ghost function Model(): Tracker
      requires Valid()
      reads this, slots
    {
      Tracker(slots[..touched], active, peak, overflow, cancelled, firstDownMs)
    }

    constructor ()
      ensures Valid() && Model() == IDLE && fresh(slots)
    {
      slots := new Finger[MAX_FINGERS](i => Finger(0, 0.0, 0.0, 0.0, 0.0, 0.0, false));
      touched, active, peak, overflow, cancelled, firstDownMs := 0, 0, 0, false, false, 0;
    }

    method Reset()
      requires Valid()
      modifies this
      ensures Valid() && Model() == IDLE
    {
      touched, active, peak, overflow, cancelled, firstDownMs := 0, 0, 0, false, false, 0;
    }

    method FindSlot(id: int) returns (k: int)
      requires Valid()
      ensures k == SlotOf(slots[..touched], id)
    {
      for i := 0 to touched
        invariant SlotOf(slots[..touched], id) ==
          (var rest := SlotOf(slots[i..touched], id); if rest < 0 then -1 else i + rest)
      {
        assert slots[i..touched][1..] == slots[i + 1..touched];
        if slots[i].id == id && !slots[i].up {
          return i;
        }
      }
      return -1;
    }

    method FingerDown(id: int, x: real, y: real, tMs: nat)
      requires Valid()
      modifies this, slots
      ensures Valid() && Model() == Landed(old(Model()), id, x, y, tMs)
    {
      if active == 0 {
        Reset();
        firstDownMs := tMs;
      }
      active := active + 1;
      if active > peak {
        peak := active;
      }
      if touched >= MAX_FINGERS {
        overflow := true;
        return;
      }
      slots[touched] := Finger(id, x, y, x, y, 0.0, false);
      touched := touched + 1;
    }

    method FingerMove(id: int, x: real, y: real)
      requires Valid()
      modifies slots
      ensures Valid() && Model() == Moved(old(Model()), id, x, y)
    {
      var k := FindSlot(id);
      if k < 0 {
        return;
      }
      var f := slots[k];
      var ex, ey := Abs(x - f.downX), Abs(y - f.downY);
      f := f.(lastX := x, lastY := y);
      if ex > f.excursion {
        f := f.(excursion := ex);
      }
      if ey > f.excursion {
        f := f.(excursion := ey);
      }
      slots[k] := f;
    }

    method RaiseSlot(id: int, x: real, y: real)
      requires Valid()
      modifies slots
      ensures Valid() && Model() == Raised(old(Model()), id, x, y)
    {
      hide MovedTo;
      var k := FindSlot(id);
      if k >= 0 {
        FingerMove(id, x, y);
        slots[k] := slots[k].(up := true);
        assert slots[..touched] == old(Model()).fingers[k := MovedTo(old(slots[k]), x, y).(up := true)];
      }
    }

    /** Answers only when this lift is the last one. */
    method FingerUp(id: int, x: real, y: real, tMs: nat, cancel: bool) returns (verb: Verb)
      requires Valid()
      modifies this, slots
      ensures Valid() && Model() == Lifted(old(Model()), id, x, y, tMs, cancel).0
      ensures verb == Lifted(old(Model()), id, x, y, tMs, cancel).1
    {
      hide Raised, SlotOf, Classify;
      RaiseSlot(id, x, y);
      if cancel {
        cancelled := true;
      }
      if active > 0 {
        active := active - 1;
      }
      if active != 0 {
        return NoVerb;
      }
      verb := Judge(tMs);
      Reset();
    }

    method Judge(tMs: nat) returns (verb: Verb)
      requires Valid()
      ensures verb == Classify(Model(), tMs)
    {
      if cancelled || overflow {
        return NoVerb;
      }
      if touched != peak || touched == 0 {
        return NoVerb;
      }
      if peak != 1 {
        return NoVerb;
      }
      var dur := if tMs >= firstDownMs then tMs - firstDownMs else 0;
      if dur > TAP_MAX_MS {
        return NoVerb;
      }
      if slots[0].excursion > TAP_SLOP {
        return NoVerb;
      }
      return Down;
    }
  }
}
