/** The page-tap candidate: a finger that landed on no pad control (ios/TapCandidate.h). */
module TapCandidate {
  import opened Numbers

  /** `kNone`: nothing is armed. */
  const NOBODY := -1

  datatype Armed = Armed(id: int, x: real, y: real, downMs: nat)

  const DISARMED := Armed(NOBODY, 0.0, 0.0, 0)

  function Arm(c: Armed, id: int, x: real, y: real, tMs: nat, onControl: bool, concurrent: nat): Armed {
    if concurrent > 1 then c.(id := NOBODY)
    else if !onControl && c.id == NOBODY then Armed(id, x, y, tMs)
    else c
  }

  function Drag(c: Armed, id: int, x: real, y: real, slop: real): Armed {
    if id == c.id && (Abs(x - c.x) > slop || Abs(y - c.y) > slop) then c.(id := NOBODY) else c
  }

  function Lift(c: Armed, id: int, cancelled: bool): (Armed, bool) {
    if id != c.id then (c, false) else (c.(id := NOBODY), !cancelled)
  }

  /** A second finger disarms whatever was armed, on a control or off it; a first one never disarms. */
  lemma SecondFingerDisarms(c: Armed, id: int, x: real, y: real, tMs: nat, onControl: bool, concurrent: nat)
    ensures var d := Arm(c, id, x, y, tMs, onControl, concurrent);
      if concurrent >= 2 then d.id == NOBODY else c.id != NOBODY ==> d == c
  {
  }

  class Candidate {
    var id: int
    var x: real
    var y: real
    var downMs: nat

    ghost function Model(): Armed
      reads this
    {
      Armed(id, x, y, downMs)
    }

    constructor ()
      ensures Model() == DISARMED
    {
      id, x, y, downMs := NOBODY, 0.0, 0.0, 0;
    }

    method FingerDown(id': int, x': real, y': real, tMs: nat, onControl: bool, concurrent: nat)
      modifies this
      ensures Model() == Arm(old(Model()), id', x', y', tMs, onControl, concurrent)
    {
      if concurrent > 1 {
        id := NOBODY;
        return;
      }
      if !onControl && id == NOBODY {
        id, x, y, downMs := id', x', y', tMs;
      }
    }

    method FingerMove(id': int, x': real, y': real, slop: real)
      modifies this
      ensures Model() == Drag(old(Model()), id', x', y', slop)
    {
      if id' != id {
        return;
      }
      if Abs(x' - x) > slop || Abs(y' - y) > slop {
        id := NOBODY;
      }
    }

    /** True: fire the tap at the point the finger landed on. */
    method FingerUp(id': int, cancelled: bool) returns (fire: bool)
      modifies this
      ensures Model() == Lift(old(Model()), id', cancelled).0
      ensures fire == Lift(old(Model()), id', cancelled).1
    {
      if id' != id {
        return false;
      }
      id := NOBODY;
      return !cancelled;
    }

    method Spoil()
      modifies this
      ensures Model() == old(Model()).(id := NOBODY)
    {
      id := NOBODY;
    }
  }
}
