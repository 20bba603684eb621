/** The event watch: one finger stream fed to the classifier, the tap candidate and the pad
    (ios/CrossPointIOSShim.cpp), with zen off, the window's geometry known and no drawer up. */
module TouchPipeline {
  import opened ZenVerbs
  import opened TapCandidate
  import opened PadCore

  datatype Event =
    | FingerDown(id: int, x: real, y: real, tMs: nat)
    | FingerMotion(id: int, x: real, y: real)
    | FingerUp(id: int, x: real, y: real, tMs: nat, cancelled: bool)

  datatype Rect = Rect(x: real, y: real, w: real, h: real) {
    predicate Holds(px: real, py: real) {
      x <= px < x + w && y <= py < y + h
    }
  }

  /** The first control from `i` on that a point lands on, or -1. */
  function HitFrom(pads: seq<Rect>, x: real, y: real, i: nat): (k: int)
    ensures -1 <= k < |pads|
    ensures k >= 0 ==> i <= k && pads[k].Holds(x, y) && forall j :: i <= j < k ==> !pads[j].Holds(x, y)
    ensures k < 0 ==> forall j :: i <= j < |pads| ==> !pads[j].Holds(x, y)
    decreases |pads| - i
  {
    if i >= |pads| then -1 else if pads[i].Holds(x, y) then i else HitFrom(pads, x, y, i + 1)
  }

  /** The first control a point lands on, or -1. */
  function Hit(pads: seq<Rect>, x: real, y: real): (k: int)
    ensures -1 <= k < |pads|
    ensures k >= 0 ==> pads[k].Holds(x, y)
    ensures forall j :: 0 <= j < (if k < 0 then |pads| else k) ==> !pads[j].Holds(x, y)
  {
    HitFrom(pads, x, y, 0)
  }

  /** `slop` is the candidate's, in pixels. */
  datatype Layout = Layout(pads: seq<Rect>, slop: real)

  datatype Touch = Touch(zen: Tracker, cand: Armed, slots: seq<Holder>)

  /** What an event makes happen: button edges, the classifier's verb, and a chip or word tap. */
  datatype Output = Output(actions: seq<PadCore.Action>, verb: Verb, tap: bool)

  function Start(l: Layout): Touch {
    Touch(IDLE, DISARMED, Empty(|l.pads|))
  }

  function Watch(l: Layout, t: Touch, e: Event): (Touch, Output) {
    match e
    case FingerDown(id, x, y, tMs) =>
      var zen := Landed(t.zen, id, x, y, tMs);
      if zen.active > 1 then
        (Touch(zen, t.cand.(id := NOBODY), Empty(|t.slots|)), Output(Releases(t.slots, |t.slots|), NoVerb, false))
      else
        var hit := Hit(l.pads, x, y);
        var (slots, actions) := Pressed(t.slots, hit, id);
        (Touch(zen, Arm(t.cand, id, x, y, tMs, hit >= 0, zen.active), slots), Output(actions, NoVerb, false))
    case FingerMotion(id, x, y) =>
      var k := HeldSlot(t.slots, id);
      var off := 0 <= k < |l.pads| && !l.pads[k].Holds(x, y);
      var (slots, actions) := if off then Let(t.slots, id) else (t.slots, []);
      (Touch(Moved(t.zen, id, x, y), Drag(t.cand, id, x, y, l.slop), slots), Output(actions, NoVerb, false))
    case FingerUp(id, x, y, tMs, cancelled) =>
      var (zen, verb) := Lifted(t.zen, id, x, y, tMs, cancelled);
      var (cand, tap) := Lift(t.cand, id, cancelled);
      var (slots, actions) := Let(t.slots, id);
      (Touch(zen, cand, slots), Output(actions, verb, tap))
  }

  class EventWatch {
    const pads: seq<Rect>
    const slop: real
    const zen: Classifier
    const cand: Candidate
    const core: Pad

    ghost predicate Valid()
      reads zen
    {
      zen.Valid() && core.Valid() && core.down.Length == |pads|
    }

    ghost function Model(): Touch
      requires Valid()
      reads zen, zen.slots, cand, core.down, core.finger
    {
      Touch(zen.Model(), cand.Model(), core.Model())
    }

    constructor (l: Layout)
      ensures Valid() && pads == l.pads && slop == l.slop && Model() == Start(l)
    {
      pads, slop := l.pads, l.slop;
      zen := new Classifier();
      cand := new Candidate();
      core := new Pad(|l.pads|);
    }

    method HitTest(x: real, y: real) returns (k: int)
      ensures k == Hit(pads, x, y)
    {
      for i := 0 to |pads|
        invariant Hit(pads, x, y) == HitFrom(pads, x, y, i)
      {
        if pads[i].Holds(x, y) {
          return i;
        }
      }
      return -1;
    }

    method PadWatch(e: Event) returns (out: Output)
      requires Valid()
      modifies zen, zen.slots, cand, core.down, core.finger
      ensures Valid()
      ensures Model() == Watch(Layout(pads, slop), old(Model()), e).0
      ensures out == Watch(Layout(pads, slop), old(Model()), e).1
    {
      match e {
        case FingerDown(id, x, y, tMs) =>
          out := OnDown(id, x, y, tMs);
        case FingerMotion(id, x, y) =>
          out := OnMotion(id, x, y);
        case FingerUp(id, x, y, tMs, cancelled) =>
          var verb := zen.FingerUp(id, x, y, tMs, cancelled);
          var tap := cand.FingerUp(id, cancelled);
          var actions := core.FingerUp(id);
          out := Output(actions, verb, tap);
      }
    }

    method OnDown(id: int, x: real, y: real, tMs: nat) returns (out: Output)
      requires Valid()
      modifies zen, zen.slots, cand, core.down, core.finger
      ensures Valid()
      ensures Model() == Watch(Layout(pads, slop), old(Model()), FingerDown(id, x, y, tMs)).0
      ensures out == Watch(Layout(pads, slop), old(Model()), FingerDown(id, x, y, tMs)).1
    {
      zen.FingerDown(id, x, y, tMs);
      var concurrent := zen.active;
      var actions: seq<PadCore.Action>;
      if concurrent > 1 {
        cand.Spoil();
        actions := core.Reset();
        return Output(actions, NoVerb, false);
      }
      var hit := HitTest(x, y);
      cand.FingerDown(id, x, y, tMs, hit >= 0, concurrent);
      actions := core.FingerDown(hit, id);
      return Output(actions, NoVerb, false);
    }

    method OnMotion(id: int, x: real, y: real) returns (out: Output)
      requires Valid()
      modifies zen.slots, cand, core.down
      ensures Valid()
      ensures Model() == Watch(Layout(pads, slop), old(Model()), FingerMotion(id, x, y)).0
      ensures out == Watch(Layout(pads, slop), old(Model()), FingerMotion(id, x, y)).1
    {
      zen.FingerMove(id, x, y);
      cand.FingerMove(id, x, y, slop);
      var slot := core.SlotHeldBy(id);
      if slot == NO_SLOT || pads[slot].Holds(x, y) {
        return Output([], NoVerb, false);
      }
      var actions := core.FingerLeftSlot(id);
      return Output(actions, NoVerb, false);
    }
  }
}
