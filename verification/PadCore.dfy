/** Finger events to button presses: pure passthrough (ios/PadCore.h, ios/PadCore.cpp). */
module PadCore {

  const NO_SLOT := -1

  datatype Action = Press(slot: nat) | Release(slot: nat)

  /** Who holds a slot. */
  datatype Holder = Nobody | Held(finger: int)

  /** The lowest slot from `i` on that a finger holds, or -1. */
  function HeldFrom(slots: seq<Holder>, finger: int, i: nat): (k: int)
    ensures -1 <= k < |slots|
    ensures k >= 0 ==> i <= k && slots[k] == Held(finger) && forall j :: i <= j < k ==> slots[j] != Held(finger)
    ensures k < 0 ==> forall j :: i <= j < |slots| ==> slots[j] != Held(finger)
    decreases |slots| - i
  {
    if i >= |slots| then NO_SLOT
    else if slots[i] == Held(finger) then i
    else HeldFrom(slots, finger, i + 1)
  }

  function HeldSlot(slots: seq<Holder>, finger: int): int {
    HeldFrom(slots, finger, 0)
  }

  function Pressed(slots: seq<Holder>, slot: int, finger: int): (seq<Holder>, seq<Action>) {
    if slot < 0 || slot >= |slots| || slots[slot].Held? then (slots, [])
    else (slots[slot := Held(finger)], [Press(slot)])
  }

  function Let(slots: seq<Holder>, finger: int): (seq<Holder>, seq<Action>) {
    var k := HeldSlot(slots, finger);
    if k < 0 then (slots, []) else (slots[k := Nobody], [Release(k)])
  }

  /** The releases a reset emits, in slot order. */
  function Releases(slots: seq<Holder>, n: nat): seq<Action>
    requires n <= |slots|
  {
    if n == 0 then [] else Releases(slots, n - 1) + (if slots[n - 1].Held? then [Release(n - 1)] else [])
  }

  function Empty(n: nat): seq<Holder> {
    seq(n, i => Nobody)
  }

  class Pad {
    const down: array<bool>
    const finger: array<int>

    ghost predicate Valid() {
      down.Length == finger.Length
    }

    ghost function Model(): seq<Holder>
      requires Valid()
      reads down, finger
    {
      seq(down.Length, i requires 0 <= i < down.Length reads down, finger =>
        if down[i] then Held(finger[i]) else Nobody)
    }

    constructor (slotCount: nat)
      ensures Valid() && Model() == Empty(slotCount) && fresh(down) && fresh(finger)
    {
      down := new bool[slotCount](i => false);
      finger := new int[slotCount](i => 0);
    }

    method FingerDown(slot: int, id: int) returns (out: seq<Action>)
      requires Valid()
      modifies down, finger
      ensures Model() == Pressed(old(Model()), slot, id).0 && out == Pressed(old(Model()), slot, id).1
    {
      if slot < 0 || slot >= down.Length {
        return [];
      }
      if down[slot] {
        return [];
      }
      down[slot] := true;
      finger[slot] := id;
      return [Press(slot)];
    }

    method SlotHeldBy(id: int) returns (k: int)
      requires Valid()
      ensures k == HeldSlot(Model(), id)
    {
      for i := 0 to down.Length
        invariant HeldSlot(Model(), id) == HeldFrom(Model(), id, i)
      {
        if down[i] && finger[i] == id {
          return i;
        }
      }
      return NO_SLOT;
    }

    method FingerUp(id: int) returns (out: seq<Action>)
      requires Valid()
      modifies down
      ensures Model() == Let(old(Model()), id).0 && out == Let(old(Model()), id).1
    {
      var slot := SlotHeldBy(id);
      if slot == NO_SLOT {
        return [];
      }
      down[slot] := false;
      return [Release(slot)];
    }

    method FingerLeftSlot(id: int) returns (out: seq<Action>)
      requires Valid()
      modifies down
      ensures Model() == Let(old(Model()), id).0 && out == Let(old(Model()), id).1
    {
      out := FingerUp(id);
    }

    method Reset() returns (out: seq<Action>)
      requires Valid()
      modifies down
      ensures Model() == Empty(down.Length)
      ensures out == Releases(old(Model()), down.Length)
    {
      out := [];
      for i := 0 to down.Length
        invariant forall k :: 0 <= k < i ==> !down[k]
        invariant forall k :: i <= k < down.Length ==> down[k] == old(down[k])
        invariant out == Releases(old(Model()), i)
      {
        if down[i] {
          down[i] := false;
          out := out + [Release(i)];
        }
      }
    }
  }
}
