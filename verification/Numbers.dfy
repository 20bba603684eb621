/** Small arithmetic the models share. */
module Numbers {

  function Least(a: nat, b: nat): nat {
    if a < b then a else b
  }

  function Min(x: real, y: real): real {
    if y < x then y else x
  }

  function Max(x: real, y: real): real {
    if x < y then y else x
  }

  function Abs(x: real): real {
    if x < 0.0 then -x else x
  }

  lemma Quotient(x: real, k: real)
    requires k != 0.0
    ensures x / k * k == x
  {
  }

  lemma AddTimes(x: real, y: real, k: real)
    ensures (x + y) * k == x * k + y * k
  {
  }

  /** A positive factor cancels from either comparison. */
  lemma Cancel(x: real, y: real, k: real)
    requires k > 0.0
    ensures x * k < y * k ==> x < y
    ensures x * k <= y * k ==> x <= y
  {
  }
}
