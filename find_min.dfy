/**
 * example/FindMinPull.java: the pull-based "find the minimum" protocol.
 * Its update rule `x := min(x, other.x)` is MinPull, which the exchange
 * scenarios use as a concrete update.
 */
module FindMin {
  import opened Wrappers
  import opened Throwables
  import opened Decimal

  /** Math.min: the new value of x after pulling `other`. */
  function MinPull(x: int, other: int): (r: int)
    ensures r <= x && r <= other
    ensures r == x || r == other
  {
    if x <= other then x else other
  }

  /** Updating against an equal value changes nothing. */
  lemma MinPullFixedPoint(x: int)
    ensures MinPull(x, x) == x
  {
  }

  /** Repeating the same pull changes nothing more. */
  lemma MinPullIdempotent(x: int, other: int)
    ensures MinPull(MinPull(x, other), other) == MinPull(x, other)
  {
  }

  class FindMinPull {
    var x: int

    constructor (x: int)
      ensures this.x == x
    {
      this.x := x;
    }

    /** update(other): a null argument throws NullPointerException before x is written. */
    method Update(other: FindMinPull?) returns (r: Result<(), Throwable>)
      modifies this
      ensures other == null ==> r == Err(NullPointerException) && x == old(x)
      ensures other != null ==> r == Ok(()) && x == MinPull(old(x), old(other.x)) && other.x == old(other.x)
    {
      if other == null {
        return Err(NullPointerException);
      }
      var temp := MinPull(x, other.x);
      x := temp;
      return Ok(());
    }

    /** getStateString: x in decimal, which reads back as x. */
    function GetStateString(): (s: string)
      reads this
      ensures ParseDecimal(s) == Some(x)
    {
      DecimalRoundTrip(x);
      DecimalString(x)
    }
  }
}
