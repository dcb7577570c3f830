/**
 * main/java/.../example/FindMinPull.java: the same protocol written against
 * the Protocol interface, so update casts its argument first.
 */
module FindMinSugar {
  import opened Wrappers
  import opened Throwables
  import FindMin

  class FindMinPull {
    var x: int

    constructor (x: int)
      ensures this.x == x
    {
      this.x := x;
    }

    /**
     * update(Protocol other): `(FindMinPull) other` throws ClassCastException
     * for another protocol class; null passes the cast and fails on `o.x`.
     */
    method Update(other: object?) returns (r: Result<(), Throwable>)
      modifies this
      ensures other == null ==> r == Err(NullPointerException) && x == old(x)
      ensures other != null && !(other is FindMinPull) ==> r == Err(ClassCastException) && x == old(x)
      ensures other != null && other is FindMinPull ==>
                r == Ok(()) && x == FindMin.MinPull(old(x), old((other as FindMinPull).x))
                && (other as FindMinPull).x == old((other as FindMinPull).x)
    {
      if other != null && !(other is FindMinPull) {
        return Err(ClassCastException);
      }
      var o := other as FindMinPull?;
      if o == null {
        return Err(NullPointerException);
      }
      var temp := FindMin.MinPull(x, o.x);
      x := temp;
      return Ok(());
    }
  }

  /** The pull scenario: an instance holding 5 updated against one holding 3. */
  method PullFromThree() returns (a: FindMinPull, b: FindMinPull)
    ensures a.x == 3 && b.x == 3
  {
    a := new FindMinPull(5);
    b := new FindMinPull(3);
    var r := a.Update(b);
  }

  /** Applying the same update twice leaves x where the first left it. */
  method UpdateTwice(a: FindMinPull, b: FindMinPull) returns (first: int, second: int)
    modifies a
    ensures first == second == FindMin.MinPull(old(a.x), b.x)
  {
    var r := a.Update(b);
    first := a.x;
    r := a.Update(b);
    second := a.x;
  }
}
