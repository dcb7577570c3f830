/** BaseProtocol.java: defaults every protocol inherits, and its lazily assigned name. */
module Protocols {
  import opened Wrappers
  import opened JavaInt
  import opened Decimal
  import opened Runtimes

  /** `String.format("p%d", uid)`: the name an unnamed protocol takes. */
  function FreshName(uid: int32): (name: string)
    ensures |name| >= 2 && name[0] == 'p' && ParseDecimal(name[1..]) == Some(uid as int)
  {
    DecimalRoundTrip(uid as int);
    assert ("p" + DecimalString(uid as int))[1..] == DecimalString(uid as int);
    "p" + DecimalString(uid as int)
  }

  /** Distinct UIDs give distinct default names. */
  lemma FreshNamesDistinct(a: int32, b: int32)
    ensures FreshName(a) == FreshName(b) <==> a == b
  {
    if FreshName(a) == FreshName(b) {
      assert FreshName(a)[1..] == FreshName(b)[1..];
    }
  }

  /** The default getStateString. */
  const DEFAULT_STATE_STRING: string := "-"

  /** The default rate: every protocol gossips once per round unless it overrides rate(). */
  const DEFAULT_RATE: real := 1.0

  /** The message logstate() passes to log(): "state," then the state string. */
  function LogstateMessage(stateString: string): (m: string)
    ensures |m| == 6 + |stateString| && m[..6] == "state," && m[6..] == stateString
  {
    "state," + stateString
  }

  /** What logstate() logs for a protocol that keeps the default state string. */
  lemma DefaultLogstate()
    ensures LogstateMessage(DEFAULT_STATE_STRING) == "state,-"
  {
  }

  /** toString of a protocol whose runtime lookup succeeds. */
  function Bracketed(name: string, address: Address): (s: string)
    ensures |s| == |name| + |address| + 3 && s[0] == '[' && s[|s| - 1] == ']'
    ensures s[1..|name| + 1] == name && s[|name| + 1] == '@' && s[|name| + 2..|s| - 1] == address
  {
    "[" + name + "@" + address + "]"
  }

  class BaseProtocol {
    var name: Option<string>

    constructor ()
      ensures name == None
    {
      name := None;
    }

    /** getName: the stored name, or a fresh "p<uid>" stored on first use. */
    method GetName(uids: UidCounter) returns (n: string)
      modifies this`name, uids
      ensures old(name).Some? ==> n == old(name).value && uids.uidCounter == old(uids.uidCounter)
      ensures old(name).None? ==> n == FreshName(old(uids.uidCounter)) && uids.uidCounter == Increment(old(uids.uidCounter))
      ensures name == Some(n)
    {
      if name.None? {
        var uid := uids.GetNewUID();
        var _ := SetName(Some(FreshName(uid)));
      }
      n := name.value;
    }

    /** setName: stores the name (null is None) and returns the receiver. */
    method SetName(n: Option<string>) returns (self: BaseProtocol)
      modifies this`name
      ensures self == this && name == n
    {
      name := n;
      self := this;
    }

    /**
     * toString: "[name@address]". The name is fetched first, so it is
     * assigned even when the runtime lookup then throws and "[!]" is returned.
     */
    method ToString<P>(uids: UidCounter, slot: RuntimeSlot<P>) returns (s: string)
      modifies this`name, uids
      ensures old(name).Some? ==> name == old(name) && uids.uidCounter == old(uids.uidCounter)
      ensures old(name).None? ==> name == Some(FreshName(old(uids.uidCounter))) && uids.uidCounter == Increment(old(uids.uidCounter))
      ensures slot.current.None? ==> s == "[!]"
      ensures slot.current.Some? ==> s == Bracketed(name.value, slot.current.value.address)
    {
      var n := GetName(uids);
      var rt := slot.GetRuntime();
      if rt.Err? {
        return "[!]";
      }
      return Bracketed(n, rt.value.address);
    }
  }

  /** A name set explicitly is what getName returns, and no UID is consumed. */
  method NamedThenGet(p: BaseProtocol, uids: UidCounter, n: string) returns (got: string)
    modifies p, uids
    ensures got == n && uids.uidCounter == old(uids.uidCounter)
  {
    var _ := p.SetName(Some(n));
    got := p.GetName(uids);
  }

  /** Two getName calls on an unnamed protocol: the first assigns "p<uid>", the second repeats it. */
  method GetNameTwice(p: BaseProtocol, uids: UidCounter) returns (first: string, second: string)
    requires p.name == None
    modifies p, uids
    ensures first == second == FreshName(old(uids.uidCounter))
    ensures uids.uidCounter == Increment(old(uids.uidCounter))
  {
    first := p.GetName(uids);
    second := p.GetName(uids);
  }
}
