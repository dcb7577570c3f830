/**
 * model/Runtime.java: the per-node runtime's own bookkeeping. The static
 * UID counter and the thread-local "current runtime" slot are each a small
 * class; everything the abstract Runtime leaves to subclasses (addresses,
 * RuntimeState, start and stop) is reduced to fields those subclasses set.
 */
module Runtimes {
  import opened Wrappers
  import opened JavaInt
  import opened Throwables

  /** A peer address, by its toString form. */
  type Address = string

  /** Protocol-independent node state (clock, random source); its fields and its merge rule are not part of this model. */
  type RuntimeState(0)

  /** `new File(directory, name)`. */
  datatype LogFile = LogFile(directory: string, name: string)

  /** What the diagnostic handlers print to the debug stream. */
  datatype Diagnostic =
    | Suppressed(e: Throwable)       // tolerate
    | UpdateFailed(e: Throwable)     // handleUpdateException
    | SelectFailed(e: Throwable)     // handleSelectException

  /** One line of the JSON log. */
  datatype JsonLogEvent = JsonLogEvent(timestamp: int, address: Address, eventType: string, data: string)

  // ---------------------------------------------------------------- UIDs

  /** The values `getNewUID` hands out in n successive calls from counter value c. */
  function IssuedUids(c: int32, n: nat): (uids: seq<int32>)
    ensures |uids| == n
    decreases n
  {
    if n == 0 then [] else [c] + IssuedUids(Increment(c), n - 1)
  }

  lemma {:induction false} IssuedUidAt(c: int32, n: nat, i: nat)
    requires i < n
    ensures IssuedUids(c, n)[i] == Wrap(c as int + i)
    decreases n
  {
    if i > 0 {
      IssuedUidAt(Increment(c), n - 1, i - 1);
      assert Wrap(Increment(c) as int + (i - 1)) == Wrap(c as int + i) by {
        assert (c as int + i - Wrap(c as int + i) as int) % MODULUS == 0;
        assert (c as int + 1 - Increment(c) as int) % MODULUS == 0;
        WrapCongruent(Increment(c) as int + (i - 1), c as int + i);
      }
    }
  }

  /** Up to 2^32 successive UIDs are pairwise distinct, even across the wrap-around. */
  lemma UidsDistinct(c: int32, n: nat, i: nat, j: nat)
    requires n <= MODULUS && i < j < n
    ensures IssuedUids(c, n)[i] != IssuedUids(c, n)[j]
  {
    IssuedUidAt(c, n, i);
    IssuedUidAt(c, n, j);
    WrapInjectiveBelowModulus(c as int + i, c as int + j);
  }

  /** Without reaching Integer.MAX_VALUE, successive UIDs strictly increase by one. */
  lemma UidsIncreasing(c: int32, n: nat, i: nat)
    requires c as int + n - 1 <= INT_MAX && i < n
    ensures IssuedUids(c, n)[i] as int == c as int + i
  {
    IssuedUidAt(c, n, i);
  }

  /** The static `uidCounter` behind `getNewUID`. */
  class UidCounter {
    var uidCounter: int32

    constructor ()
      ensures uidCounter == 0
    {
      uidCounter := 0;
    }

    /** `uidCounter++`: the old value is returned. */
    method GetNewUID() returns (x: int32)
      modifies this
      ensures x == old(uidCounter) && uidCounter == Increment(old(uidCounter))
      ensures IssuedUids(old(uidCounter), 2) == [x, uidCounter]
    {
      x := uidCounter;
      uidCounter := Increment(uidCounter);
    }
  }

  // ------------------------------------------------------ the runtime slot

  /** The outcome of a void Java call: it returns, or it throws. */
  datatype Status = Done | Threw(e: Throwable)

  /** setRuntime on a slot value: refused only when a runtime is set and another non-null one arrives. */
  function SlotAfterSet<R>(current: Option<R>, rt: Option<R>): (r: Result<Option<R>, Throwable>)
    ensures r.Err? <==> current.Some? && rt.Some?
    ensures r.Ok? ==> r.value == rt
  {
    if current.Some? && rt.Some? then Err(TwoRuntimesInOneThread) else Ok(rt)
  }

  /** clearRuntime on a slot value: refused when a different runtime is current. */
  function SlotAfterClear<R(==)>(current: Option<R>, rt: Option<R>): (r: Result<Option<R>, Throwable>)
    ensures r.Err? <==> current.Some? && current != rt
    ensures r.Ok? ==> r.value == None
  {
    if current.Some? && current != rt then Err(ReplaceActiveRuntime) else Ok(None)
  }

  /** Set then clear by the same runtime, from an empty slot, is accepted and empties the slot. */
  lemma SetThenClear<R>(rt: R)
    ensures SlotAfterSet(None, Some(rt)) == Ok(Some(rt))
    ensures SlotAfterClear(Some(rt), Some(rt)) == Ok(None)
  {
  }

  /** The thread-local "current runtime" of this thread. */
  class RuntimeSlot<P> {
    var current: Option<Runtime<P>>

    constructor ()
      ensures current == None
    {
      current := None;
    }

    method SetRuntime(rt: Option<Runtime<P>>) returns (s: Status)
      modifies this
      ensures s.Threw? <==> old(current).Some? && rt.Some?
      ensures s.Threw? ==> s.e == TwoRuntimesInOneThread && current == old(current)
      ensures s.Done? ==> current == rt
      ensures SlotAfterSet(old(current), rt) == if s.Done? then Ok(current) else Err(s.e)
    {
      if current.Some? && rt.Some? {
        return Threw(TwoRuntimesInOneThread);
      }
      current := rt;
      return Done;
    }

    method GetRuntime() returns (r: Result<Runtime<P>, Throwable>)
      ensures current.None? <==> r.Err?
      ensures r.Err? ==> r.error == NullRuntime
      ensures r.Ok? ==> current == Some(r.value)
    {
      if current.None? {
        return Err(NullRuntime);
      }
      return Ok(current.value);
    }

    /** clearRuntime(rt); a null rt is None, which clears only an empty slot. */
    method ClearRuntime(rt: Option<Runtime<P>>) returns (s: Status)
      modifies this
      ensures s.Threw? <==> old(current).Some? && old(current) != rt
      ensures s.Threw? ==> s.e == ReplaceActiveRuntime && current == old(current)
      ensures s.Done? ==> current == None
      ensures SlotAfterClear(old(current), rt) == if s.Done? then Ok(current) else Err(s.e)
    {
      if current.Some? && current != rt {
        return Threw(ReplaceActiveRuntime);
      }
      s := SetRuntime(None);
    }
  }

  // --------------------------------------------------------- log file name

  /** `s.replace("/", "_")`. */
  function ReplaceSlashes(s: string): (r: string)
    ensures |r| == |s|
    ensures forall i :: 0 <= i < |s| ==> r[i] == (if s[i] == '/' then '_' else s[i])
  {
    if s == [] then [] else [if s[0] == '/' then '_' else s[0]] + ReplaceSlashes(s[1..])
  }

  /** The log file name derived from an address: slashes become underscores, then ".log". */
  function LogFileName(address: Address): (name: string)
    ensures |name| == |address| + 4 && name[|address|..] == ".log"
    ensures '/' !in name
    ensures forall i :: 0 <= i < |address| && address[i] != '/' ==> name[i] == address[i]
  {
    ReplaceSlashes(address) + ".log"
  }

  /** The name keeps only the address up to slashes versus underscores: "a/b" and "a_b" share a file. */
  lemma LogFileNameMergesSlashAndUnderscore()
    ensures "a/b" != "a_b" && LogFileName("a/b") == LogFileName("a_b")
  {
    assert ReplaceSlashes("a/b") == "a_b";
    assert ReplaceSlashes("a_b") == "a_b";
  }

  // --------------------------------------------------------------- Runtime

  /** `punt`: always throws, wrapping the exception in a RuntimeException. */
  function Punt(e: Throwable): (thrown: Throwable)
    ensures IsRuntimeException(thrown) && thrown.Wrapped? && thrown.cause == e
  {
    Wrapped(e)
  }

  class Runtime<P> {
    const address: Address
    var instance: Option<P>
    var runtimeState: RuntimeState
    /** SimpleRuntime's foreign state: the visiting node's RuntimeState during an update. */
    var foreignState: Option<RuntimeState>
    var logDirectory: string
    var logfile: Option<LogFile>
    var jsonLog: seq<JsonLogEvent>
    var diagnostics: seq<Diagnostic>
    var randomSeed: int
    var roundLength: int
    var lockTimeout: int
    /** How often the subclass's stop() has run. */
    var stopCalls: nat

    constructor (address: Address)
      ensures this.address == address && instance == None && foreignState == None
      ensures logDirectory == "mica_log" && logfile == None && jsonLog == [] && diagnostics == []
      ensures stopCalls == 0
    {
      this.address := address;
      instance := None;
      foreignState := None;
      logDirectory := "mica_log";
      logfile := None;
      jsonLog := [];
      diagnostics := [];
      stopCalls := 0;
    }

    /** getLogFile: computed from the address on first use, then the cached file. */
    method GetLogFile() returns (f: LogFile)
      modifies this`logfile
      ensures old(logfile).Some? ==> f == old(logfile).value && logfile == old(logfile)
      ensures old(logfile).None? ==> f == LogFile(logDirectory, LogFileName(address))
      ensures logfile == Some(f)
    {
      if logfile.None? {
        logfile := Some(LogFile(logDirectory, LogFileName(address)));
      }
      f := logfile.value;
    }

    /** setLogFile: overrides the cache; null (None) makes the next getLogFile recompute it. */
    method SetLogFile(f: Option<LogFile>)
      modifies this`logfile
      ensures logfile == f
    {
      logfile := f;
    }

    /**
     * logJson(origin, eventType, event) as far as its effect on this runtime:
     * nothing when JSON logging is off; otherwise the log file is resolved and,
     * unless opening it fails, one event is appended.
     */
    method LogJson(loggingJson: bool, clock: int, origin: Address, eventType: string, data: string, openFails: bool)
      modifies this`logfile, this`jsonLog
      ensures !loggingJson ==> logfile == old(logfile) && jsonLog == old(jsonLog)
      ensures loggingJson ==> logfile.Some? && (old(logfile).Some? ==> logfile == old(logfile))
      ensures loggingJson && openFails ==> jsonLog == old(jsonLog)
      ensures loggingJson && !openFails ==> jsonLog == old(jsonLog) + [JsonLogEvent(clock, origin, eventType, data)]
    {
      if !loggingJson {
        return;
      }
      var f := GetLogFile();
      if openFails {
        return;
      }
      jsonLog := jsonLog + [JsonLogEvent(clock, origin, eventType, data)];
    }

    /** tolerate: the exception is reported and execution continues. */
    method Tolerate(e: Throwable)
      modifies this`diagnostics
      ensures diagnostics == old(diagnostics) + [Suppressed(e)]
    {
      diagnostics := diagnostics + [Suppressed(e)];
    }

    method HandleUpdateException(e: Throwable)
      modifies this`diagnostics
      ensures diagnostics == old(diagnostics) + [UpdateFailed(e)]
    {
      diagnostics := diagnostics + [UpdateFailed(e)];
    }

    method HandleSelectException(e: Throwable)
      modifies this`diagnostics
      ensures diagnostics == old(diagnostics) + [SelectFailed(e)]
    {
      diagnostics := diagnostics + [SelectFailed(e)];
    }

    /** fatal: stop() and then System.exit(1); the caller never resumes. */
    method Fatal(e: Throwable)
      modifies this`stopCalls
      ensures stopCalls == old(stopCalls) + 1
    {
      Stop();
    }

    method SetProtocolInstance(p: P)
      modifies this`instance
      ensures instance == Some(p)
    {
      instance := Some(p);
    }

    method Configure(randomSeed: int, roundLength: int, lockTimeout: int)
      modifies this`randomSeed, this`roundLength, this`lockTimeout
      ensures this.randomSeed == randomSeed && this.roundLength == roundLength && this.lockTimeout == lockTimeout
    {
      this.randomSeed, this.roundLength, this.lockTimeout := randomSeed, roundLength, lockTimeout;
    }

    method Stop()
      modifies this`stopCalls
      ensures stopCalls == old(stopCalls) + 1
    {
      stopCalls := stopCalls + 1;
    }
  }
}
