/**
 * simple/SimpleRuntimeAgent.java, the exchange half: select, the
 * initiator's gossip, the receiver's acceptConnection, runGossipUpdate and
 * getRate. Messages are values; serialisation is left out, so a message
 * read back is the message written. The connection is a one-shot channel
 * whose faults are fixed up front and whose peer answers a request through
 * a function. The update method found by the binding is a function from the
 * visitor, the host and the foreign state to what the visitor holds
 * afterwards and how the reflective call ended.
 */
module Exchange {
  import opened Wrappers
  import opened Throwables
  import opened Runtimes

  datatype RequestMessage<P> = RequestMessage(protocolInstance: P, runtimeState: RuntimeState)

  datatype ResponseMessage<P> = ResponseMessage(protocolInstance: P, runtimeState: RuntimeState)

  // ------------------------------------------------- reflective invocation

  /** How `Method.invoke` ends. */
  datatype Invocation<R> =
    | Returned(value: R)
    | IllegalArgument                // IllegalArgumentException from the call mechanism
    | IllegalAccess                  // IllegalAccessException
    | TargetThrew(target: Throwable) // InvocationTargetException around what the method threw

  /** What the engine makes of an invocation: a value, an exception it throws on, or a fatal error. */
  datatype CallResult<R> = Value(value: R) | Raised(e: Throwable) | FatalError(e: Throwable)

  /**
   * The catch clauses of runGossipUpdate and getRate: errors of the call
   * mechanism are fatal, a RuntimeException from the method is rethrown as
   * it is, and anything else it threw is wrapped in a RuntimeException.
   */
  function ClassifyInvocation<R>(inv: Invocation<R>): (r: CallResult<R>)
    ensures r.Value? <==> inv.Returned?
    ensures r.Value? ==> r.value == inv.value
    ensures r.FatalError? <==> inv.IllegalArgument? || inv.IllegalAccess?
    ensures r.Raised? ==> IsRuntimeException(r.e)
    ensures inv.TargetThrew? && IsRuntimeException(inv.target) ==> r == Raised(inv.target)
    ensures inv.TargetThrew? && !IsRuntimeException(inv.target) ==>
              r.Raised? && r.e.Wrapped? && r.e.cause == InvocationTarget(inv.target)
  {
    match inv
    case Returned(v) => Value(v)
    case IllegalArgument => FatalError(IllegalArgumentException)
    case IllegalAccess => FatalError(IllegalAccessException)
    case TargetThrew(t) => if IsRuntimeException(t) then Raised(t) else Raised(Wrapped(InvocationTarget(t)))
  }

  /** One run of the update method: the visitor's state afterwards (even when it threw) and how the call ended. */
  datatype UpdateRun<P> = UpdateRun(visitorAfter: P, outcome: Invocation<()>)

  /** How a call into the engine ends: normally, by an exception, or in System.exit after fatal. */
  datatype Completion = Normal | Abrupt(e: Throwable) | Halted

  /**
   * runGossipUpdate(runtime, visitor, host): the update method is invoked on
   * the visitor with the host as its argument, while the runtime's foreign
   * state is whatever acceptConnection set.
   */
  method RunGossipUpdate<P>(rt: Runtime<P>, visitor: P, host: P, update: (P, P, Option<RuntimeState>) -> UpdateRun<P>)
    returns (visitorAfter: P, r: CallResult<()>)
    modifies rt`stopCalls
    ensures visitorAfter == update(visitor, host, rt.foreignState).visitorAfter
    ensures r == ClassifyInvocation(update(visitor, host, rt.foreignState).outcome)
    ensures rt.stopCalls == old(rt.stopCalls) + (if r.FatalError? then 1 else 0)
  {
    var run := update(visitor, host, rt.foreignState);
    visitorAfter := run.visitorAfter;
    r := ClassifyInvocation(run.outcome);
    if r.FatalError? {
      rt.Fatal(r.e);
    }
  }

  /** getRate: the rate method's value, classified the same way as an update. */
  method GetRate<P, R>(rt: Runtime<P>, invocation: Invocation<R>) returns (r: CallResult<R>)
    modifies rt`stopCalls
    ensures r == ClassifyInvocation(invocation)
    ensures rt.stopCalls == old(rt.stopCalls) + (if r.FatalError? then 1 else 0)
  {
    r := ClassifyInvocation(invocation);
    if r.FatalError? {
      rt.Fatal(r.e);
    }
  }

  // ----------------------------------------------------------------- select

  /**
   * select: no peer when the selector yields no distribution, otherwise the
   * sample drawn with the runtime's next random long. Sampling an empty
   * distribution yields no peer (null), so the sampler returns an Option.
   * The randomValue argument of the Java method is never read and is omitted.
   */
  function Select<D>(dist: Option<D>, sample: (D, int) -> Option<Address>, nextLong: int): (peer: Option<Address>)
    ensures peer.None? <==> dist.None? || sample(dist.value, nextLong).None?
    ensures peer.Some? ==> dist.Some? && peer.value == sample(dist.value, nextLong).value
  {
    match dist
    case None => None
    case Some(d) => sample(d, nextLong)
  }

  // ------------------------------------------------------------- connection

  /** How opening an object input stream on the connection ends. */
  datatype OpenOutcome = Opened | OpenSocketFailure | OpenEndOfStream | OpenIOFailure

  /** How `readObject` ends. */
  datatype ReadResult<M> = Received(msg: M) | ClassMissing | ReadIOFailure

  /** The exception an OpenOutcome other than Opened stands for. */
  function OpenException(o: OpenOutcome): Throwable
    requires !o.Opened?
  {
    match o
    case OpenSocketFailure => SocketException
    case OpenEndOfStream => EOFException
    case OpenIOFailure => IOException
  }

  /** One accepted or opened connection, with its faults fixed when it is made. */
  class Connection<P> {
    /** Writing to the output stream throws an IOException. */
    const writeFails: bool
    const openInput: OpenOutcome
    /** What the peer sends back for the request it was sent. */
    const reply: RequestMessage<P> -> ReadResult<ResponseMessage<P>>
    /** What a receiver reads from the connection. */
    const incoming: ReadResult<RequestMessage<P>>
    /** close() throws an IOException. */
    const closeFails: bool
    var requestsWritten: seq<RequestMessage<P>>
    var responsesWritten: seq<ResponseMessage<P>>
    var closeCalls: nat

    constructor (writeFails: bool, openInput: OpenOutcome, reply: RequestMessage<P> -> ReadResult<ResponseMessage<P>>,
                 incoming: ReadResult<RequestMessage<P>>, closeFails: bool)
      ensures this.writeFails == writeFails && this.openInput == openInput && this.reply == reply
      ensures this.incoming == incoming && this.closeFails == closeFails
      ensures requestsWritten == [] && responsesWritten == [] && closeCalls == 0
    {
      this.writeFails := writeFails;
      this.openInput := openInput;
      this.reply := reply;
      this.incoming := incoming;
      this.closeFails := closeFails;
      requestsWritten := [];
      responsesWritten := [];
      closeCalls := 0;
    }
  }

  /** The diagnostics the final `connection.close()` of gossip adds. */
  function CloseDiagnostics(closeFails: bool): seq<Diagnostic> {
    if closeFails then [Suppressed(IOException)] else []
  }

  // ------------------------------------------------------------- initiator

  /**
   * gossip: send the local instance with the runtime's state, then adopt the
   * instance the peer sends back and merge its runtime state into ours.
   */
  method Gossip<P>(rt: Runtime<P>, pinstance: P, conn: Connection<P>, merge: (RuntimeState, RuntimeState) -> RuntimeState)
    returns (c: Completion)
    modifies rt`instance, rt`runtimeState, rt`diagnostics, conn`requestsWritten, conn`closeCalls
    ensures conn.writeFails ==>
              c == Abrupt(Punt(IOException)) && conn.requestsWritten == old(conn.requestsWritten)
              && rt.instance == old(rt.instance) && rt.runtimeState == old(rt.runtimeState)
              && rt.diagnostics == old(rt.diagnostics) && conn.closeCalls == old(conn.closeCalls)
    ensures !conn.writeFails ==>
              conn.requestsWritten == old(conn.requestsWritten) + [RequestMessage(pinstance, old(rt.runtimeState))]
    ensures !conn.writeFails && conn.openInput == OpenSocketFailure ==>
              c == Normal && rt.instance == old(rt.instance) && rt.runtimeState == old(rt.runtimeState)
              && rt.diagnostics == old(rt.diagnostics) && conn.closeCalls == old(conn.closeCalls)
    ensures !conn.writeFails && (conn.openInput == OpenEndOfStream || conn.openInput == OpenIOFailure) ==>
              c == Normal && rt.instance == old(rt.instance) && rt.runtimeState == old(rt.runtimeState)
              && rt.diagnostics == old(rt.diagnostics) + [Suppressed(OpenException(conn.openInput))]
                                   + CloseDiagnostics(conn.closeFails)
              && conn.closeCalls == old(conn.closeCalls) + 1
    ensures !conn.writeFails && conn.openInput == Opened ==>
              var answer := conn.reply(RequestMessage(pinstance, old(rt.runtimeState)));
              match answer
              case Received(rpm) =>
                c == Normal && rt.instance == Some(rpm.protocolInstance)
                && rt.runtimeState == merge(old(rt.runtimeState), rpm.runtimeState)
                && rt.diagnostics == old(rt.diagnostics) + CloseDiagnostics(conn.closeFails)
                && conn.closeCalls == old(conn.closeCalls) + 1
              case ClassMissing =>
                c == Abrupt(Punt(ClassNotFoundException)) && rt.instance == old(rt.instance)
                && rt.runtimeState == old(rt.runtimeState) && rt.diagnostics == old(rt.diagnostics)
                && conn.closeCalls == old(conn.closeCalls)
              case ReadIOFailure =>
                c == Normal && rt.instance == old(rt.instance) && rt.runtimeState == old(rt.runtimeState)
                && rt.diagnostics == old(rt.diagnostics) + [Suppressed(IOException)] + CloseDiagnostics(conn.closeFails)
                && conn.closeCalls == old(conn.closeCalls) + 1
  {
    var msg := RequestMessage(pinstance, rt.runtimeState);
    if conn.writeFails {
      return Abrupt(Punt(IOException));
    }
    conn.requestsWritten := conn.requestsWritten + [msg];
    match conn.openInput {
      case OpenSocketFailure =>
        return Normal;
      case OpenEndOfStream =>
        rt.Tolerate(EOFException);
      case OpenIOFailure =>
        rt.Tolerate(IOException);
      case Opened =>
        match conn.reply(msg) {
          case Received(rpm) =>
            rt.SetProtocolInstance(rpm.protocolInstance);
            rt.runtimeState := merge(rt.runtimeState, rpm.runtimeState);
          case ClassMissing =>
            return Abrupt(Punt(ClassNotFoundException));
          case ReadIOFailure =>
            rt.Tolerate(IOException);
        }
    }
    conn.closeCalls := conn.closeCalls + 1;
    if conn.closeFails {
      rt.Tolerate(IOException);
    }
    return Normal;
  }

  // -------------------------------------------------------------- receiver

  /** The response a receiver holding host sends for a request, when the update is not fatal. */
  function ReceiverResponse<P>(request: RequestMessage<P>, host: P, update: (P, P, Option<RuntimeState>) -> UpdateRun<P>)
    : (rpm: ResponseMessage<P>)
    ensures rpm.runtimeState == request.runtimeState
  {
    ResponseMessage(update(request.protocolInstance, host, Some(request.runtimeState)).visitorAfter, request.runtimeState)
  }

  /**
   * acceptConnection: read a request, run the update on the visitor with the
   * host instance as argument while the request's runtime state is the
   * foreign state, then send the visitor back with the request's own state.
   * The host runtime's instance is never touched.
   */
  method AcceptConnection<P>(rt: Runtime<P>, pinstance: P, conn: Connection<P>, update: (P, P, Option<RuntimeState>) -> UpdateRun<P>)
    returns (c: Completion)
    modifies rt`foreignState, rt`diagnostics, rt`stopCalls, conn`responsesWritten, conn`closeCalls
    ensures rt.instance == old(rt.instance) && rt.runtimeState == old(rt.runtimeState)
    ensures conn.closeCalls == old(conn.closeCalls) + (if |conn.responsesWritten| > |old(conn.responsesWritten)| then 1 else 0)
    ensures conn.openInput == OpenEndOfStream ==>
              c == Normal && rt.diagnostics == old(rt.diagnostics) + [Suppressed(EOFException)]
              && conn.responsesWritten == old(conn.responsesWritten) && rt.foreignState == old(rt.foreignState)
    ensures conn.openInput == OpenSocketFailure || conn.openInput == OpenIOFailure ==>
              c == Abrupt(OpenException(conn.openInput)) && rt.diagnostics == old(rt.diagnostics)
              && conn.responsesWritten == old(conn.responsesWritten) && rt.foreignState == old(rt.foreignState)
    ensures conn.openInput == Opened && !conn.incoming.Received? ==>
              c == (if conn.incoming.ClassMissing? then Normal else Abrupt(IOException))
              && rt.diagnostics == old(rt.diagnostics) && conn.responsesWritten == old(conn.responsesWritten)
              && rt.foreignState == old(rt.foreignState) && rt.stopCalls == old(rt.stopCalls)
    ensures conn.openInput == Opened && conn.incoming.Received? ==>
              var rqm := conn.incoming.msg;
              var run := update(rqm.protocolInstance, pinstance, Some(rqm.runtimeState));
              match ClassifyInvocation(run.outcome)
              case FatalError(e) =>
                c == Halted && rt.stopCalls == old(rt.stopCalls) + 1
                && rt.foreignState == Some(rqm.runtimeState) && conn.responsesWritten == old(conn.responsesWritten)
              case Raised(e) =>
                rt.diagnostics == old(rt.diagnostics) + [UpdateFailed(e)] && rt.foreignState == None
                && rt.stopCalls == old(rt.stopCalls)
                && (conn.writeFails ==> c == Abrupt(IOException) && conn.responsesWritten == old(conn.responsesWritten))
                && (!conn.writeFails ==> conn.responsesWritten == old(conn.responsesWritten) + [ReceiverResponse(rqm, pinstance, update)]
                                         && c == (if conn.closeFails then Abrupt(IOException) else Normal))
              case Value(_) =>
                rt.diagnostics == old(rt.diagnostics) && rt.foreignState == None
                && rt.stopCalls == old(rt.stopCalls)
                && (conn.writeFails ==> c == Abrupt(IOException) && conn.responsesWritten == old(conn.responsesWritten))
                && (!conn.writeFails ==> conn.responsesWritten == old(conn.responsesWritten) + [ReceiverResponse(rqm, pinstance, update)]
                                         && c == (if conn.closeFails then Abrupt(IOException) else Normal))
  {
    match conn.openInput {
      case OpenEndOfStream =>
        rt.Tolerate(EOFException);
        return Normal;
      case OpenSocketFailure =>
        return Abrupt(SocketException);
      case OpenIOFailure =>
        return Abrupt(IOException);
      case Opened =>
    }
    match conn.incoming {
      case ClassMissing =>
        return Normal;
      case ReadIOFailure =>
        return Abrupt(IOException);
      case Received(rqm) =>
        rt.foreignState := Some(rqm.runtimeState);
        var visitorAfter, r := RunGossipUpdate(rt, rqm.protocolInstance, pinstance, update);
        match r {
          case FatalError(_) =>
            return Halted;
          case Raised(e) =>
            rt.HandleUpdateException(e);
          case Value(_) =>
        }
        rt.foreignState := None;
        if conn.writeFails {
          return Abrupt(IOException);
        }
        conn.responsesWritten := conn.responsesWritten + [ResponseMessage(visitorAfter, rqm.runtimeState)];
        conn.closeCalls := conn.closeCalls + 1;
        if conn.closeFails {
          return Abrupt(IOException);
        }
        return Normal;
    }
  }
}
