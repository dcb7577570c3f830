/**
 * One pull-gossip round between two nodes, assembled from the initiator's
 * gossip and the receiver's acceptConnection with fault-free connections:
 * the receiver answers exactly the request the initiator wrote, and the
 * initiator reads back exactly the response the receiver wrote.
 */
module Scenarios {
  import opened Wrappers
  import opened Runtimes
  import opened Exchange
  import opened FindMin

  /**
   * A fault-free round: the receiver runs the update on the initiator's
   * instance with its own instance as argument, and the initiator adopts the
   * visitor that comes back. The runtime state that travels back is the
   * initiator's own, so the initiator merges its state with itself.
   */
  method PullRound<P>(initiator: Runtime<P>, receiver: Runtime<P>, pinit: P, precv: P,
                      update: (P, P, Option<RuntimeState>) -> UpdateRun<P>,
                      merge: (RuntimeState, RuntimeState) -> RuntimeState)
    returns (sent: Completion, served: Completion)
    requires initiator != receiver
    requires !ClassifyInvocation(update(pinit, precv, Some(initiator.runtimeState)).outcome).FatalError?
    modifies initiator`instance, initiator`runtimeState, initiator`diagnostics
    modifies receiver`foreignState, receiver`diagnostics, receiver`stopCalls
    ensures served == Normal && sent == Normal
    ensures initiator.instance == Some(update(pinit, precv, Some(old(initiator.runtimeState))).visitorAfter)
    ensures initiator.runtimeState == merge(old(initiator.runtimeState), old(initiator.runtimeState))
    ensures initiator.diagnostics == old(initiator.diagnostics)
    ensures receiver.instance == old(receiver.instance) && receiver.foreignState == None
    ensures receiver.stopCalls == old(receiver.stopCalls)
  {
    var request := RequestMessage(pinit, initiator.runtimeState);
    var inbound := new Connection(false, Opened, _ => ReadIOFailure, Received(request), false);
    served := AcceptConnection(receiver, precv, inbound, update);
    var response := inbound.responsesWritten[|inbound.responsesWritten| - 1];
    assert response == ReceiverResponse(request, precv, update);
    var outbound := new Connection(false, Opened, _ => Received(response), ClassMissing, false);
    sent := Gossip(initiator, pinit, outbound, merge);
  }

  /** FindMinPull's update as the exchange sees it: the visitor keeps the smaller value, and it never throws. */
  function MinUpdate(visitor: int, host: int, foreign: Option<RuntimeState>): (run: UpdateRun<int>)
    ensures run.outcome.Returned?
    ensures run.visitorAfter <= visitor && run.visitorAfter <= host
    ensures run.visitorAfter == visitor || run.visitorAfter == host
  {
    UpdateRun(MinPull(visitor, host), Returned(()))
  }

  /**
   * Two rounds against the same receiver: the first leaves the initiator
   * with the minimum of the two values, the second changes nothing, and the
   * receiver's value is never touched.
   */
  method MinPullRounds(initiator: Runtime<int>, receiver: Runtime<int>, a: int, b: int,
                       merge: (RuntimeState, RuntimeState) -> RuntimeState)
    returns (first: int, second: int)
    requires initiator != receiver
    requires initiator.instance == Some(a) && receiver.instance == Some(b)
    modifies initiator`instance, initiator`runtimeState, initiator`diagnostics
    modifies receiver`foreignState, receiver`diagnostics, receiver`stopCalls
    ensures first <= a && first <= b && (first == a || first == b)
    ensures second == first
    ensures initiator.instance == Some(first)
    ensures receiver.instance == Some(b)
  {
    var _, _ := PullRound(initiator, receiver, a, b, MinUpdate, merge);
    first := initiator.instance.value;
    var _, _ := PullRound(initiator, receiver, first, b, MinUpdate, merge);
    MinPullIdempotent(a, b);
    second := initiator.instance.value;
  }

  /** The concrete round of the protocol's own example: 5 pulls from 3 and ends with 3. */
  method FiveMeetsThree(merge: (RuntimeState, RuntimeState) -> RuntimeState) returns (initiator: Runtime<int>, receiver: Runtime<int>)
    ensures initiator.instance == Some(3)
    ensures receiver.instance == Some(3)
  {
    initiator := new Runtime("node-a");
    receiver := new Runtime("node-b");
    initiator.SetProtocolInstance(5);
    receiver.SetProtocolInstance(3);
    var _, _ := PullRound(initiator, receiver, 5, 3, MinUpdate, merge);
  }
}
