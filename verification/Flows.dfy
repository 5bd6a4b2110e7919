/** The list of pending flows: linear search for the first match and removal in place, and its
    refinement to one FIFO queue per key. A responder (the sending half of a oneshot channel) is
    identified by the number of responders created before it. */
module Flows {
  import opened Bytes
  import opened Headers

  datatype MsgFlowTag = MsgFlowTag(destEid: Byte, srcEid: Byte, msgTag: Byte, tagOwner: bool)

  /** A buffer too short for a transport header gets the all-zero tag. */
  function CreateTag(b: Buffer): MsgFlowTag {
    match DecodeTransportHeader(b)
    case Err => MsgFlowTag(0, 0, 0, false)
    case Ok(h) => MsgFlowTag(h.destinationEid, h.sourceEid, h.msgTag, h.tagOwner)
  }

  datatype Flow = Flow(tag: MsgFlowTag, responder: nat)

  predicate Matches(tag: MsgFlowTag, recv: MsgFlowTag) {
    tag.msgTag == recv.msgTag && tag.tagOwner != recv.tagOwner && tag.destEid == recv.srcEid
  }

  /** The index of the first flow that a received tag matches, or the length of the list. */
  function FirstMatch(flows: seq<Flow>, recv: MsgFlowTag): (i: nat)
    ensures i <= |flows|
    ensures i < |flows| ==> Matches(flows[i].tag, recv)
    ensures forall j :: 0 <= j < i ==> !Matches(flows[j].tag, recv)
  {
    if flows == [] || Matches(flows[0].tag, recv) then 0 else FirstMatch(flows[1..], recv) + 1
  }

  // ----- keys and queues -----

  datatype Key = Key(eid: Byte, msgTag: Byte, tagOwner: bool)

  function FlowKey(tag: MsgFlowTag): Key {
    Key(tag.destEid, tag.msgTag, tag.tagOwner)
  }

  /** The key of the flows that a received tag completes. */
  function ReplyKey(recv: MsgFlowTag): Key {
    Key(recv.srcEid, recv.msgTag, !recv.tagOwner)
  }

  /** The responders of the flows with a key, oldest first. */
  function Queue(flows: seq<Flow>, k: Key): seq<nat> {
    if flows == [] then []
    else (if FlowKey(flows[0].tag) == k then [flows[0].responder] else []) + Queue(flows[1..], k)
  }

  lemma {:induction false} QueueConcat(a: seq<Flow>, b: seq<Flow>, k: Key)
    ensures Queue(a + b, k) == Queue(a, k) + Queue(b, k)
  {
    if a == [] {
      assert a + b == b;
    } else {
      QueueConcat(a[1..], b, k);
      assert (a + b)[0] == a[0] && (a + b)[1..] == a[1..] + b;
    }
  }

  lemma {:induction false} QueueWithoutMatch(flows: seq<Flow>, recv: MsgFlowTag)
    requires forall j :: 0 <= j < |flows| ==> !Matches(flows[j].tag, recv)
    ensures Queue(flows, ReplyKey(recv)) == []
  {
    if flows != [] {
      assert !Matches(flows[0].tag, recv);
      QueueWithoutMatch(flows[1..], recv);
    }
  }

  function RemoveAt(flows: seq<Flow>, i: nat): seq<Flow>
    requires i < |flows|
  {
    flows[..i] + flows[i + 1..]
  }

  lemma QueueAround(flows: seq<Flow>, i: nat, k: Key)
    requires i < |flows|
    ensures Queue(flows, k) == Queue(flows[..i], k)
                             + (if FlowKey(flows[i].tag) == k then [flows[i].responder] else [])
                             + Queue(flows[i + 1..], k)
    ensures Queue(RemoveAt(flows, i), k) == Queue(flows[..i], k) + Queue(flows[i + 1..], k)
  {
    assert flows == flows[..i] + [flows[i]] + flows[i + 1..];
    QueueConcat(flows[..i] + [flows[i]], flows[i + 1..], k);
    QueueConcat(flows[..i], [flows[i]], k);
    QueueConcat(flows[..i], flows[i + 1..], k);
  }

  /** First-match search and removal is a dequeue: it finds a flow exactly when the queue of the reply
      key is not empty, takes the head of that queue and leaves every other queue alone. */
  lemma FirstMatchIsDequeue(flows: seq<Flow>, recv: MsgFlowTag)
    ensures var i := FirstMatch(flows, recv);
            && (i < |flows| <==> Queue(flows, ReplyKey(recv)) != [])
            && (i < |flows| ==>
                  && Queue(flows, ReplyKey(recv)) == [flows[i].responder] + Queue(RemoveAt(flows, i), ReplyKey(recv))
                  && forall k :: k != ReplyKey(recv) ==> Queue(RemoveAt(flows, i), k) == Queue(flows, k))
  {
    if FirstMatch(flows, recv) < |flows| {
      HeadOfQueueTaken(flows, recv);
      OtherQueuesKept(flows, recv);
    } else {
      QueueWithoutMatch(flows, recv);
    }
  }

  lemma HeadOfQueueTaken(flows: seq<Flow>, recv: MsgFlowTag)
    requires FirstMatch(flows, recv) < |flows|
    ensures var i := FirstMatch(flows, recv);
            Queue(flows, ReplyKey(recv)) == [flows[i].responder] + Queue(RemoveAt(flows, i), ReplyKey(recv))
  {
    var i := FirstMatch(flows, recv);
    assert Queue(flows[..i], ReplyKey(recv)) == [] by {
      QueueWithoutMatch(flows[..i], recv);
    }
    assert FlowKey(flows[i].tag) == ReplyKey(recv);
    QueueAround(flows, i, ReplyKey(recv));
  }

  lemma OtherQueuesKept(flows: seq<Flow>, recv: MsgFlowTag)
    requires FirstMatch(flows, recv) < |flows|
    ensures forall k :: k != ReplyKey(recv) ==> Queue(RemoveAt(flows, FirstMatch(flows, recv)), k) == Queue(flows, k)
  {
    forall k | k != ReplyKey(recv) ensures Queue(RemoveAt(flows, FirstMatch(flows, recv)), k) == Queue(flows, k) {
      QueueAround(flows, FirstMatch(flows, recv), k);
    }
  }

  // ----- the state machine of registrations and arrivals -----

  /** `registered` and `completed` are history: the tags of all flows ever registered, by responder,
      and the responders completed, in order of completion. */
  datatype FlowState = FlowState(pending: seq<Flow>, registered: seq<MsgFlowTag>, completed: seq<nat>)

  const NO_FLOWS := FlowState([], [], [])

  datatype FlowOp = Register(tag: MsgFlowTag) | Arrive(recv: MsgFlowTag)

  function RegisterFlow(s: FlowState, tag: MsgFlowTag): FlowState {
    FlowState(s.pending + [Flow(tag, |s.registered|)], s.registered + [tag], s.completed)
  }

  function ArriveFlow(s: FlowState, recv: MsgFlowTag): FlowState {
    var i := FirstMatch(s.pending, recv);
    if i < |s.pending|
    then s.(pending := RemoveAt(s.pending, i), completed := s.completed + [s.pending[i].responder])
    else s
  }

  function FlowStep(s: FlowState, op: FlowOp): FlowState {
    match op
    case Register(tag) => RegisterFlow(s, tag)
    case Arrive(recv) => ArriveFlow(s, recv)
  }

  function FlowRun(s: FlowState, ops: seq<FlowOp>): FlowState {
    if ops == [] then s else FlowStep(FlowRun(s, ops[..|ops| - 1]), ops[|ops| - 1])
  }

  // ----- conservation -----

  /** The flows registered and not yet completed, in registration order. */
  function Unfinished(registered: seq<MsgFlowTag>, completed: seq<nat>): seq<Flow> {
    if registered == [] then []
    else
      var last := |registered| - 1;
      Unfinished(registered[..last], completed) + (if last in completed then [] else [Flow(registered[last], last)])
  }

  predicate Distinct(s: seq<nat>) {
    forall i, j :: 0 <= i < j < |s| ==> s[i] != s[j]
  }

  predicate AllBelow(s: seq<nat>, bound: nat) {
    forall i :: 0 <= i < |s| ==> s[i] < bound
  }

  /** Pending is exactly what is unfinished, and no responder is completed twice. */
  predicate Conserved(s: FlowState) {
    && s.pending == Unfinished(s.registered, s.completed)
    && Distinct(s.completed)
    && AllBelow(s.completed, |s.registered|)
  }

  lemma {:induction false} UnfinishedFlow(registered: seq<MsgFlowTag>, completed: seq<nat>, j: nat)
    requires j < |Unfinished(registered, completed)|
    ensures var f := Unfinished(registered, completed)[j];
            f.responder < |registered| && f.tag == registered[f.responder] && f.responder !in completed
  {
    var last := |registered| - 1;
    if j < |Unfinished(registered[..last], completed)| {
      UnfinishedFlow(registered[..last], completed, j);
    }
  }

  /** Every responder is pending or completed: the list holds each one not completed. */
  lemma {:induction false} UnfinishedContains(registered: seq<MsgFlowTag>, completed: seq<nat>, r: nat)
    requires r < |registered| && r !in completed
    ensures Flow(registered[r], r) in Unfinished(registered, completed)
  {
    var last := |registered| - 1;
    if r < last {
      UnfinishedContains(registered[..last], completed, r);
    }
  }

  lemma {:induction false} UnfinishedSorted(registered: seq<MsgFlowTag>, completed: seq<nat>, i: nat, j: nat)
    requires i < j < |Unfinished(registered, completed)|
    ensures Unfinished(registered, completed)[i].responder < Unfinished(registered, completed)[j].responder
  {
    var last := |registered| - 1;
    var shorter := Unfinished(registered[..last], completed);
    UnfinishedFlow(registered, completed, i);
    if j < |shorter| {
      UnfinishedSorted(registered[..last], completed, i, j);
    } else {
      UnfinishedFlow(registered[..last], completed, i);
    }
  }

  lemma {:induction false} UnfinishedAgrees(registered: seq<MsgFlowTag>, a: seq<nat>, b: seq<nat>)
    requires forall r :: 0 <= r < |registered| ==> (r in a <==> r in b)
    ensures Unfinished(registered, a) == Unfinished(registered, b)
  {
    if registered != [] {
      UnfinishedAgrees(registered[..|registered| - 1], a, b);
    }
  }

  /** Completing the j-th unfinished flow removes it and keeps the order of the rest. */
  lemma {:induction false} UnfinishedRemove(registered: seq<MsgFlowTag>, completed: seq<nat>, j: nat)
    requires j < |Unfinished(registered, completed)|
    ensures Unfinished(registered, completed + [Unfinished(registered, completed)[j].responder])
         == RemoveAt(Unfinished(registered, completed), j)
  {
    var all := Unfinished(registered, completed);
    var r := all[j].responder;
    var last := |registered| - 1;
    var shorter := Unfinished(registered[..last], completed);
    UnfinishedFlow(registered, completed, j);
    if j < |shorter| {
      UnfinishedFlow(registered[..last], completed, j);
      UnfinishedRemove(registered[..last], completed, j);
      assert all == shorter + all[|shorter|..];
      assert RemoveAt(all, j) == RemoveAt(shorter, j) + all[|shorter|..];
    } else {
      assert r == last;
      UnfinishedAgrees(registered[..last], completed, completed + [r]);
      assert RemoveAt(all, j) == shorter;
    }
  }

  /** The list is in registration order: responders are numbered as they are registered. */
  predicate InOrder(flows: seq<Flow>) {
    forall i, j :: 0 <= i < j < |flows| ==> flows[i].responder < flows[j].responder
  }

  lemma ConservedIsInOrder(s: FlowState)
    requires Conserved(s)
    ensures InOrder(s.pending)
  {
    forall i, j | 0 <= i < j < |s.pending| ensures s.pending[i].responder < s.pending[j].responder {
      UnfinishedSorted(s.registered, s.completed, i, j);
    }
  }

  lemma StepConserves(s: FlowState, op: FlowOp)
    requires Conserved(s)
    ensures Conserved(FlowStep(s, op))
  {
    match op {
      case Register(tag) =>
        var t := RegisterFlow(s, tag);
        assert t.registered[..|s.registered|] == s.registered;
      case Arrive(recv) =>
        var i := FirstMatch(s.pending, recv);
        if i < |s.pending| {
          UnfinishedFlow(s.registered, s.completed, i);
          UnfinishedRemove(s.registered, s.completed, i);
        }
    }
  }

  // ----- first in, first out -----

  /** The responders registered under a key, in order of registration. */
  function Sends(registered: seq<MsgFlowTag>, k: Key): seq<nat> {
    if registered == [] then []
    else
      var last := |registered| - 1;
      Sends(registered[..last], k) + (if FlowKey(registered[last]) == k then [last] else [])
  }

  /** The responders completed under a key, in order of completion. */
  function Completions(completed: seq<nat>, registered: seq<MsgFlowTag>, k: Key): seq<nat> {
    if completed == [] then []
    else
      var last := |completed| - 1;
      Completions(completed[..last], registered, k)
      + (if completed[last] < |registered| && FlowKey(registered[completed[last]]) == k then [completed[last]] else [])
  }

  /** For every key: what was sent is what was completed, in the same order, followed by what waits. */
  ghost predicate Fifo(s: FlowState) {
    forall k :: Sends(s.registered, k) == Completions(s.completed, s.registered, k) + Queue(s.pending, k)
  }

  lemma {:induction false} CompletionsAfterRegister(completed: seq<nat>, registered: seq<MsgFlowTag>,
                                          tag: MsgFlowTag, k: Key)
    requires AllBelow(completed, |registered|)
    ensures Completions(completed, registered + [tag], k) == Completions(completed, registered, k)
  {
    if completed != [] {
      CompletionsAfterRegister(completed[..|completed| - 1], registered, tag, k);
    }
  }

  lemma RegisterKeepsFifo(s: FlowState, tag: MsgFlowTag)
    requires Conserved(s) && Fifo(s)
    ensures Fifo(RegisterFlow(s, tag))
  {
    var t := RegisterFlow(s, tag);
    forall k ensures Sends(t.registered, k) == Completions(t.completed, t.registered, k) + Queue(t.pending, k) {
      assert t.registered[..|s.registered|] == s.registered;
      CompletionsAfterRegister(s.completed, s.registered, tag, k);
      QueueConcat(s.pending, [Flow(tag, |s.registered|)], k);
    }
  }

  lemma ArriveKeepsFifo(s: FlowState, recv: MsgFlowTag)
    requires Conserved(s) && Fifo(s)
    ensures Fifo(ArriveFlow(s, recv))
  {
    var t := ArriveFlow(s, recv);
    var i := FirstMatch(s.pending, recv);
    if i < |s.pending| {
      FirstMatchIsDequeue(s.pending, recv);
      UnfinishedFlow(s.registered, s.completed, i);
      forall k ensures Sends(t.registered, k) == Completions(t.completed, t.registered, k) + Queue(t.pending, k) {
        assert t.completed[..|s.completed|] == s.completed;
      }
    }
  }

  lemma StepKeepsFifo(s: FlowState, op: FlowOp)
    requires Conserved(s) && Fifo(s)
    ensures Fifo(FlowStep(s, op))
  {
    match op {
      case Register(tag) => RegisterKeepsFifo(s, tag);
      case Arrive(recv) => ArriveKeepsFifo(s, recv);
    }
  }

  /** Over every interleaving of registrations and arrivals: registered flows are pending or completed
      and never both, nothing completes twice, the list stays in registration order, and per key flows
      complete in the order they were sent. */
  lemma {:induction false} EveryRunConservesInOrder(ops: seq<FlowOp>)
    ensures Conserved(FlowRun(NO_FLOWS, ops)) && Fifo(FlowRun(NO_FLOWS, ops)) && InOrder(FlowRun(NO_FLOWS, ops).pending)
  {
    if ops != [] {
      var before := FlowRun(NO_FLOWS, ops[..|ops| - 1]);
      EveryRunConservesInOrder(ops[..|ops| - 1]);
      StepConserves(before, ops[|ops| - 1]);
      StepKeepsFifo(before, ops[|ops| - 1]);
      ConservedIsInOrder(FlowRun(NO_FLOWS, ops));
    }
  }

  /** The n-th reply that completes a flow of a key completes the n-th send of that key. */
  lemma NthReplyCompletesNthSend(ops: seq<FlowOp>, k: Key, n: nat)
    requires var s := FlowRun(NO_FLOWS, ops);
             n < |Completions(s.completed, s.registered, k)|
    ensures var s := FlowRun(NO_FLOWS, ops);
            n < |Sends(s.registered, k)| && Completions(s.completed, s.registered, k)[n] == Sends(s.registered, k)[n]
  {
    EveryRunConservesInOrder(ops);
  }

  /** Registered responders split into pending and completed ones, with none in both. */
  lemma PendingAndCompletedPartition(s: FlowState, r: nat)
    requires Conserved(s) && r < |s.registered|
    ensures r in s.completed <==> Flow(s.registered[r], r) !in s.pending
    ensures Flow(s.registered[r], r) in s.pending <==> exists f :: f in s.pending && f.responder == r
  {
    if r !in s.completed {
      UnfinishedContains(s.registered, s.completed, r);
    }
    forall f | f in s.pending && f.responder == r ensures f == Flow(s.registered[r], r) && r !in s.completed {
      var j :| 0 <= j < |s.pending| && s.pending[j] == f;
      UnfinishedFlow(s.registered, s.completed, j);
    }
  }

  // ----- which replies reach their own request -----

  /** The reply to a flow completes that flow. */
  predicate ReachesItself(flows: seq<Flow>, j: nat, recv: MsgFlowTag)
    requires j < |flows|
  {
    FirstMatch(flows, recv) == j
  }

  predicate DistinctKeys(flows: seq<Flow>) {
    forall i, j :: 0 <= i < j < |flows| ==> FlowKey(flows[i].tag) != FlowKey(flows[j].tag)
  }

  /** The tag of a reply to a flow: the remote endpoint answers with the same tag and the other owner bit. */
  function ReplyTag(tag: MsgFlowTag): MsgFlowTag {
    MsgFlowTag(tag.srcEid, tag.destEid, tag.msgTag, !tag.tagOwner)
  }

  /** Replies may come in any order and each still finds its own flow exactly when no two pending
      flows share a key. */
  lemma ReorderingIsSafeIffKeysDiffer(flows: seq<Flow>)
    ensures DistinctKeys(flows)
       <==> forall j :: 0 <= j < |flows| ==> ReachesItself(flows, j, ReplyTag(flows[j].tag))
  {
    if DistinctKeys(flows) {
      forall j | 0 <= j < |flows| ensures ReachesItself(flows, j, ReplyTag(flows[j].tag)) {
        var i := FirstMatch(flows, ReplyTag(flows[j].tag));
        assert Matches(flows[j].tag, ReplyTag(flows[j].tag));
        assert i < j ==> FlowKey(flows[i].tag) == FlowKey(flows[j].tag);
      }
    } else {
      var i, j :| 0 <= i < j < |flows| && FlowKey(flows[i].tag) == FlowKey(flows[j].tag);
      assert Matches(flows[i].tag, ReplyTag(flows[j].tag));
      assert !ReachesItself(flows, j, ReplyTag(flows[j].tag));
    }
  }

  /** A received frame with the owner bit set completes no flow that its sender owns. */
  lemma OwnedFramesCompleteNothing(flows: seq<Flow>, recv: MsgFlowTag)
    requires recv.tagOwner && forall j :: 0 <= j < |flows| ==> flows[j].tag.tagOwner
    ensures FirstMatch(flows, recv) == |flows|
  {
  }

  /** A frame too short for a transport header completes the oldest flow to endpoint 0 under tag 0,
      if there is one that is owned: the all-zero tag is a valid reply tag. */
  lemma RuntFrameCompletes(flows: seq<Flow>, runt: Buffer)
    requires |runt| < 4
    ensures FirstMatch(flows, CreateTag(runt)) < |flows| <==> Queue(flows, Key(0, 0, true)) != []
  {
    FirstMatchIsDequeue(flows, CreateTag(runt));
  }

  // ----- tags read from encoded headers -----

  lemma TagOfHeader(h: TransportHeader, rest: Buffer)
    ensures CreateTag(h.Encode() + rest) == MsgFlowTag(h.destinationEid, h.sourceEid, h.msgTag, h.tagOwner)
  {
    TransportDecodeEncode(h, rest);
  }

  /** The response header, written and read back, matches the flow registered from the request header,
      whatever follows either on the wire. */
  lemma ResponseMatchesRequest(h: TransportHeader, rest: Buffer, responseRest: Buffer)
    ensures CreateTag(h.CreateResponse().Encode() + responseRest) == ReplyTag(CreateTag(h.Encode() + rest))
    ensures Matches(CreateTag(h.Encode() + rest), CreateTag(h.CreateResponse().Encode() + responseRest))
  {
    TagOfHeader(h, rest);
    TagOfHeader(h.CreateResponse(), responseRest);
  }

  // ----- the list itself -----

  class PendingFlows {
    var flows: seq<Flow>
    var nextResponder: nat
    ghost var registered: seq<MsgFlowTag>
    ghost var completed: seq<nat>

    ghost function State(): FlowState
      reads this
    {
      FlowState(flows, registered, completed)
    }

    ghost predicate Valid()
      reads this
    {
      nextResponder == |registered| && Conserved(State()) && Fifo(State())
    }

    constructor ()
      ensures Valid() && State() == NO_FLOWS
    {
      flows, nextResponder := [], 0;
      registered, completed := [], [];
    }

    /** Pushes a flow with a fresh responder at the end of the list. */
    method Push(tag: MsgFlowTag) returns (responder: nat)
      requires Valid()
      modifies this
      ensures Valid()
      ensures responder == |old(registered)|
      ensures State() == RegisterFlow(old(State()), tag)
      ensures forall k :: Queue(flows, k) == Queue(old(flows), k) + (if k == FlowKey(tag) then [responder] else [])
    {
      responder := nextResponder;
      StepConserves(State(), Register(tag));
      StepKeepsFifo(State(), Register(tag));
      forall k
        ensures Queue(flows + [Flow(tag, responder)], k)
          == Queue(flows, k) + (if k == FlowKey(tag) then [responder] else [])
      {
        QueueConcat(flows, [Flow(tag, responder)], k);
      }
      flows := flows + [Flow(tag, responder)];
      nextResponder := nextResponder + 1;
      registered := registered + [tag];
    }

    /** Searches for the first flow that the received tag matches, removes it and hands out its responder. */
    method Take(recv: MsgFlowTag) returns (responder: Option<nat>)
      requires Valid()
      modifies this
      ensures Valid()
      ensures State() == ArriveFlow(old(State()), recv)
      ensures var i := FirstMatch(old(flows), recv);
              responder == if i < |old(flows)| then Some(old(flows)[i].responder) else None
      ensures responder.None? <==> Queue(old(flows), ReplyKey(recv)) == []
      ensures responder.Some? ==> Queue(old(flows), ReplyKey(recv)) == [responder.value] + Queue(flows, ReplyKey(recv))
      ensures forall k :: k != ReplyKey(recv) ==> Queue(flows, k) == Queue(old(flows), k)
    {
      FirstMatchIsDequeue(flows, recv);
      StepConserves(State(), Arrive(recv));
      StepKeepsFifo(State(), Arrive(recv));
      var index := 0;
      while index < |flows|
        invariant 0 <= index <= |flows|
        invariant forall j :: 0 <= j < index ==> !Matches(flows[j].tag, recv)
      {
        var tag := flows[index].tag;
        if tag.msgTag == recv.msgTag && tag.tagOwner != recv.tagOwner && tag.destEid == recv.srcEid {
          break;
        }
        index := index + 1;
      }
      FirstMatchUnique(flows, recv, index);
      if index != |flows| {
        responder := Some(flows[index].responder);
        completed := completed + [flows[index].responder];
        flows := flows[..index] + flows[index + 1..];
      } else {
        responder := None;
      }
    }
  }

  /** The contract of `FirstMatch` determines it. */
  lemma FirstMatchUnique(flows: seq<Flow>, recv: MsgFlowTag, i: nat)
    requires i <= |flows| && (i < |flows| ==> Matches(flows[i].tag, recv))
    requires forall j :: 0 <= j < i ==> !Matches(flows[j].tag, recv)
    ensures i == FirstMatch(flows, recv)
  {
  }
}
