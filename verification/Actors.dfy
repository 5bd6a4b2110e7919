/** The transport actor of the bus owner example: it owns the pending flows, frames what is sent, and
    routes each received frame to the flow it completes or to the request handler. */
module Actors {
  import opened Bytes
  import opened Headers
  import opened ControlPayloads
  import opened Smbus
  import opened Flows
  import opened Responder

  /** `alive` is lost when a step of the actor task panics. */
  datatype Actor = Actor(flows: FlowState, endpoint: Endpoint, alive: bool)

  /** `Poll` is the discovery loop taking the discovery flag. */
  datatype Event = SendMsg(buf: Buffer, wantsReply: bool) | ReceiveMsg(frame: Buffer) | Poll

  datatype Verdict =
    | Dropped
    | Completed(responder: nat, payload: Buffer)
    | Replied(reply: Buffer)
    | Errored
    | Panicked
    | Sent(sent: Buffer)
    | Polled(discover: bool)
    | NotTaken

  datatype Step = Step(actor: Actor, verdict: Verdict)

  /** The build and the checksum are fixed for a whole run. */
  datatype Platform = Platform(build: Build, pec: Checksum)

  function SendStep(on: Platform, a: Actor, buf: Buffer, wantsReply: bool): Step {
    var b := if wantsReply then a.(flows := RegisterFlow(a.flows, CreateTag(buf))) else a;
    match BusOwnerFrame(on.build, buf, on.pec)
    case None => Step(b.(alive := false), Panicked)
    case Some(frame) => Step(b, Sent(frame))
  }

  predicate Malformed(frame: Buffer) {
    |frame| < 4 || frame[1] != COMMAND_CODE_MCTP
  }

  function HandleStep(on: Platform, a: Actor, payload: Buffer): Step {
    var handled := HandleRequest(a.endpoint, payload);
    var b := a.(endpoint := handled.endpoint);
    match handled.outcome
    case Failed => Step(b, Errored)
    case Unimplemented => Step(b.(alive := false), Panicked)
    case Reply(bytes) =>
      match BusOwnerFrame(on.build, bytes, on.pec)
      case None => Step(b.(alive := false), Panicked)
      case Some(frame) => Step(b, Replied(frame))
  }

  function ReceiveStep(on: Platform, a: Actor, frame: Buffer): Step {
    if Malformed(frame) then Step(a, Dropped)
    else
      var payload := frame[4..];
      var recv := CreateTag(payload);
      var i := FirstMatch(a.flows.pending, recv);
      if i < |a.flows.pending|
      then Step(a.(flows := ArriveFlow(a.flows, recv)), Completed(a.flows.pending[i].responder, payload))
      else HandleStep(on, a, payload)
  }

  function ActorStep(on: Platform, a: Actor, e: Event): Step {
    match e
    case Poll => Step(a.(endpoint := a.endpoint.(performDiscovery := false)), Polled(a.endpoint.performDiscovery))
    case SendMsg(buf, wantsReply) => if a.alive then SendStep(on, a, buf, wantsReply) else Step(a, NotTaken)
    case ReceiveMsg(frame) => if a.alive then ReceiveStep(on, a, frame) else Step(a, NotTaken)
  }

  /** A run with the verdict of each of its events. */
  datatype Run = Run(actor: Actor, verdicts: seq<Verdict>)

  function ActorRun(on: Platform, start: Actor, events: seq<Event>): (r: Run)
    ensures |r.verdicts| == |events|
  {
    if events == [] then Run(start, [])
    else
      var before := ActorRun(on, start, events[..|events| - 1]);
      var step := ActorStep(on, before.actor, events[|events| - 1]);
      Run(step.actor, before.verdicts + [step.verdict])
  }

  // ----- one frame -----

  lemma ReplyFramed(on: Platform, b: Buffer)
    requires Answered(b)
    ensures BusOwnerFrame(on.build, ReplyBytes(b), on.pec).Some?
    ensures var frame := BusOwnerFrame(on.build, ReplyBytes(b), on.pec).value;
            !Malformed(frame) && |frame| == |ReplyBytes(b)| + 5 && frame[4..] == ReplyBytes(b) + [frame[|frame| - 1]]
  {
    assert |ReplyBytes(b)| <= 11;
    BusOwnerFrameReadBack(on.build, ReplyBytes(b), on.pec);
  }

  /** The frame of the reply to an answered request. */
  function ReplyFrame(on: Platform, b: Buffer): Buffer
    requires Answered(b)
  {
    ReplyFramed(on, b);
    BusOwnerFrame(on.build, ReplyBytes(b), on.pec).value
  }

  /** The step of a frame that completes no flow, from its bytes. */
  function Handling(on: Platform, a: Actor, payload: Buffer): Step {
    if Answered(payload) then Step(a.(endpoint := EndpointAfter(a.endpoint, payload)), Replied(ReplyFrame(on, payload)))
    else if |payload| >= 7 && payload[6] > 0x14 then Step(a.(alive := false), Panicked)
    else Step(a, Errored)
  }

  lemma HandleStepMeetsHandling(on: Platform, a: Actor, payload: Buffer)
    ensures HandleStep(on, a, payload) == Handling(on, a, payload)
  {
    HandlerMeetsReference(a.endpoint, payload);
    if Answered(payload) {
      ReplyFramed(on, payload);
    }
  }

  /** The responders of the flows that a payload could complete, oldest first. */
  function Awaited(a: Actor, payload: Buffer): seq<nat> {
    Queue(a.flows.pending, ReplyKey(CreateTag(payload)))
  }

  /** The frames that are taken: long enough for the SMBus header, with the command code of MCTP. */
  predicate IsMctp(frame: Buffer) {
    |frame| >= 4 && frame[1] == 0x0F
  }

  /** Every frame has one outcome, decided by its bytes and the queue it addresses: dropped, handled as a
      request without touching the flows, or completing the oldest flow of the queue without touching the
      endpoint. */
  lemma FrameOutcome(on: Platform, a: Actor, frame: Buffer)
    ensures ReceiveStep(on, a, frame).verdict.Dropped? <==> |frame| < 4 || frame[1] != 0x0F
    ensures |frame| < 4 || frame[1] != 0x0F ==> ReceiveStep(on, a, frame) == Step(a, Dropped)
    ensures IsMctp(frame) && Awaited(a, frame[4..]) == [] ==>
              ReceiveStep(on, a, frame) == Handling(on, a, frame[4..])
    ensures IsMctp(frame) && Awaited(a, frame[4..]) != [] ==>
              && ReceiveStep(on, a, frame).verdict == Completed(Awaited(a, frame[4..])[0], frame[4..])
              && ReceiveStep(on, a, frame).actor.endpoint == a.endpoint
              && ReceiveStep(on, a, frame).actor.alive == a.alive
              && Awaited(ReceiveStep(on, a, frame).actor, frame[4..]) == Awaited(a, frame[4..])[1..]
  {
    if IsMctp(frame) {
      FirstMatchIsDequeue(a.flows.pending, CreateTag(frame[4..]));
      HandleStepMeetsHandling(on, a, frame[4..]);
    }
  }

  /** What a send does, from the bytes: it registers the tag of the message exactly if a reply is wanted, and
      then sends the framed message, unless the byte count overflows a checked build. */
  lemma SendOutcome(on: Platform, a: Actor, buf: Buffer, wantsReply: bool)
    requires a.alive
    ensures var step := ActorStep(on, a, SendMsg(buf, wantsReply));
            && step.actor.endpoint == a.endpoint
            && step.actor.flows == (if wantsReply then RegisterFlow(a.flows, CreateTag(buf)) else a.flows)
            && (step.actor.alive <==> step.verdict.Sent?)
            && (step.verdict.Panicked? <==> on.build.Checked? && |buf| % 256 == 255)
            && (!step.verdict.Panicked? ==>
                  && step.verdict.Sent? && |step.verdict.sent| == |buf| + 5
                  && step.verdict.sent[..4] == [0x60, 0x0F, (|buf| + 1) % 256, 0x21]
                  && step.verdict.sent[4..] == buf + [on.pec(step.verdict.sent[..|buf| + 4])])
  {
    BusOwnerFrameReadBack(on.build, buf, on.pec);
  }

  /** An actor that has panicked takes neither messages nor frames. */
  lemma DeadActorTakesNothing(on: Platform, a: Actor, e: Event)
    requires !a.alive && !e.Poll?
    ensures ActorStep(on, a, e) == Step(a, NotTaken)
  {
  }

  /** Any frame with the command Set Endpoint ID sets the EID unless it completes a flow: the handler looks
      at neither the request bit nor the owner bit, so a response does it as well as a request. */
  lemma SetEidFrameSetsUnlessAwaited(on: Platform, a: Actor, frame: Buffer)
    requires !Malformed(frame) && |frame| >= 13 && frame[10] == SET_EID
    ensures ReceiveStep(on, a, frame).actor.endpoint.assignedEid
         == if Awaited(a, frame[4..]) == [] then frame[12] else a.endpoint.assignedEid
  {
    FrameOutcome(on, a, frame);
  }

  /** So the program's own reply to a Set Endpoint ID, arriving where no flow waits for it, resets the EID
      to 0: its status byte stands where a request carries the EID. */
  lemma StrayReplyResetsTheEid(on: Platform, a: Actor, request: Buffer)
    requires Answered(request) && request[6] == SET_EID
    requires Awaited(a, ReplyFrame(on, request)[4..]) == []
    ensures ReceiveStep(on, a, ReplyFrame(on, request)).actor.endpoint.assignedEid == 0
  {
    var frame := ReplyFrame(on, request);
    ReplyFramed(on, request);
    assert frame[4..][8] == ReplyBytes(request)[8] == 0 && frame[4..][6] == ReplyBytes(request)[6];
    SetEidFrameSetsUnlessAwaited(on, a, frame);
  }

  // ----- every run -----

  /** Whatever is sent and received, flows are conserved and complete in order per key. */
  lemma {:induction false} RunConservesFlows(on: Platform, start: Actor, events: seq<Event>)
    requires Conserved(start.flows) && Fifo(start.flows)
    ensures var flows := ActorRun(on, start, events).actor.flows; Conserved(flows) && Fifo(flows)
  {
    if events != [] {
      RunConservesFlows(on, start, events[..|events| - 1]);
      StepConservesFlows(on, ActorRun(on, start, events[..|events| - 1]).actor, events[|events| - 1]);
    }
  }

  /** What a step does to the flows: nothing, one registration or one arrival. */
  lemma StepFlows(on: Platform, a: Actor, e: Event)
    ensures var flows := ActorStep(on, a, e).actor.flows;
            || flows == a.flows
            || (e.SendMsg? && flows == RegisterFlow(a.flows, CreateTag(e.buf)))
            || (e.ReceiveMsg? && |e.frame| >= 4 && flows == ArriveFlow(a.flows, CreateTag(e.frame[4..])))
  {
  }

  lemma StepConservesFlows(on: Platform, a: Actor, e: Event)
    requires Conserved(a.flows) && Fifo(a.flows)
    ensures var flows := ActorStep(on, a, e).actor.flows; Conserved(flows) && Fifo(flows)
  {
    StepFlows(on, a, e);
    match e {
      case SendMsg(buf, _) =>
        StepConserves(a.flows, Register(CreateTag(buf)));
        StepKeepsFifo(a.flows, Register(CreateTag(buf)));
      case ReceiveMsg(frame) =>
        if |frame| >= 4 {
          StepConserves(a.flows, Arrive(CreateTag(frame[4..])));
          StepKeepsFifo(a.flows, Arrive(CreateTag(frame[4..])));
        }
      case Poll =>
    }
  }

  /** A frame with the command Set Endpoint ID, request or not, was answered at event `i`. */
  predicate SetAt(events: seq<Event>, run: Run, i: nat)
    requires i < |events| == |run.verdicts|
  {
    events[i].ReceiveMsg? && run.verdicts[i].Replied? && |events[i].frame| >= 13 && events[i].frame[10] == SET_EID
  }

  /** A frame with the command Discovery Notify, request or not, was answered at event `i`. */
  predicate NotifyAt(events: seq<Event>, run: Run, i: nat)
    requires i < |events| == |run.verdicts|
  {
    events[i].ReceiveMsg? && run.verdicts[i].Replied? && |events[i].frame| >= 11
    && events[i].frame[10] == DISCOVERY_NOTIFY
  }

  /** The endpoint after one event. */
  lemma StepEndpoint(on: Platform, a: Actor, e: Event)
    ensures var step := ActorStep(on, a, e);
            && step.actor.endpoint.assignedEid
               == (if e.ReceiveMsg? && step.verdict.Replied? && |e.frame| >= 13 && e.frame[10] == SET_EID
                   then e.frame[12] else a.endpoint.assignedEid)
            && (step.actor.endpoint.performDiscovery <==>
                  !e.Poll? && (a.endpoint.performDiscovery
                               || (e.ReceiveMsg? && step.verdict.Replied? && |e.frame| >= 11
                                   && e.frame[10] == DISCOVERY_NOTIFY)))
            && (e.Poll? ==> step.verdict == Polled(a.endpoint.performDiscovery))
            && (step.verdict.Polled? ==> e.Poll?)
  {
    if e.ReceiveMsg? && a.alive {
      FrameOutcome(on, a, e.frame);
    }
  }

  predicate LastSetAt(events: seq<Event>, run: Run, i: nat)
    requires i < |events| == |run.verdicts|
  {
    SetAt(events, run, i) && forall j :: i < j < |events| ==> !SetAt(events, run, j)
  }

  predicate NeverSet(events: seq<Event>, run: Run)
    requires |events| == |run.verdicts|
  {
    forall j :: 0 <= j < |events| ==> !SetAt(events, run, j)
  }

  /** The EID is the one in the last answered Set Endpoint ID frame, or the initial one if there was none. */
  predicate EidExplained(start: Actor, events: seq<Event>, run: Run)
    requires |events| == |run.verdicts|
  {
    var eid := run.actor.endpoint.assignedEid;
    || (NeverSet(events, run) && eid == start.endpoint.assignedEid)
    || exists i :: 0 <= i < |events| && LastSetAt(events, run, i) && eid == events[i].frame[12]
  }

  /** After every run the assigned EID is the one in the last answered Set Endpoint ID frame; if there was
      none it is the initial one. */
  lemma {:induction false} AssignedEidIsTheLastOneSet(on: Platform, start: Actor, events: seq<Event>)
    ensures EidExplained(start, events, ActorRun(on, start, events))
  {
    if events != [] {
      var n := |events| - 1;
      var run := ActorRun(on, start, events);
      var before := ActorRun(on, start, events[..n]);
      AssignedEidIsTheLastOneSet(on, start, events[..n]);
      StepEndpoint(on, before.actor, events[n]);
      EidStaysExplained(start, events, before, run);
    }
  }

  lemma EidStaysExplained(start: Actor, events: seq<Event>, before: Run, run: Run)
    requires events != [] && |run.verdicts| == |events| && |before.verdicts| == |events| - 1
    requires before.verdicts == run.verdicts[..|events| - 1] && EidExplained(start, events[..|events| - 1], before)
    requires run.actor.endpoint.assignedEid
          == if SetAt(events, run, |events| - 1) then events[|events| - 1].frame[12]
            else before.actor.endpoint.assignedEid
    ensures EidExplained(start, events, run)
  {
    var n := |events| - 1;
    assert forall j :: 0 <= j < n ==> SetAt(events[..n], before, j) == SetAt(events, run, j);
    if SetAt(events, run, n) {
      assert LastSetAt(events, run, n);
    } else if !NeverSet(events[..n], before) {
      LastSetStays(events, before, run);
    }
  }

  lemma LastSetStays(events: seq<Event>, before: Run, run: Run)
    requires events != [] && |run.verdicts| == |events| && |before.verdicts| == |events| - 1
    requires forall j :: 0 <= j < |events| - 1 ==> SetAt(events[..|events| - 1], before, j) == SetAt(events, run, j)
    requires !SetAt(events, run, |events| - 1)
    ensures forall i :: 0 <= i < |events| - 1 && LastSetAt(events[..|events| - 1], before, i) ==>
      LastSetAt(events, run, i)
  {
  }

  predicate NoPollFrom(events: seq<Event>, i: nat) {
    forall j :: i <= j < |events| ==> !events[j].Poll?
  }

  /** A notification was accepted and the discovery loop has not looked since. */
  predicate NotifyWaits(start: Actor, events: seq<Event>, run: Run)
    requires |events| == |run.verdicts|
  {
    || (start.endpoint.performDiscovery && NoPollFrom(events, 0))
    || exists i :: 0 <= i < |events| && NotifyAt(events, run, i) && NoPollFrom(events, i)
  }

  /** No notification is lost and none is invented: the flag is up exactly while one waits. */
  lemma {:induction false} DiscoveryFlagMeansNotifyWaits(on: Platform, start: Actor, events: seq<Event>)
    ensures var run := ActorRun(on, start, events);
            run.actor.endpoint.performDiscovery <==> NotifyWaits(start, events, run)
  {
    if events != [] {
      var n := |events| - 1;
      var run := ActorRun(on, start, events);
      var before := ActorRun(on, start, events[..n]);
      DiscoveryFlagMeansNotifyWaits(on, start, events[..n]);
      StepEndpoint(on, before.actor, events[n]);
      assert forall j :: 0 <= j < n ==> NotifyAt(events[..n], before, j) == NotifyAt(events, run, j);
      NotifyWaitsAfter(start, events, before, run);
    } else {
      assert NoPollFrom(events, 0);
    }
  }

  lemma NotifyWaitsAfter(start: Actor, events: seq<Event>, before: Run, run: Run)
    requires events != [] && |run.verdicts| == |events| && |before.verdicts| == |events| - 1
    requires forall j :: 0 <= j < |events| - 1 ==>
      NotifyAt(events[..|events| - 1], before, j) == NotifyAt(events, run, j)
    ensures NotifyWaits(start, events, run)
       <==> !events[|events| - 1].Poll?
            && (NotifyWaits(start, events[..|events| - 1], before) || NotifyAt(events, run, |events| - 1))
  {
    var n := |events| - 1;
    forall i | 0 <= i <= n ensures NoPollFrom(events, i) <==> !events[n].Poll? && NoPollFrom(events[..n], i) {
      if !NoPollFrom(events[..n], i) {
        var j :| i <= j < n && events[..n][j].Poll?;
        assert events[j].Poll?;
      }
    }
    if !events[n].Poll? && NotifyAt(events, run, n) {
      assert NoPollFrom(events, n);
    }
    if !events[n].Poll? && NotifyWaits(start, events[..n], before)
       && !(start.endpoint.performDiscovery && NoPollFrom(events, 0)) {
      var i :| 0 <= i < n && NotifyAt(events[..n], before, i) && NoPollFrom(events[..n], i);
      assert NotifyAt(events, run, i);
    }
  }

  /** The polls that found the flag up, each of which starts a discovery round. */
  function RoundsIn(verdicts: seq<Verdict>): nat {
    if verdicts == [] then 0
    else RoundsIn(verdicts[..|verdicts| - 1]) + (if verdicts[|verdicts| - 1] == Polled(true) then 1 else 0)
  }

  function NotifiesAccepted(events: seq<Event>, run: Run, upTo: nat): nat
    requires upTo <= |events| == |run.verdicts|
  {
    if upTo == 0 then 0
    else NotifiesAccepted(events, run, upTo - 1) + (if NotifyAt(events, run, upTo - 1) then 1 else 0)
  }

  lemma {:induction false} NotifiesAcceptedPrefix(events: seq<Event>, before: Run, run: Run, upTo: nat)
    requires upTo < |events| == |run.verdicts| && |before.verdicts| == |events| - 1
    requires run.verdicts[..|events| - 1] == before.verdicts
    ensures NotifiesAccepted(events, run, upTo) == NotifiesAccepted(events[..|events| - 1], before, upTo)
  {
    if upTo > 0 {
      NotifiesAcceptedPrefix(events, before, run, upTo - 1);
      assert before.verdicts[upTo - 1] == run.verdicts[upTo - 1];
    }
  }

  /** Each round uses up a notification: rounds started, plus one if another is due, never exceed
      notifications accepted, plus one if the flag was up at the start. */
  lemma {:induction false} RoundsNeverExceedNotifies(on: Platform, start: Actor, events: seq<Event>)
    ensures RoundsIn(ActorRun(on, start, events).verdicts)
        + Bit(ActorRun(on, start, events).actor.endpoint.performDiscovery)
         <= NotifiesAccepted(events, ActorRun(on, start, events), |events|) + Bit(start.endpoint.performDiscovery)
  {
    if events != [] {
      var n := |events| - 1;
      var run := ActorRun(on, start, events);
      var before := ActorRun(on, start, events[..n]);
      RoundsNeverExceedNotifies(on, start, events[..n]);
      StepEndpoint(on, before.actor, events[n]);
      assert run.verdicts[..n] == before.verdicts;
      NotifiesAcceptedPrefix(events, before, run, n);
    }
  }

  /** The frames of a run by outcome. */
  datatype Tally = Tally(dropped: nat, completed: nat, replied: nat, errored: nat, panicked: nat, notTaken: nat)

  function TallyOf(events: seq<Event>, run: Run, upTo: nat): Tally
    requires upTo <= |events| == |run.verdicts|
  {
    if upTo == 0 then Tally(0, 0, 0, 0, 0, 0)
    else
      var t := TallyOf(events, run, upTo - 1);
      if !events[upTo - 1].ReceiveMsg? then t
      else
        match run.verdicts[upTo - 1]
        case Dropped => t.(dropped := t.dropped + 1)
        case Completed(_, _) => t.(completed := t.completed + 1)
        case Replied(_) => t.(replied := t.replied + 1)
        case Errored => t.(errored := t.errored + 1)
        case Panicked => t.(panicked := t.panicked + 1)
        case _ => t.(notTaken := t.notTaken + 1)
  }

  function FramesReceived(events: seq<Event>): nat {
    if events == [] then 0
    else FramesReceived(events[..|events| - 1]) + (if events[|events| - 1].ReceiveMsg? then 1 else 0)
  }

  lemma {:induction false} TallyPrefix(events: seq<Event>, before: Run, run: Run, upTo: nat)
    requires upTo < |events| == |run.verdicts| && |before.verdicts| == |events| - 1
    requires run.verdicts[..|events| - 1] == before.verdicts
    ensures TallyOf(events, run, upTo) == TallyOf(events[..|events| - 1], before, upTo)
  {
    if upTo > 0 {
      TallyPrefix(events, before, run, upTo - 1);
      assert before.verdicts[upTo - 1] == run.verdicts[upTo - 1];
      assert events[..|events| - 1][upTo - 1] == events[upTo - 1];
    }
  }

  /** What one step adds to the counts. */
  lemma StepCounts(on: Platform, a: Actor, e: Event)
    ensures var step := ActorStep(on, a, e);
            && |step.actor.flows.completed| == |a.flows.completed| + (if step.verdict.Completed? then 1 else 0)
            && |step.actor.flows.registered| - |step.actor.flows.pending| - |step.actor.flows.completed|
            == |a.flows.registered| - |a.flows.pending| - |a.flows.completed|
            && (step.verdict.Completed? ==> e.ReceiveMsg?)
            && (step.actor.alive ==> a.alive)
            && (step.actor.alive && e.ReceiveMsg? ==>
                  step.verdict.Dropped? || step.verdict.Completed? || step.verdict.Replied? || step.verdict.Errored?)
  {
    StepFlows(on, a, e);
    if e.ReceiveMsg? && a.alive {
      FrameOutcome(on, a, e.frame);
    }
  }

  /** The outcomes of a run add up to the frames received; the completed flows of the list are exactly
      the frames that completed one, and the rest of the registered flows is still pending. While the
      actor lives, no frame was left out and none panicked. */
  lemma {:induction false} TallyAddsUp(on: Platform, endpoint: Endpoint, events: seq<Event>)
    ensures var start := Actor(NO_FLOWS, endpoint, true);
            var run := ActorRun(on, start, events);
            var t := TallyOf(events, run, |events|);
            && t.dropped + t.completed + t.replied + t.errored + t.panicked + t.notTaken == FramesReceived(events)
            && |run.actor.flows.completed| == t.completed
            && |run.actor.flows.pending| == |run.actor.flows.registered| - t.completed
            && (run.actor.alive ==> t.panicked == 0 && t.notTaken == 0)
  {
    if events != [] {
      var n := |events| - 1;
      var start := Actor(NO_FLOWS, endpoint, true);
      var run := ActorRun(on, start, events);
      var before := ActorRun(on, start, events[..n]);
      TallyAddsUp(on, endpoint, events[..n]);
      assert run.verdicts[..n] == before.verdicts;
      TallyPrefix(events, before, run, n);
      StepCounts(on, before.actor, events[n]);
    }
  }
}
