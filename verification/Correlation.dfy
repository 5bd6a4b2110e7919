/** Requester, responders and the wire between them: the channel may reorder and lose frames but does not
    duplicate them. Tags are 8-bit counters cut to 3 bits, and still every responder gets the reply to its
    own request as long as the requests outstanding lie within eight consecutive tag allocations. */
module Correlation {
  import opened Bytes
  import opened Enums
  import opened Headers
  import opened ControlPayloads
  import opened Smbus
  import opened Flows
  import opened Responder
  import opened Actors
  import Discovery

  // ----- requests and replies -----

  /** A control request as it is sent: any known command with any body. */
  datatype Question = Question(src: Byte, dst: Byte, tagCounter: Byte, instanceCounter: Byte,
                                command: CommandCode, body: Buffer)

  function QuestionHeader(q: Question): TransportHeader {
    TransportHeader.New(q.src, q.dst, q.tagCounter, true, true, true)
  }

  function QuestionControlHeader(q: Question): ControlMsgHeader {
    ControlMsgHeader.New(q.command, q.instanceCounter, false, true, false)
  }

  function QuestionBytes(q: Question): Buffer {
    QuestionHeader(q).Encode() + (QuestionControlHeader(q).Encode() + q.body)
  }

  function QuestionTag(q: Question): MsgFlowTag {
    MsgFlowTag(q.dst, q.src, q.tagCounter % 8, true)
  }

  /** The requests of the discovery loop are questions. */
  function AsQuestion(r: Discovery.Request): Question {
    Question(r.src, if r.op.AskEid? then r.op.dst else 0, r.tagCounter, r.instanceCounter,
             Discovery.RequestControlHeader(r).command, Discovery.RequestBody(r).Fields())
  }

  lemma DiscoveryRequestsAreQuestions(r: Discovery.Request)
    ensures QuestionBytes(AsQuestion(r)) == Discovery.RequestBytes(r) && !AsQuestion(r).command.Unknown?
  {
  }

  lemma TagOfQuestion(q: Question, tail: Buffer)
    ensures CreateTag(QuestionBytes(q) + tail) == QuestionTag(q)
  {
    var rest := QuestionControlHeader(q).Encode() + q.body;
    TagOfHeader(QuestionHeader(q), rest + tail);
    assert QuestionBytes(q) + tail == QuestionHeader(q).Encode() + (rest + tail);
  }

  lemma QuestionReadBack(q: Question, tail: Buffer)
    ensures var b := QuestionBytes(q) + tail;
            Parse(b).Ok? && Parse(b).value.hdr == QuestionHeader(q)
            && Parse(b).value.controlHdr == QuestionControlHeader(q)
  {
    var rest := q.body + tail;
    var p := ControlPayload(QuestionHeader(q), QuestionControlHeader(q), QuestionControlHeader(q).Encode() + rest);
    ControlDecodeEncode(QuestionControlHeader(q), rest);
    CoherentIffReadBack(p);
    assert QuestionBytes(q) + tail == p.Encode();
  }

  /** The payload reads as the reply to this very request: response header, and the request's control
      header, with its instance id and command, but for the request bit. */
  predicate IsAnswerTo(q: Question, payload: Buffer) {
    var r := Parse(payload);
    r.Ok? && r.value.hdr == QuestionHeader(q).CreateResponse()
    && r.value.controlHdr == QuestionControlHeader(q).ClearRq()
  }

  lemma AnswerTag(q: Question, payload: Buffer)
    requires IsAnswerTo(q, payload)
    ensures CreateTag(payload) == ReplyTag(QuestionTag(q))
  {
    assert payload[..4][0] == payload[0] && payload[..4][3] == payload[3];
  }

  // ----- the system -----

  /** `origin` labels a packet with the request it belongs to; no step looks at it to route a frame. */
  datatype Packet = Packet(origin: nat, isReply: bool, frame: Buffer)

  /** `questions`, `frames`, `answers` and `delivered` are history: each request, the frame it was sent in,
      the payload computed for it and the payload its responder completed with. */
  datatype System = System(actor: Actor, tagCounter: Byte, instanceCounter: Byte,
                           questions: seq<Question>, frames: seq<Buffer>,
                           wire: multiset<Packet>, answers: map<nat, Buffer>, delivered: map<nat, Buffer>)

  datatype Move =
    | Ask(src: Byte, dst: Byte, command: CommandCode, body: Buffer)
    | Serve(packet: Packet, peer: Actor)
    | Lose(packet: Packet)
    | Deliver(packet: Packet)
    | Intrude(frame: Buffer)
    | Duplicate(packet: Packet)

  function Asked(s: System, m: Move): Question
    requires m.Ask?
  {
    Question(m.src, m.dst, s.tagCounter, s.instanceCounter, m.command, m.body)
  }

  predicate OwnsItsFlows(a: Actor) {
    forall j :: 0 <= j < |a.flows.pending| ==> a.flows.pending[j].tag.tagOwner
  }

  /** A request can be sent while the actor lives and the message fits a frame; any live actor whose
      pending flows are its own requests may serve it; anyone else's request may come in between. The channel
      may lose and, where that is not excluded, duplicate any packet. */
  predicate Enabled(on: Platform, s: System, m: Move) {
    match m
    case Ask(_, _, command, _) =>
      s.actor.alive && !command.Unknown? && BusOwnerFrame(on.build, QuestionBytes(Asked(s, m)), on.pec).Some?
    case Serve(p, peer) => p in s.wire && !p.isReply && peer.alive && OwnsItsFlows(peer)
    case Lose(p) => p in s.wire
    case Deliver(p) => p in s.wire && p.isReply
    case Intrude(frame) => !Malformed(frame) && CreateTag(frame[4..]).tagOwner
    case Duplicate(p) => p in s.wire
  }

  function AskNext(on: Platform, s: System, q: Question): System {
    var step := ActorStep(on, s.actor, SendMsg(QuestionBytes(q), true));
    s.(actor := step.actor,
       tagCounter := Increment(s.tagCounter),
       instanceCounter := Increment(s.instanceCounter),
       questions := s.questions + [q],
       frames := s.frames + [if step.verdict.Sent? then step.verdict.sent else []],
       wire := if step.verdict.Sent? then s.wire + multiset{Packet(|s.questions|, false, step.verdict.sent)}
               else s.wire)
  }

  function ServeNext(on: Platform, s: System, p: Packet, peer: Actor): System {
    var step := ActorStep(on, peer, ReceiveMsg(p.frame));
    var taken := s.wire - multiset{p};
    if step.verdict.Replied? && |step.verdict.reply| >= 4
    then s.(wire := taken + multiset{Packet(p.origin, true, step.verdict.reply)},
            answers := s.answers[p.origin := step.verdict.reply[4..]])
    else s.(wire := taken)
  }

  /** The requester's actor takes a frame; a flow it completes gets the payload. */
  function TakeFrame(on: Platform, s: System, frame: Buffer): System {
    var step := ActorStep(on, s.actor, ReceiveMsg(frame));
    s.(actor := step.actor,
       delivered := if step.verdict.Completed? then s.delivered[step.verdict.responder := step.verdict.payload]
                    else s.delivered)
  }

  function Next(on: Platform, s: System, m: Move): System {
    match m
    case Ask(_, _, _, _) => AskNext(on, s, Asked(s, m))
    case Serve(p, peer) => ServeNext(on, s, p, peer)
    case Lose(p) => s.(wire := s.wire - multiset{p})
    case Deliver(p) => TakeFrame(on, s.(wire := s.wire - multiset{p}), p.frame)
    case Intrude(frame) => TakeFrame(on, s, frame)
    case Duplicate(p) => s.(wire := s.wire + multiset{p})
  }

  // ----- the invariant -----

  /** At most one packet per request is in flight, and only while the request is pending; request packets
      carry the frame that was sent, reply packets the answer; what a responder got is the answer to its
      own request. Nothing here looks into the frames. */
  predicate Routed(s: System) {
    && |s.actor.flows.registered| == |s.questions| == |s.frames| && Conserved(s.actor.flows)
    && DistinctKeys(s.actor.flows.pending)
    && (forall p :: p in s.wire ==> PacketRouted(s, p))
    && (forall p, q :: p in s.wire && q in s.wire && p.origin == q.origin ==> p == q)
    && (forall i :: i in s.answers ==> i < |s.questions|)
    && (forall i :: i in s.delivered ==>
          i in s.answers && i in s.actor.flows.completed && s.delivered[i] == s.answers[i])
  }

  predicate PacketRouted(s: System, p: Packet) {
    && s.wire[p] == 1 && p.origin < |s.frames| && p.origin !in s.actor.flows.completed
    && if p.isReply
       then !Malformed(p.frame) && p.origin in s.answers && p.frame[4..] == s.answers[p.origin]
       else p.frame == s.frames[p.origin]
  }

  /** What the frames carry: each flow is registered under the tag of its request, each request was framed
      from its own bytes, and each answer answers its own request. */
  predicate Meaningful(on: Platform, s: System) {
    && |s.actor.flows.registered| == |s.questions| == |s.frames|
    && (forall i :: 0 <= i < |s.questions| ==> s.actor.flows.registered[i] == QuestionTag(s.questions[i]))
    && Framed(on, s.questions, s.frames)
    && AnswersOwn(s.questions, s.answers)
  }

  predicate Framed(on: Platform, questions: seq<Question>, frames: seq<Buffer>) {
    |questions| == |frames| && forall i :: 0 <= i < |questions| ==> IsFrameOf(on, questions[i], frames[i])
  }

  predicate AnswersOwn(questions: seq<Question>, answers: map<nat, Buffer>) {
    forall i :: i in answers ==> i < |questions| && IsAnswerTo(questions[i], answers[i])
  }

  predicate IsFrameOf(on: Platform, q: Question, frame: Buffer) {
    BusOwnerFrame(on.build, QuestionBytes(q), on.pec) == Some(frame)
  }

  predicate Sound(on: Platform, s: System) {
    Routed(s) && Meaningful(on, s)
  }

  /** The request would share its key with one that is outstanding. */
  predicate Collides(s: System, q: Question) {
    exists j :: 0 <= j < |s.actor.flows.pending| && FlowKey(s.actor.flows.pending[j].tag) == FlowKey(QuestionTag(q))
  }

  // ----- asking -----

  /** The system after a request: one flow and one packet more. */
  function WithRequest(s: System, q: Question, frame: Buffer): System {
    System(s.actor.(flows := RegisterFlow(s.actor.flows, QuestionTag(q))),
           Increment(s.tagCounter), Increment(s.instanceCounter), s.questions + [q], s.frames + [frame],
           s.wire + multiset{Packet(|s.questions|, false, frame)}, s.answers, s.delivered)
  }

  lemma AskStep(on: Platform, s: System, q: Question)
    requires s.actor.alive && BusOwnerFrame(on.build, QuestionBytes(q), on.pec).Some?
    ensures AskNext(on, s, q) == WithRequest(s, q, BusOwnerFrame(on.build, QuestionBytes(q), on.pec).value)
  {
    TagOfQuestion(q, []);
    assert QuestionBytes(q) + [] == QuestionBytes(q);
  }

  lemma WithRequestRouted(s: System, q: Question, frame: Buffer)
    requires Routed(s) && !Collides(s, q)
    ensures Routed(WithRequest(s, q, frame))
  {
    var t := WithRequest(s, q, frame);
    StepConserves(s.actor.flows, Register(QuestionTag(q)));
    assert |s.questions| !in s.actor.flows.completed;
    forall p | p in t.wire ensures PacketRouted(t, p) {
      if p in s.wire {
        assert PacketRouted(s, p);
      }
    }
  }

  lemma FramedAfter(on: Platform, questions: seq<Question>, frames: seq<Buffer>, q: Question, frame: Buffer)
    requires Framed(on, questions, frames) && IsFrameOf(on, q, frame)
    ensures Framed(on, questions + [q], frames + [frame])
  {
    forall i | 0 <= i < |questions| ensures IsFrameOf(on, (questions + [q])[i], (frames + [frame])[i]) {
      assert IsFrameOf(on, questions[i], frames[i]);
    }
  }

  lemma AnswersOwnAfter(questions: seq<Question>, answers: map<nat, Buffer>, q: Question)
    requires AnswersOwn(questions, answers)
    ensures AnswersOwn(questions + [q], answers)
  {
    forall i | i in answers ensures IsAnswerTo((questions + [q])[i], answers[i]) {
      assert IsAnswerTo(questions[i], answers[i]);
    }
  }

  lemma WithRequestMeaningful(on: Platform, s: System, q: Question, frame: Buffer)
    requires Meaningful(on, s) && IsFrameOf(on, q, frame)
    ensures Meaningful(on, WithRequest(s, q, frame))
  {
    FramedAfter(on, s.questions, s.frames, q, frame);
    AnswersOwnAfter(s.questions, s.answers, q);
  }

  lemma AskKeepsSound(on: Platform, s: System, q: Question)
    requires Sound(on, s) && !Collides(s, q)
    requires s.actor.alive && BusOwnerFrame(on.build, QuestionBytes(q), on.pec).Some?
    ensures Sound(on, AskNext(on, s, q))
  {
    AskStep(on, s, q);
    WithRequestRouted(s, q, BusOwnerFrame(on.build, QuestionBytes(q), on.pec).value);
    WithRequestMeaningful(on, s, q, BusOwnerFrame(on.build, QuestionBytes(q), on.pec).value);
  }

  // ----- serving -----

  lemma FrameOfQuestion(on: Platform, q: Question, frame: Buffer)
    requires IsFrameOf(on, q, frame)
    ensures !Malformed(frame)
    ensures exists x: Byte :: frame[4..] == QuestionBytes(q) + [x]
    ensures CreateTag(frame[4..]) == QuestionTag(q)
    ensures Parse(frame[4..]).Ok? && Parse(frame[4..]).value.hdr == QuestionHeader(q)
            && Parse(frame[4..]).value.controlHdr == QuestionControlHeader(q)
  {
    BusOwnerFrameReadBack(on.build, QuestionBytes(q), on.pec);
    var x := frame[|QuestionBytes(q)| + 4];
    TagOfQuestion(q, [x]);
    QuestionReadBack(q, [x]);
  }

  lemma AnsweredRequestGetsItsAnswer(on: Platform, q: Question, payload: Buffer)
    requires Answered(payload)
    requires Parse(payload).value.hdr == QuestionHeader(q)
             && Parse(payload).value.controlHdr == QuestionControlHeader(q)
    ensures !Malformed(ReplyFrame(on, payload)) && IsAnswerTo(q, ReplyFrame(on, payload)[4..])
  {
    ReplyFramed(on, payload);
    var frame := ReplyFrame(on, payload);
    ReplyReadBack(payload, [frame[|frame| - 1]]);
  }

  /** A peer that serves a request either sends the answer to that request or sends nothing. */
  lemma ServedReplyIsTheAnswer(on: Platform, q: Question, frame: Buffer, peer: Actor)
    requires IsFrameOf(on, q, frame)
    requires peer.alive && OwnsItsFlows(peer)
    ensures var verdict := ActorStep(on, peer, ReceiveMsg(frame)).verdict;
            verdict.Replied? ==> !Malformed(verdict.reply) && IsAnswerTo(q, verdict.reply[4..])
    ensures Answered(frame[4..])
      ==> ActorStep(on, peer, ReceiveMsg(frame)).verdict == Replied(ReplyFrame(on, frame[4..]))
  {
    FrameOfQuestion(on, q, frame);
    OwnedFramesCompleteNothing(peer.flows.pending, CreateTag(frame[4..]));
    FirstMatchIsDequeue(peer.flows.pending, CreateTag(frame[4..]));
    FrameOutcome(on, peer, frame);
    if Answered(frame[4..]) {
      AnsweredRequestGetsItsAnswer(on, q, frame[4..]);
    }
  }

  /** A request packet gives way to the packet of its answer. */
  function WithAnswer(s: System, p: Packet, reply: Buffer): System
    requires |reply| >= 4
  {
    s.(wire := s.wire - multiset{p} + multiset{Packet(p.origin, true, reply)},
       answers := s.answers[p.origin := reply[4..]])
  }

  lemma WithAnswerRouted(s: System, p: Packet, reply: Buffer)
    requires Routed(s) && p in s.wire && !Malformed(reply)
    ensures Routed(WithAnswer(s, p, reply))
  {
    var t := WithAnswer(s, p, reply);
    assert PacketRouted(s, p);
    assert p.origin !in s.delivered;
    forall r | r in t.wire ensures PacketRouted(t, r) {
      if r in s.wire {
        assert PacketRouted(s, r);
        assert r.origin == p.origin ==> r == p;
      }
    }
  }

  lemma WithAnswerMeaningful(on: Platform, s: System, p: Packet, reply: Buffer)
    requires Meaningful(on, s) && p.origin < |s.questions| && |reply| >= 4
             && IsAnswerTo(s.questions[p.origin], reply[4..])
    ensures Meaningful(on, WithAnswer(s, p, reply))
  {
  }

  lemma ServeStep(on: Platform, s: System, p: Packet, peer: Actor)
    requires p.origin < |s.questions| && IsFrameOf(on, s.questions[p.origin], p.frame)
             && peer.alive && OwnsItsFlows(peer)
    ensures var verdict := ActorStep(on, peer, ReceiveMsg(p.frame)).verdict;
            if verdict.Replied? then
              && !Malformed(verdict.reply) && IsAnswerTo(s.questions[p.origin], verdict.reply[4..])
              && ServeNext(on, s, p, peer) == WithAnswer(s, p, verdict.reply)
            else ServeNext(on, s, p, peer) == s.(wire := s.wire - multiset{p})
  {
    ServedReplyIsTheAnswer(on, s.questions[p.origin], p.frame, peer);
  }

  lemma ServeKeepsSound(on: Platform, s: System, p: Packet, peer: Actor)
    requires Sound(on, s) && p in s.wire && !p.isReply && peer.alive && OwnsItsFlows(peer)
    ensures Sound(on, ServeNext(on, s, p, peer))
  {
    assert PacketRouted(s, p);
    assert IsFrameOf(on, s.questions[p.origin], s.frames[p.origin]);
    ServeStep(on, s, p, peer);
    var verdict := ActorStep(on, peer, ReceiveMsg(p.frame)).verdict;
    if verdict.Replied? {
      WithAnswerRouted(s, p, verdict.reply);
      WithAnswerMeaningful(on, s, p, verdict.reply);
    } else {
      DropKeepsRouted(s, p);
      SameMeaning(on, s, s.(wire := s.wire - multiset{p}));
    }
  }

  // ----- losing, delivering, intruding -----

  lemma DropKeepsRouted(s: System, p: Packet)
    requires Routed(s) && p in s.wire
    ensures Routed(s.(wire := s.wire - multiset{p}))
  {
    var t := s.(wire := s.wire - multiset{p});
    forall r | r in t.wire ensures PacketRouted(t, r) {
      assert PacketRouted(s, r);
    }
  }

  /** Meaning depends on the registered flows and the history of requests and answers alone. */
  lemma SameMeaning(on: Platform, s: System, t: System)
    requires Meaningful(on, s)
    requires t.actor.flows.registered == s.actor.flows.registered
    requires t.questions == s.questions && t.frames == s.frames && t.answers == s.answers
    ensures Meaningful(on, t)
  {
  }

  /** The reply to a pending request completes that request's flow. */
  lemma AnswerCompletesItsOwnFlow(flows: FlowState, i: nat, recv: MsgFlowTag)
    requires Conserved(flows) && DistinctKeys(flows.pending)
    requires i < |flows.registered| && i !in flows.completed && recv == ReplyTag(flows.registered[i])
    ensures var at := FirstMatch(flows.pending, recv);
            at < |flows.pending| && flows.pending[at].responder == i
  {
    UnfinishedContains(flows.registered, flows.completed, i);
    var j :| 0 <= j < |flows.pending| && flows.pending[j] == Flow(flows.registered[i], i);
    ReorderingIsSafeIffKeysDiffer(flows.pending);
    assert ReachesItself(flows.pending, j, ReplyTag(flows.pending[j].tag));
  }

  /** The system after a responder completes with the payload of a packet. */
  function WithDelivery(s: System, p: Packet, responder: nat): System
    requires |p.frame| >= 4
  {
    s.(actor := s.actor.(flows := ArriveFlow(s.actor.flows, CreateTag(p.frame[4..]))),
       wire := s.wire - multiset{p}, delivered := s.delivered[responder := p.frame[4..]])
  }

  lemma ReplyTagRecognised(on: Platform, s: System, p: Packet)
    requires Sound(on, s) && p in s.wire && p.isReply
    ensures p.origin < |s.questions| && !Malformed(p.frame)
    ensures CreateTag(p.frame[4..]) == ReplyTag(s.actor.flows.registered[p.origin])
  {
    assert PacketRouted(s, p);
    AnswerTag(s.questions[p.origin], s.answers[p.origin]);
  }

  /** Delivering a reply completes the first flow it matches, whichever request it answers. */
  lemma DeliverStep(on: Platform, s: System, p: Packet)
    requires s.actor.alive && !Malformed(p.frame)
    requires FirstMatch(s.actor.flows.pending, CreateTag(p.frame[4..])) < |s.actor.flows.pending|
    ensures Next(on, s, Deliver(p))
         == WithDelivery(s, p,
                          s.actor.flows.pending[FirstMatch(s.actor.flows.pending, CreateTag(p.frame[4..]))].responder)
  {
  }

  lemma WithDeliveryRouted(s: System, p: Packet)
    requires Routed(s) && p in s.wire && p.isReply && |p.frame| >= 4
    requires var at := FirstMatch(s.actor.flows.pending, CreateTag(p.frame[4..]));
             at < |s.actor.flows.pending| && s.actor.flows.pending[at].responder == p.origin
    ensures Routed(WithDelivery(s, p, p.origin))
  {
    var recv := CreateTag(p.frame[4..]);
    var t := WithDelivery(s, p, p.origin);
    StepConserves(s.actor.flows, Arrive(recv));
    RemovalKeepsDistinctKeys(s.actor.flows.pending, FirstMatch(s.actor.flows.pending, recv));
    assert PacketRouted(s, p);
    assert t.actor.flows.completed == s.actor.flows.completed + [p.origin];
    forall r | r in t.wire ensures PacketRouted(t, r) {
      assert PacketRouted(s, r);
      assert r != p && r.origin != p.origin;
    }
  }

  lemma RemovalKeepsDistinctKeys(flows: seq<Flow>, i: nat)
    requires DistinctKeys(flows) && i < |flows|
    ensures DistinctKeys(RemoveAt(flows, i))
  {
  }

  /** The reply to a pending request completes that request, whatever else is pending. */
  lemma ReplyFindsItsFlow(on: Platform, s: System, p: Packet)
    requires Sound(on, s) && p in s.wire && p.isReply
    ensures !Malformed(p.frame)
    ensures var at := FirstMatch(s.actor.flows.pending, CreateTag(p.frame[4..]));
            at < |s.actor.flows.pending| && s.actor.flows.pending[at].responder == p.origin
  {
    assert PacketRouted(s, p);
    ReplyTagRecognised(on, s, p);
    AnswerCompletesItsOwnFlow(s.actor.flows, p.origin, CreateTag(p.frame[4..]));
  }

  lemma LostOnADeadActor(on: Platform, s: System, p: Packet)
    requires !s.actor.alive
    ensures Next(on, s, Deliver(p)) == s.(wire := s.wire - multiset{p})
  {
  }

  lemma DeliverKeepsSound(on: Platform, s: System, p: Packet)
    requires Sound(on, s) && p in s.wire && p.isReply
    ensures Sound(on, Next(on, s, Deliver(p)))
  {
    if s.actor.alive {
      ReplyFindsItsFlow(on, s, p);
      DeliverStep(on, s, p);
      WithDeliveryRouted(s, p);
      SameMeaning(on, s, WithDelivery(s, p, p.origin));
    } else {
      LostOnADeadActor(on, s, p);
      DropKeepsRouted(s, p);
      SameMeaning(on, s, s.(wire := s.wire - multiset{p}));
    }
  }

  lemma AllRequestsOwnTheirTag(on: Platform, s: System)
    requires Sound(on, s)
    ensures OwnsItsFlows(s.actor)
  {
    var flows := s.actor.flows;
    forall j | 0 <= j < |flows.pending| ensures flows.pending[j].tag.tagOwner {
      UnfinishedFlow(flows.registered, flows.completed, j);
    }
  }

  lemma IntrudeStep(on: Platform, s: System, frame: Buffer)
    requires OwnsItsFlows(s.actor) && !Malformed(frame) && CreateTag(frame[4..]).tagOwner
    ensures var t := TakeFrame(on, s, frame);
            t == s.(actor := t.actor) && t.actor.flows == s.actor.flows
  {
    OwnedFramesCompleteNothing(s.actor.flows.pending, CreateTag(frame[4..]));
  }

  lemma RoutedWhateverEndpoint(s: System, actor: Actor)
    requires Routed(s) && actor.flows == s.actor.flows
    ensures Routed(s.(actor := actor))
  {
    forall p | p in s.wire ensures PacketRouted(s.(actor := actor), p) {
      assert PacketRouted(s, p);
    }
  }

  lemma IntrudeKeepsSound(on: Platform, s: System, frame: Buffer)
    requires Sound(on, s) && !Malformed(frame) && CreateTag(frame[4..]).tagOwner
    ensures Sound(on, TakeFrame(on, s, frame))
  {
    AllRequestsOwnTheirTag(on, s);
    IntrudeStep(on, s, frame);
    RoutedWhateverEndpoint(s, TakeFrame(on, s, frame).actor);
    SameMeaning(on, s, TakeFrame(on, s, frame));
  }

  // ----- every run -----

  predicate Initial(s: System) {
    && s.actor.flows == NO_FLOWS && s.questions == [] && s.frames == []
    && s.wire == multiset{} && s.answers == map[] && s.delivered == map[]
  }

  function Exec(on: Platform, s: System, moves: seq<Move>): System
    decreases |moves|
  {
    if moves == [] then s else Exec(on, Next(on, s, moves[0]), moves[1..])
  }

  predicate Allowed(on: Platform, s: System, moves: seq<Move>)
    decreases |moves|
  {
    moves == [] || (Enabled(on, s, moves[0]) && Allowed(on, Next(on, s, moves[0]), moves[1..]))
  }

  /** No request is sent while one with the same key is outstanding. */
  predicate NeverCollides(on: Platform, s: System, moves: seq<Move>)
    decreases |moves|
  {
    moves == [] || ((moves[0].Ask? ==> !Collides(s, Asked(s, moves[0])))
                   && NeverCollides(on, Next(on, s, moves[0]), moves[1..]))
  }

  /** The new request and every outstanding one lie within `w` consecutive allocations. */
  predicate WindowOpen(s: System, w: nat) {
    forall j :: 0 <= j < |s.actor.flows.pending| ==> |s.questions| < s.actor.flows.pending[j].responder + w
  }

  predicate Windowed(on: Platform, s: System, moves: seq<Move>, w: nat)
    decreases |moves|
  {
    moves == [] || ((moves[0].Ask? ==> WindowOpen(s, w)) && Windowed(on, Next(on, s, moves[0]), moves[1..], w))
  }

  /** A run over a channel that reorders and loses but never duplicates. */
  predicate Faithful(on: Platform, s: System, moves: seq<Move>) {
    Allowed(on, s, moves) && forall i :: 0 <= i < |moves| ==> !moves[i].Duplicate?
  }

  lemma NextKeepsSound(on: Platform, s: System, m: Move)
    requires Sound(on, s) && Enabled(on, s, m) && !m.Duplicate? && (m.Ask? ==> !Collides(s, Asked(s, m)))
    ensures Sound(on, Next(on, s, m))
  {
    match m {
      case Ask(_, _, _, _) => AskKeepsSound(on, s, Asked(s, m));
      case Serve(p, peer) => ServeKeepsSound(on, s, p, peer);
      case Lose(p) =>
        DropKeepsRouted(s, p);
        SameMeaning(on, s, s.(wire := s.wire - multiset{p}));
      case Deliver(p) => DeliverKeepsSound(on, s, p);
      case Intrude(frame) => IntrudeKeepsSound(on, s, frame);
      case Duplicate(_) =>
    }
  }

  lemma {:induction false} ExecKeepsSound(on: Platform, s: System, moves: seq<Move>)
    requires Sound(on, s) && Faithful(on, s, moves) && NeverCollides(on, s, moves)
    ensures Sound(on, Exec(on, s, moves))
    decreases |moves|
  {
    if moves != [] {
      NextKeepsSound(on, s, moves[0]);
      ExecKeepsSound(on, Next(on, s, moves[0]), moves[1..]);
    }
  }

  /** Each responder that completed got the payload computed for its own request, which reads as the reply
      to that request: same tag, instance id and command. */
  predicate Correlated(s: System) {
    forall i :: i in s.delivered ==>
      i < |s.questions| && i in s.answers && s.delivered[i] == s.answers[i]
      && IsAnswerTo(s.questions[i], s.delivered[i])
  }

  lemma SoundIsCorrelated(on: Platform, s: System)
    requires Sound(on, s)
    ensures Correlated(s)
  {
  }

  /** Under any reordering and loss without duplicates, as long as no two outstanding requests share a key. */
  lemma RepliesReachTheirRequests(on: Platform, s: System, moves: seq<Move>)
    requires Initial(s) && Faithful(on, s, moves) && NeverCollides(on, s, moves)
    ensures Correlated(Exec(on, s, moves))
  {
    ExecKeepsSound(on, s, moves);
    SoundIsCorrelated(on, Exec(on, s, moves));
  }

  // ----- the window of eight -----

  predicate TagsCounted(t0: Byte, s: System) {
    && s.tagCounter == CounterAfter(t0, |s.questions|)
    && forall i :: 0 <= i < |s.questions| ==> s.questions[i].tagCounter == CounterAfter(t0, i)
  }

  lemma NextKeepsTagsCounted(on: Platform, t0: Byte, s: System, m: Move)
    requires TagsCounted(t0, s)
    ensures TagsCounted(t0, Next(on, s, m))
  {
    if m.Ask? {
      AskKeepsTagsCounted(on, t0, s, Asked(s, m));
    }
  }

  lemma AskKeepsTagsCounted(on: Platform, t0: Byte, s: System, q: Question)
    requires TagsCounted(t0, s) && q.tagCounter == s.tagCounter
    ensures TagsCounted(t0, AskNext(on, s, q))
  {
  }

  lemma NearTagsDiffer(t0: Byte, r: nat, n: nat)
    requires r < n < r + 8
    ensures CounterAfter(t0, r) % 8 != CounterAfter(t0, n) % 8
  {
    CounterWraps(t0, r);
    CounterWraps(t0, n);
    LowBitsOfCounter(t0, r);
    LowBitsOfCounter(t0, n);
    SameResidue8(t0 + r, t0 + n);
  }

  /** Within eight consecutive allocations the three tag bits tell all requests apart. */
  lemma WindowExcludesCollision(on: Platform, t0: Byte, s: System, q: Question)
    requires Sound(on, s) && TagsCounted(t0, s) && WindowOpen(s, 8) && q.tagCounter == s.tagCounter
    ensures !Collides(s, q)
  {
    var flows := s.actor.flows;
    forall j | 0 <= j < |flows.pending| ensures FlowKey(flows.pending[j].tag) != FlowKey(QuestionTag(q)) {
      UnfinishedFlow(flows.registered, flows.completed, j);
      NearTagsDiffer(t0, flows.pending[j].responder, |s.questions|);
    }
  }

  lemma {:induction false} WindowedNeverCollides(on: Platform, t0: Byte, s: System, moves: seq<Move>)
    requires Sound(on, s) && TagsCounted(t0, s) && Faithful(on, s, moves) && Windowed(on, s, moves, 8)
    ensures NeverCollides(on, s, moves)
    decreases |moves|
  {
    if moves != [] {
      if moves[0].Ask? {
        WindowExcludesCollision(on, t0, s, Asked(s, moves[0]));
      }
      NextKeepsSound(on, s, moves[0]);
      NextKeepsTagsCounted(on, t0, s, moves[0]);
      WindowedNeverCollides(on, t0, Next(on, s, moves[0]), moves[1..]);
    }
  }

  /** In every run over a channel that may reorder and lose but not duplicate frames, with any number of
      peers serving and other requests coming in between: if the requests outstanding at any time lie
      within eight consecutive tag allocations, every responder completes with the reply to its request. */
  lemma WindowOfEightIsSafe(on: Platform, s: System, moves: seq<Move>)
    requires Initial(s) && Faithful(on, s, moves) && Windowed(on, s, moves, 8)
    ensures Correlated(Exec(on, s, moves))
  {
    WindowedNeverCollides(on, s.tagCounter, s, moves);
    RepliesReachTheirRequests(on, s, moves);
  }

  /** The packet's request is open, and delivering the packet completes it with the packet's payload. */
  predicate CompletesItsRequest(on: Platform, t: System, p: Packet) {
    && p.origin !in t.delivered && |p.frame| >= 4
    && Next(on, t, Deliver(p)).delivered == t.delivered[p.origin := p.frame[4..]]
  }

  /** And no reply is wasted: at any point of such a run each reply in flight that reaches a live actor
      completes its own request, which had not completed before. */
  lemma EveryReplyCompletesItsRequest(on: Platform, s: System, moves: seq<Move>, p: Packet, t: System)
    requires Initial(s) && Faithful(on, s, moves) && Windowed(on, s, moves, 8) && t == Exec(on, s, moves)
    requires p in t.wire && p.isReply && t.actor.alive
    ensures CompletesItsRequest(on, t, p)
  {
    WindowedRunIsSound(on, s, moves, t);
    SoundDeliveryCompletes(on, t, p);
  }

  lemma InitialIsSound(on: Platform, s: System)
    requires Initial(s)
    ensures Sound(on, s) && TagsCounted(s.tagCounter, s)
  {
  }

  lemma WindowedRunIsSound(on: Platform, s: System, moves: seq<Move>, t: System)
    requires Initial(s) && Faithful(on, s, moves) && Windowed(on, s, moves, 8) && t == Exec(on, s, moves)
    ensures Sound(on, t)
  {
    InitialIsSound(on, s);
    SoundRunStaysSound(on, s, moves);
  }

  lemma SoundRunStaysSound(on: Platform, s: System, moves: seq<Move>)
    requires Sound(on, s) && TagsCounted(s.tagCounter, s) && Faithful(on, s, moves) && Windowed(on, s, moves, 8)
    ensures Sound(on, Exec(on, s, moves))
  {
    WindowedNeverCollides(on, s.tagCounter, s, moves);
    ExecKeepsSound(on, s, moves);
  }

  lemma SoundDeliveryCompletes(on: Platform, t: System, p: Packet)
    requires Sound(on, t) && p in t.wire && p.isReply && t.actor.alive
    ensures CompletesItsRequest(on, t, p)
  {
    assert PacketRouted(t, p);
    ReplyFindsItsFlow(on, t, p);
    DeliverStep(on, t, p);
  }

  // ----- and both conditions are tight -----

  /** Two requests get the same key exactly if they go to the same endpoint and their allocations are a
      multiple of eight apart: the ninth request in a row to an endpoint collides with the first. */
  lemma SameKeyExactly(t0: Byte, p: Question, q: Question, i: nat, j: nat)
    requires p.tagCounter == CounterAfter(t0, i) && q.tagCounter == CounterAfter(t0, j)
    ensures FlowKey(QuestionTag(p)) == FlowKey(QuestionTag(q)) <==> p.dst == q.dst && (j - i) % 8 == 0
  {
    CounterWraps(t0, i);
    CounterWraps(t0, j);
    LowBitsOfCounter(t0, i);
    LowBitsOfCounter(t0, j);
    SameResidue8(t0 + i, t0 + j);
  }

  const FRESH_PEER := Actor(NO_FLOWS, Endpoint(0, false), true)

  /** A peer without requests of its own answers the request and the answer is on the wire. */
  lemma AskedAndServed(on: Platform, s: System, q: Question)
    requires Routed(s) && s.actor.alive && BusOwnerFrame(on.build, QuestionBytes(q), on.pec).Some?
    requires Answered(BusOwnerFrame(on.build, QuestionBytes(q), on.pec).value[4..])
    ensures var frame := BusOwnerFrame(on.build, QuestionBytes(q), on.pec).value;
            var asked := Packet(|s.questions|, false, frame);
            var reply := ReplyFrame(on, frame[4..]);
            && !Malformed(reply) && IsAnswerTo(q, reply[4..])
            && AskNext(on, s, q) == WithRequest(s, q, frame)
            && ServeNext(on, WithRequest(s, q, frame), asked, FRESH_PEER)
               == WithAnswer(WithRequest(s, q, frame), asked, reply)
  {
    var frame := BusOwnerFrame(on.build, QuestionBytes(q), on.pec).value;
    AskStep(on, s, q);
    ServedReplyIsTheAnswer(on, q, frame, FRESH_PEER);
    FrameOfQuestion(on, q, frame);
    AnsweredRequestGetsItsAnswer(on, q, frame[4..]);
  }

  /** The answer to the last request completes the oldest pending flow of its key. */
  lemma AnswerGoesToTheOldest(s: System, q: Question, frame: Buffer, payload: Buffer)
    requires Routed(s) && Collides(s, q) && IsAnswerTo(q, payload)
    ensures var pending := WithRequest(s, q, frame).actor.flows.pending;
            var at := FirstMatch(pending, CreateTag(payload));
            at < |pending| && pending[at].responder < |s.questions|
  {
    AnswerTag(q, payload);
    var pending := WithRequest(s, q, frame).actor.flows.pending;
    var j :| 0 <= j < |s.actor.flows.pending| && FlowKey(s.actor.flows.pending[j].tag) == FlowKey(QuestionTag(q));
    assert Matches(pending[j].tag, CreateTag(payload));
    UnfinishedFlow(s.actor.flows.registered, s.actor.flows.completed, FirstMatch(pending, CreateTag(payload)));
  }

  /** The reply to request `n` has completed an older request; if their control headers differ, that
      responder holds a reply that is not its own. */
  predicate Misdelivered(t: System, n: nat) {
    exists r :: r < n < |t.questions| && r in t.delivered && n in t.answers && t.delivered[r] == t.answers[n]
                && (QuestionControlHeader(t.questions[r]) != QuestionControlHeader(t.questions[n]) ==> !Correlated(t))
  }

  predicate Misdelivers(on: Platform, s: System, moves: seq<Move>, n: nat) {
    Allowed(on, s, moves) && Misdelivered(Exec(on, s, moves), n)
  }

  lemma WrongAnswerIsMisdelivery(t: System, r: nat, n: nat)
    requires r < n < |t.questions| && r in t.delivered && n in t.answers && t.delivered[r] == t.answers[n]
    requires IsAnswerTo(t.questions[n], t.answers[n])
    ensures Misdelivered(t, n)
  {
    if QuestionControlHeader(t.questions[r]) != QuestionControlHeader(t.questions[n]) {
      assert !IsAnswerTo(t.questions[r], t.delivered[r]);
    }
  }

  lemma ExecThree(on: Platform, s: System, a: Move, b: Move, c: Move, s1: System, s2: System)
    requires s1 == Next(on, s, a) && s2 == Next(on, s1, b)
    requires Enabled(on, s, a) && Enabled(on, s1, b) && Enabled(on, s2, c)
    ensures Allowed(on, s, [a, b, c]) && Exec(on, s, [a, b, c]) == Next(on, s2, c)
  {
    assert [a, b, c][1..] == [b, c] && [b, c][1..] == [c] && [c][1..] == [];
    assert Exec(on, s2, [c]) == Next(on, s2, c);
    assert Exec(on, s1, [b, c]) == Exec(on, s2, [c]);
    assert Allowed(on, s2, [c]);
    assert Allowed(on, s1, [b, c]);
  }

  /** Without the condition the protocol fails: as soon as a request that peers answer is sent while one
      with the same key is outstanding, there is a continuation in which its reply goes to the older one. */
  lemma CollisionMisdelivers(on: Platform, s: System, m: Move)
    requires Sound(on, s) && m.Ask? && Enabled(on, s, m) && Collides(s, Asked(s, m))
    requires Answered(BusOwnerFrame(on.build, QuestionBytes(Asked(s, m)), on.pec).value[4..])
    ensures exists p, r :: Misdelivers(on, s, [m, Serve(p, FRESH_PEER), Deliver(r)], |s.questions|)
  {
    var q := Asked(s, m);
    var frame := BusOwnerFrame(on.build, QuestionBytes(q), on.pec).value;
    AskedAndServed(on, s, q);
    var s1 := WithRequest(s, q, frame);
    var asked, reply := Packet(|s.questions|, false, frame), ReplyFrame(on, frame[4..]);
    CollisionContinues(on, s, m, frame, reply, s1, WithAnswer(s1, asked, reply));
    var answer := Packet(|s.questions|, true, reply);
    assert Misdelivers(on, s, [m, Serve(asked, FRESH_PEER), Deliver(answer)], |s.questions|);
  }

  /** After the request and its service both packets have been on the wire and the list is unchanged. */
  lemma AnswerInFlight(s: System, q: Question, frame: Buffer, reply: Buffer)
    requires |reply| >= 4
    ensures var asked, answer := Packet(|s.questions|, false, frame), Packet(|s.questions|, true, reply);
            var s1 := WithRequest(s, q, frame);
            var s2 := WithAnswer(s1, asked, reply);
            && asked in s1.wire && answer in s2.wire && s2.actor == s1.actor && s2.questions == s.questions + [q]
            && s2.answers == s.answers[|s.questions| := reply[4..]]
  {
  }

  lemma CollisionContinues(on: Platform, s: System, m: Move, frame: Buffer, reply: Buffer, s1: System, s2: System)
    requires Routed(s) && m.Ask? && Enabled(on, s, m) && Collides(s, Asked(s, m))
    requires !Malformed(reply) && IsAnswerTo(Asked(s, m), reply[4..])
    requires s1 == WithRequest(s, Asked(s, m), frame)
             && s2 == WithAnswer(s1, Packet(|s.questions|, false, frame), reply)
    requires s1 == Next(on, s, m) && s2 == ServeNext(on, s1, Packet(|s.questions|, false, frame), FRESH_PEER)
    ensures var b, c := Serve(Packet(|s.questions|, false, frame), FRESH_PEER),
                        Deliver(Packet(|s.questions|, true, reply));
            Misdelivers(on, s, [m, b, c], |s.questions|)
  {
    AnswerGoesToTheOldest(s, Asked(s, m), frame, reply[4..]);
    AnswerInFlight(s, Asked(s, m), frame, reply);
    CollisionRun(on, s, m, s1, s2, Packet(|s.questions|, false, frame), Packet(|s.questions|, true, reply));
  }

  lemma CollisionRun(on: Platform, s: System, m: Move, s1: System, s2: System, asked: Packet, answer: Packet)
    requires m.Ask? && Enabled(on, s, m) && s1 == Next(on, s, m) && s2 == ServeNext(on, s1, asked, FRESH_PEER)
    requires asked in s1.wire && !asked.isReply && answer in s2.wire && answer.isReply && !Malformed(answer.frame)
    requires s2.actor.alive
    requires var pending := s2.actor.flows.pending;
             var at := FirstMatch(pending, CreateTag(answer.frame[4..]));
             at < |pending| && pending[at].responder < answer.origin
    requires answer.origin < |s2.questions| && answer.origin in s2.answers
             && s2.answers[answer.origin] == answer.frame[4..]
    requires IsAnswerTo(s2.questions[answer.origin], answer.frame[4..])
    ensures var b, c := Serve(asked, FRESH_PEER), Deliver(answer);
            Misdelivers(on, s, [m, b, c], answer.origin)
  {
    ExecThree(on, s, m, Serve(asked, FRESH_PEER), Deliver(answer), s1, s2);
    DeliverStep(on, s2, answer);
    var r := s2.actor.flows.pending[FirstMatch(s2.actor.flows.pending, CreateTag(answer.frame[4..]))].responder;
    WrongAnswerIsMisdelivery(WithDelivery(s2, answer, r), r, answer.origin);
  }
}
