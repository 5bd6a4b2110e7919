/** The discovery loop behind its own transport actor: every request is registered as a flow, framed, served
    by an endpoint that keeps its state, and its reply has to find its way back through the list of pending
    flows, while other requests keep arriving. What the loop decodes is what was computed for its request. */
module Conversation {
  import opened Bytes
  import opened Enums
  import opened Headers
  import opened Smbus
  import opened Flows
  import opened Responder
  import opened Actors
  import opened Correlation
  import opened Agreement
  import Discovery

  /** A request of someone else, or any other frame with the owner bit set. */
  predicate Foreign(frame: Buffer) {
    !Malformed(frame) && CreateTag(frame[4..]).tagOwner
  }

  predicate AllForeign(noise: seq<Buffer>) {
    forall i :: 0 <= i < |noise| ==> Foreign(noise[i])
  }

  /** The requester's actor takes the frames that arrive while the loop waits. */
  function Noisy(on: Platform, s: System, noise: seq<Buffer>): System
    decreases |noise|
  {
    if noise == [] then s else Noisy(on, TakeFrame(on, s, noise[0]), noise[1..])
  }

  lemma {:induction false} NoiseKeepsSound(on: Platform, s: System, noise: seq<Buffer>)
    requires Sound(on, s) && AllForeign(noise)
    ensures var t := Noisy(on, s, noise);
            && Sound(on, t) && t == s.(actor := t.actor) && t.actor.flows == s.actor.flows
            && (t.actor.alive ==> s.actor.alive)
    decreases |noise|
  {
    if noise != [] {
      AllRequestsOwnTheirTag(on, s);
      IntrudeStep(on, s, noise[0]);
      IntrudeKeepsSound(on, s, noise[0]);
      StepCounts(on, s.actor, ReceiveMsg(noise[0]));
      NoiseKeepsSound(on, TakeFrame(on, s, noise[0]), noise[1..]);
    }
  }

  // ----- one exchange -----

  function AskOf(r: Discovery.Request): Move {
    var q := AsQuestion(r);
    Ask(q.src, q.dst, q.command, q.body)
  }

  /** What an exchange leaves behind, and the bytes that the loop's responder completed with, if it did. */
  datatype Heard = Heard(sys: System, peer: Actor, reply: Option<Buffer>)

  /** The request goes through the requester's actor, the wire and the peer, and so does the reply. */
  function Hear(on: Platform, s: System, peer: Actor, r: Discovery.Request, fate: Fate, noise: seq<Buffer>): Heard {
    if !Enabled(on, s, AskOf(r)) then Heard(s, peer, None)
    else
      var s1 := Next(on, s, AskOf(r));
      var frame := BusOwnerFrame(on.build, QuestionBytes(Asked(s, AskOf(r))), on.pec).value;
      var asked := Packet(|s.questions|, false, frame);
      if fate.RequestLost? then Heard(Noisy(on, Next(on, s1, Lose(asked)), noise), peer, None)
      else
        var step := ActorStep(on, peer, ReceiveMsg(frame));
        var s2 := Noisy(on, Next(on, s1, Serve(asked, peer)), noise);
        if !step.verdict.Replied? then Heard(s2, step.actor, None)
        else
          var answer := Packet(|s.questions|, true, step.verdict.reply);
          if fate.ReplyLost? then Heard(Next(on, s2, Lose(answer)), step.actor, None)
          else
            var s3 := Next(on, s2, Deliver(answer));
            Heard(s3, step.actor, if |s.questions| in s3.delivered then Some(s3.delivered[|s.questions|]) else None)
  }

  /** The state in which the reply arrives. */
  function Waiting(on: Platform, s: System, peer: Actor, r: Discovery.Request, noise: seq<Buffer>): System
    requires Enabled(on, s, AskOf(r))
  {
    var frame := BusOwnerFrame(on.build, QuestionBytes(Asked(s, AskOf(r))), on.pec).value;
    Noisy(on, Next(on, Next(on, s, AskOf(r)), Serve(Packet(|s.questions|, false, frame), peer)), noise)
  }

  /** An actor that has panicked sends no request and hears no reply. */
  function Effective(on: Platform, s: System, peer: Actor, r: Discovery.Request, fate: Fate, noise: seq<Buffer>): Fate {
    if !Enabled(on, s, AskOf(r)) then RequestLost
    else if fate.Delivered? && !Waiting(on, s, peer, r, noise).actor.alive then ReplyLost
    else fate
  }

  /** Nothing is outstanding and the next request takes these counters. */
  predicate Idle(s: System, tagCounter: Byte, instanceCounter: Byte) {
    s.actor.flows.pending == [] && s.tagCounter == tagCounter && s.instanceCounter == instanceCounter
  }

  lemma RequestGoesOut(on: Platform, s: System, r: Discovery.Request, frame: Buffer)
    requires Sound(on, s) && Idle(s, r.tagCounter, r.instanceCounter) && Enabled(on, s, AskOf(r))
    requires IsFrameOf(on, AsQuestion(r), frame)
    ensures Asked(s, AskOf(r)) == AsQuestion(r)
    ensures Next(on, s, AskOf(r)) == WithRequest(s, AsQuestion(r), frame)
    ensures Sound(on, Next(on, s, AskOf(r)))
  {
    AskStep(on, s, AsQuestion(r));
    NextKeepsSound(on, s, AskOf(r));
  }

  lemma RequestIsFramed(on: Platform, r: Discovery.Request)
    ensures BusOwnerFrame(on.build, QuestionBytes(AsQuestion(r)), on.pec).Some?
    ensures QuestionBytes(AsQuestion(r)) == Discovery.RequestBytes(r) && !AsQuestion(r).command.Unknown?
  {
    DiscoveryRequestsAreQuestions(r);
    LoopRequestLength(r);
    BusOwnerFrameReadBack(on.build, QuestionBytes(AsQuestion(r)), on.pec);
  }

  /** The peer's answer is on the wire, whatever else arrives at the requester. */
  lemma AnswerWaits(on: Platform, s1: System, peer: Actor, asked: Packet, noise: seq<Buffer>)
    requires Sound(on, s1) && asked in s1.wire && !asked.isReply && Responsive(peer) && AllForeign(noise)
    requires ActorStep(on, peer, ReceiveMsg(asked.frame)).verdict.Replied?
    requires |ActorStep(on, peer, ReceiveMsg(asked.frame)).verdict.reply| >= 4
    ensures var s2 := Noisy(on, Next(on, s1, Serve(asked, peer)), noise);
            && Sound(on, s2) && s2.actor.flows == s1.actor.flows && s2.questions == s1.questions
            && s2.tagCounter == s1.tagCounter && s2.instanceCounter == s1.instanceCounter
            && Packet(asked.origin, true, ActorStep(on, peer, ReceiveMsg(asked.frame)).verdict.reply) in s2.wire
  {
    ServeKeepsSound(on, s1, asked, peer);
    NoiseKeepsSound(on, Next(on, s1, Serve(asked, peer)), noise);
  }

  lemma ReplyCompletes(on: Platform, s: System, answer: Packet)
    requires Sound(on, s) && answer in s.wire && answer.isReply && |s.actor.flows.pending| == 1 && s.actor.alive
    ensures var t := Next(on, s, Deliver(answer));
            && |answer.frame| >= 4 && answer.origin in t.delivered
            && t.delivered[answer.origin] == answer.frame[4..] && t.actor.flows.pending == []
            && t.tagCounter == s.tagCounter && t.instanceCounter == s.instanceCounter
  {
    ReplyFindsItsFlow(on, s, answer);
    DeliverStep(on, s, answer);
  }

  lemma ReplyToTheDead(on: Platform, s: System, answer: Packet)
    requires Sound(on, s) && answer in s.wire && answer.isReply && !s.actor.alive
    ensures answer.origin !in Next(on, s, Deliver(answer)).delivered
  {
    assert PacketRouted(s, answer);
    LostOnADeadActor(on, s, answer);
  }

  /** The reply to the only request outstanding completes it, if the requester lives. */
  lemma ReplyIsHeard(on: Platform, s: System, answer: Packet)
    requires Sound(on, s) && answer in s.wire && answer.isReply && |s.actor.flows.pending| == 1
    ensures var t := Next(on, s, Deliver(answer));
            && Sound(on, t)
            && (s.actor.alive ==> |answer.frame| >= 4 && answer.origin in t.delivered
                                  && t.delivered[answer.origin] == answer.frame[4..]
                                  && Idle(t, s.tagCounter, s.instanceCounter))
            && (!s.actor.alive ==> answer.origin !in t.delivered)
  {
    DeliverKeepsSound(on, s, answer);
    if s.actor.alive {
      ReplyCompletes(on, s, answer);
    } else {
      ReplyToTheDead(on, s, answer);
    }
  }

  /** The peer's step on the frame of a request of the loop. */
  lemma StepIsService(on: Platform, peer: Actor, r: Discovery.Request, frame: Buffer)
    requires Responsive(peer) && IsFrameOf(on, AsQuestion(r), frame)
    ensures var step := ActorStep(on, peer, ReceiveMsg(frame));
            && step.verdict.Replied? && |step.verdict.reply| >= 4
            && ServeRequest(on, peer, r) == Served(step.actor, Some(step.verdict.reply[4..]))
  {
    DiscoveryRequestsAreQuestions(r);
    RequestIsServed(on, peer, r);
  }

  /** The state of the wire right after a request went out. */
  lemma RequestIsUnderWay(s: System, q: Question, frame: Buffer)
    requires s.actor.flows.pending == []
    ensures var s1 := WithRequest(s, q, frame);
            && Packet(|s.questions|, false, frame) in s1.wire && |s1.actor.flows.pending| == 1
            && s1.actor.alive == s.actor.alive
            && s1.tagCounter == Increment(s.tagCounter) && s1.instanceCounter == Increment(s.instanceCounter)
  {
  }

  lemma LostRequestHeard(on: Platform, s: System, peer: Actor, r: Discovery.Request, noise: seq<Buffer>)
    requires Sound(on, s) && Idle(s, r.tagCounter, r.instanceCounter) && AllForeign(noise)
    requires Enabled(on, s, AskOf(r))
    ensures var h := Hear(on, s, peer, r, RequestLost, noise);
            Sound(on, h.sys) && h.peer == peer && h.reply == None
  {
    RequestIsFramed(on, r);
    var frame := BusOwnerFrame(on.build, QuestionBytes(AsQuestion(r)), on.pec).value;
    RequestGoesOut(on, s, r, frame);
    RequestIsUnderWay(s, AsQuestion(r), frame);
    var s1 := WithRequest(s, AsQuestion(r), frame);
    NextKeepsSound(on, s1, Lose(Packet(|s.questions|, false, frame)));
    NoiseKeepsSound(on, Next(on, s1, Lose(Packet(|s.questions|, false, frame))), noise);
  }

  /** What the requester is left with while the reply is on its way. */
  lemma ReplyIsUnderWay(on: Platform, s: System, peer: Actor, r: Discovery.Request, noise: seq<Buffer>, answer: Packet)
    requires Sound(on, s) && Idle(s, r.tagCounter, r.instanceCounter) && AllForeign(noise) && Responsive(peer)
    requires Enabled(on, s, AskOf(r))
    requires var frame := BusOwnerFrame(on.build, QuestionBytes(AsQuestion(r)), on.pec).value;
             var step := ActorStep(on, peer, ReceiveMsg(frame));
             step.verdict.Replied? && answer == Packet(|s.questions|, true, step.verdict.reply)
    ensures var s2 := Waiting(on, s, peer, r, noise);
            && Sound(on, s2) && answer in s2.wire && |s2.actor.flows.pending| == 1
            && s2.tagCounter == Increment(s.tagCounter) && s2.instanceCounter == Increment(s.instanceCounter)
  {
    RequestIsFramed(on, r);
    var frame := BusOwnerFrame(on.build, QuestionBytes(AsQuestion(r)), on.pec).value;
    RequestGoesOut(on, s, r, frame);
    RequestIsUnderWay(s, AsQuestion(r), frame);
    StepIsService(on, peer, r, frame);
    AnswerWaits(on, WithRequest(s, AsQuestion(r), frame), peer, Packet(|s.questions|, false, frame), noise);
  }

  /** How an exchange ends once the peer has answered. */
  lemma HearServed(on: Platform, s: System, peer: Actor, r: Discovery.Request, fate: Fate, noise: seq<Buffer>,
                   step: Step, answer: Packet, s2: System)
    requires Enabled(on, s, AskOf(r)) && !fate.RequestLost? && step.verdict.Replied?
    requires var frame := BusOwnerFrame(on.build, QuestionBytes(Asked(s, AskOf(r))), on.pec).value;
             step == ActorStep(on, peer, ReceiveMsg(frame))
    requires answer == Packet(|s.questions|, true, step.verdict.reply) && s2 == Waiting(on, s, peer, r, noise)
    ensures var h := Hear(on, s, peer, r, fate, noise);
            && h.peer == step.actor
            && h.sys == (if fate.ReplyLost? then Next(on, s2, Lose(answer)) else Next(on, s2, Deliver(answer)))
            && h.reply == (if fate.Delivered? && answer.origin in h.sys.delivered
                           then Some(h.sys.delivered[answer.origin]) else None)
  {
  }

  lemma ServedRequestHeard(on: Platform, s: System, peer: Actor, r: Discovery.Request, fate: Fate, noise: seq<Buffer>)
    requires Sound(on, s) && Idle(s, r.tagCounter, r.instanceCounter) && AllForeign(noise) && Responsive(peer)
    requires Enabled(on, s, AskOf(r)) && !fate.RequestLost?
    ensures var h, served := Hear(on, s, peer, r, fate, noise), ServeRequest(on, peer, r);
            && Sound(on, h.sys) && h.peer == served.peer
            && h.reply == (if fate.Delivered? && Waiting(on, s, peer, r, noise).actor.alive then served.reply else None)
            && (h.reply.Some? ==> Idle(h.sys, Increment(r.tagCounter), Increment(r.instanceCounter)))
  {
    RequestIsFramed(on, r);
    assert Asked(s, AskOf(r)) == AsQuestion(r);
    var frame := BusOwnerFrame(on.build, QuestionBytes(AsQuestion(r)), on.pec).value;
    StepIsService(on, peer, r, frame);
    var step := ActorStep(on, peer, ReceiveMsg(frame));
    var answer := Packet(|s.questions|, true, step.verdict.reply);
    var s2 := Waiting(on, s, peer, r, noise);
    ReplyIsUnderWay(on, s, peer, r, noise, answer);
    HearServed(on, s, peer, r, fate, noise, step, answer, s2);
    if fate.Delivered? {
      ReplyIsHeard(on, s2, answer);
    } else {
      NextKeepsSound(on, s2, Lose(answer));
    }
  }

  /** One exchange of an idle requester: whatever foreign frames arrive meanwhile, what its responder
      completes with is the answer that the peer computed for this very request, and nothing else. */
  lemma HeardIsTheAnswer(on: Platform, s: System, peer: Actor, r: Discovery.Request, fate: Fate, noise: seq<Buffer>)
    requires Sound(on, s) && Idle(s, r.tagCounter, r.instanceCounter) && AllForeign(noise) && Responsive(peer)
    ensures var h := Hear(on, s, peer, r, fate, noise);
            var e := Exchanged(on, peer, r, Effective(on, s, peer, r, fate, noise));
            && Sound(on, h.sys) && h.peer == e.peer && h.reply == e.reply
            && (h.reply.Some? ==> Idle(h.sys, Increment(r.tagCounter), Increment(r.instanceCounter)))
  {
    if Enabled(on, s, AskOf(r)) {
      if fate.RequestLost? {
        LostRequestHeard(on, s, peer, r, noise);
      } else {
        ServedRequestHeard(on, s, peer, r, fate, noise);
      }
    }
  }

  // ----- the loop over the wire -----

  /** A round with one of the peers, and the foreign frames that arrive during each exchange. */
  datatype WireRound = WireRound(peer: nat, getFate: Fate, getNoise: seq<Buffer>,
                                 assignFate: Fate, assignNoise: seq<Buffer>)

  datatype Wired = Wired(loop: Discovery.Loop, peers: seq<Actor>, offers: seq<Option<nat>>, sys: System)

  /** Requests carry the EID that the requester's endpoint has at that moment. */
  function GetOverWire(on: Platform, w: Wired, round: WireRound): Heard
    requires round.peer < |w.peers|
  {
    Hear(on, w.sys, w.peers[round.peer], GetRequest(w.loop, SourcesOnly(w.sys, w.sys)), round.getFate, round.getNoise)
  }

  /** No assignment is sent before the question is answered. */
  function AssignOverWire(on: Platform, w: Wired, round: WireRound): Heard
    requires round.peer < |w.peers|
  {
    var g := GetOverWire(on, w, round);
    if g.reply.None? then Heard(g.sys, g.peer, None)
    else Hear(on, g.sys, g.peer, AssignRequest(w.loop, SourcesOnly(w.sys, g.sys)), round.assignFate, round.assignNoise)
  }

  function SourcesOnly(atGet: System, atAssign: System): Round {
    Round(0, atGet.actor.endpoint.assignedEid, Delivered, atAssign.actor.endpoint.assignedEid, Delivered)
  }

  function WireInput(on: Platform, w: Wired, round: WireRound): Discovery.PollInput
    requires round.peer < |w.peers|
  {
    var g, a := GetOverWire(on, w, round), AssignOverWire(on, w, round);
    Discovery.PollInput(true, Discovery.Exchange(w.sys.actor.endpoint.assignedEid, g.reply),
                        Discovery.Exchange(g.sys.actor.endpoint.assignedEid, a.reply),
                        Discovery.Exchange(0, None))
  }

  function WireStep(on: Platform, w: Wired, round: WireRound): Wired
    requires round.peer < |w.peers|
  {
    if !w.loop.status.Running? then w
    else
      var g, a := GetOverWire(on, w, round), AssignOverWire(on, w, round);
      var after := Discovery.PollStep(on.build, w.loop, WireInput(on, w, round), 0);
      if |after.sent| < |w.loop.sent| + 2
      then Wired(after, w.peers[round.peer := g.peer], w.offers, g.sys)
      else Wired(after, w.peers[round.peer := a.peer],
                 w.offers + [if AsRound(on, w, round).assignFate.RequestLost? then None else Some(round.peer)], a.sys)
  }

  /** The same round as the loop sees it, without the wire. */
  function AsRound(on: Platform, w: Wired, round: WireRound): (seen: Round)
    requires round.peer < |w.peers|
    ensures seen.peer == round.peer
  {
    var g := GetOverWire(on, w, round);
    var sources := SourcesOnly(w.sys, g.sys);
    Round(round.peer,
          sources.getSrc,
          Effective(on, w.sys, w.peers[round.peer], GetRequest(w.loop, sources), round.getFate, round.getNoise),
          sources.assignSrc,
          if g.reply.None? then RequestLost
          else Effective(on, g.sys, g.peer, AssignRequest(w.loop, sources), round.assignFate, round.assignNoise))
  }

  function Seen(w: Wired): World {
    World(w.loop, w.peers, w.offers)
  }

  predicate AllResponsive(peers: seq<Actor>) {
    forall k :: 0 <= k < |peers| ==> Responsive(peers[k])
  }

  /** While the loop runs nothing is outstanding, and the two counters of its state are the requester's. */
  predicate Ready(on: Platform, w: Wired) {
    && Sound(on, w.sys) && AllResponsive(w.peers)
    && (w.loop.status.Running? ==> Idle(w.sys, w.loop.tagCounter, w.loop.instanceCounter))
  }

  predicate ForeignRound(round: WireRound) {
    AllForeign(round.getNoise) && AllForeign(round.assignNoise)
  }

  /** The exchange seen from the peer: what it computes, and that it stays responsive. */
  lemma HeardFromPeer(on: Platform, s: System, peer: Actor, r: Discovery.Request, fate: Fate, noise: seq<Buffer>)
    requires Sound(on, s) && Idle(s, r.tagCounter, r.instanceCounter) && AllForeign(noise) && Responsive(peer)
    ensures var h := Hear(on, s, peer, r, fate, noise);
            && Served(h.peer, h.reply) == Exchanged(on, peer, r, Effective(on, s, peer, r, fate, noise))
            && Responsive(h.peer) && (r.op.AskEid? ==> h.peer == peer)
            && (h.reply.Some? ==> Idle(h.sys, Increment(r.tagCounter), Increment(r.instanceCounter)))
  {
    HeardIsTheAnswer(on, s, peer, r, fate, noise);
    RequestIsServed(on, peer, r);
  }

  lemma HeardKeepsSound(on: Platform, s: System, peer: Actor, r: Discovery.Request, fate: Fate, noise: seq<Buffer>)
    requires Sound(on, s) && Idle(s, r.tagCounter, r.instanceCounter) && AllForeign(noise) && Responsive(peer)
    ensures Sound(on, Hear(on, s, peer, r, fate, noise).sys)
  {
    HeardIsTheAnswer(on, s, peer, r, fate, noise);
  }

  lemma GetIsGot(on: Platform, w: Wired, round: WireRound)
    requires Ready(on, w) && w.loop.status.Running? && round.peer < |w.peers| && ForeignRound(round)
    ensures var g := GetOverWire(on, w, round);
            && Served(g.peer, g.reply) == Got(on, Seen(w), AsRound(on, w, round))
            && g.peer == w.peers[round.peer] && Responsive(g.peer)
            && (g.reply.Some? ==> Idle(g.sys, Increment(w.loop.tagCounter), Increment(w.loop.instanceCounter)))
  {
    var r := GetRequest(w.loop, SourcesOnly(w.sys, w.sys));
    HeardFromPeer(on, w.sys, w.peers[round.peer], r, round.getFate, round.getNoise);
  }

  lemma GetKeepsSound(on: Platform, w: Wired, round: WireRound)
    requires Ready(on, w) && w.loop.status.Running? && round.peer < |w.peers| && ForeignRound(round)
    ensures Sound(on, GetOverWire(on, w, round).sys)
  {
    var r := GetRequest(w.loop, SourcesOnly(w.sys, w.sys));
    HeardKeepsSound(on, w.sys, w.peers[round.peer], r, round.getFate, round.getNoise);
  }

  /** The assignment, given how the question was heard. */
  lemma AssignAfter(on: Platform, w: Wired, round: WireRound, g: Heard, got: Served)
    requires round.peer < |w.peers| && ForeignRound(round) && g == GetOverWire(on, w, round)
    requires got == Got(on, Seen(w), AsRound(on, w, round)) == Served(g.peer, g.reply)
    requires Sound(on, g.sys) && Responsive(g.peer)
    requires g.reply.Some? ==> Idle(g.sys, Increment(w.loop.tagCounter), Increment(w.loop.instanceCounter))
    ensures var a := AssignOverWire(on, w, round);
            && Served(a.peer, a.reply) == Assigned(on, Seen(w), AsRound(on, w, round)) && Responsive(a.peer)
            && (a.reply.Some? ==>
                  Idle(a.sys, Increment(Increment(w.loop.tagCounter)), Increment(Increment(w.loop.instanceCounter))))
  {
    if g.reply.Some? {
      var r := AssignRequest(w.loop, SourcesOnly(w.sys, g.sys));
      HeardFromPeer(on, g.sys, g.peer, r, round.assignFate, round.assignNoise);
    }
  }

  lemma AssignIsAssigned(on: Platform, w: Wired, round: WireRound)
    requires Ready(on, w) && w.loop.status.Running? && round.peer < |w.peers| && ForeignRound(round)
    ensures var a := AssignOverWire(on, w, round);
            && Served(a.peer, a.reply) == Assigned(on, Seen(w), AsRound(on, w, round)) && Responsive(a.peer)
            && (a.reply.Some? ==>
                  Idle(a.sys, Increment(Increment(w.loop.tagCounter)), Increment(Increment(w.loop.instanceCounter))))
  {
    GetIsGot(on, w, round);
    GetKeepsSound(on, w, round);
    AssignAfter(on, w, round, GetOverWire(on, w, round), Got(on, Seen(w), AsRound(on, w, round)));
  }

  lemma AssignKeepsSound(on: Platform, w: Wired, round: WireRound)
    requires Ready(on, w) && w.loop.status.Running? && round.peer < |w.peers| && ForeignRound(round)
    ensures Sound(on, AssignOverWire(on, w, round).sys)
  {
    GetIsGot(on, w, round);
    GetKeepsSound(on, w, round);
    var g := GetOverWire(on, w, round);
    if g.reply.Some? {
      var r := AssignRequest(w.loop, SourcesOnly(w.sys, g.sys));
      HeardKeepsSound(on, g.sys, g.peer, r, round.assignFate, round.assignNoise);
    }
  }

  /** The loop decodes the same bytes over the wire as without it. */
  lemma InputOverWire(on: Platform, w: Wired, round: WireRound)
    requires Ready(on, w) && w.loop.status.Running? && round.peer < |w.peers| && ForeignRound(round)
    ensures WireInput(on, w, round) == RoundInput(on, Seen(w), AsRound(on, w, round))
  {
    GetIsGot(on, w, round);
    AssignIsAssigned(on, w, round);
  }

  /** One round over the wire is the round without it. */
  lemma WireStepIsWorldStep(on: Platform, w: Wired, round: WireRound)
    requires Ready(on, w) && w.loop.status.Running? && round.peer < |w.peers| && ForeignRound(round)
    ensures Seen(WireStep(on, w, round)) == WorldStep(on, Seen(w), AsRound(on, w, round))
  {
    InputOverWire(on, w, round);
    GetIsGot(on, w, round);
    AssignIsAssigned(on, w, round);
  }

  /** The counters of a loop that goes on after a round. */
  lemma CountersGoOn(on: Platform, w: World, round: Round)
    requires w.loop.status.Running? && round.peer < |w.peers| && Responsive(w.peers[round.peer])
    requires WorldStep(on, w, round).loop.status.Running?
    ensures var l, t := w.loop, WorldStep(on, w, round);
            && t.loop.tagCounter == Increment(Increment(l.tagCounter))
            && t.loop.instanceCounter == Increment(Increment(l.instanceCounter))
            && |t.loop.sent| == |l.sent| + 2
            && round.getFate.Delivered? && round.assignFate.Delivered?
  {
    GotCases(on, w, round);
    AssignedCases(on, w, round);
    PollCases(on.build, w.loop, RoundInput(on, w, round));
  }

  lemma RoundKeepsSound(on: Platform, w: Wired, round: WireRound)
    requires Ready(on, w) && w.loop.status.Running? && round.peer < |w.peers| && ForeignRound(round)
    ensures Sound(on, WireStep(on, w, round).sys)
  {
    GetKeepsSound(on, w, round);
    AssignKeepsSound(on, w, round);
  }

  lemma OnePeerChanged(peers: seq<Actor>, k: nat, peer: Actor)
    requires AllResponsive(peers) && k < |peers| && Responsive(peer)
    ensures AllResponsive(peers[k := peer])
  {
  }

  lemma PeersAfterRound(on: Platform, w: Wired, round: WireRound)
    requires w.loop.status.Running? && round.peer < |w.peers|
    ensures var t := WireStep(on, w, round);
            || t.peers == w.peers[round.peer := GetOverWire(on, w, round).peer]
            || t.peers == w.peers[round.peer := AssignOverWire(on, w, round).peer]
  {
  }

  lemma RoundKeepsResponsive(on: Platform, w: Wired, round: WireRound)
    requires Ready(on, w) && w.loop.status.Running? && round.peer < |w.peers| && ForeignRound(round)
    ensures AllResponsive(WireStep(on, w, round).peers)
  {
    GetIsGot(on, w, round);
    AssignIsAssigned(on, w, round);
    PeersAfterRound(on, w, round);
    OnePeerChanged(w.peers, round.peer, GetOverWire(on, w, round).peer);
    OnePeerChanged(w.peers, round.peer, AssignOverWire(on, w, round).peer);
  }

  lemma RoundEndsIdle(on: Platform, w: Wired, round: WireRound)
    requires Ready(on, w) && w.loop.status.Running? && round.peer < |w.peers| && ForeignRound(round)
    requires WireStep(on, w, round).loop.status.Running?
    ensures var t := WireStep(on, w, round); Idle(t.sys, t.loop.tagCounter, t.loop.instanceCounter)
  {
    AssignIsAssigned(on, w, round);
    WireStepIsWorldStep(on, w, round);
    CountersGoOn(on, Seen(w), AsRound(on, w, round));
    BothAnswered(on, Seen(w), AsRound(on, w, round));
  }

  lemma BothAnswered(on: Platform, w: World, round: Round)
    requires round.peer < |w.peers| && Responsive(w.peers[round.peer])
    requires round.getFate.Delivered? && round.assignFate.Delivered?
    ensures Assigned(on, w, round).reply.Some?
  {
    GotCases(on, w, round);
    RequestIsServed(on, w.peers[round.peer], AssignRequest(w.loop, round));
  }

  lemma RoundKeepsReady(on: Platform, w: Wired, round: WireRound)
    requires Ready(on, w) && w.loop.status.Running? && round.peer < |w.peers| && ForeignRound(round)
    ensures Ready(on, WireStep(on, w, round))
  {
    RoundKeepsSound(on, w, round);
    RoundKeepsResponsive(on, w, round);
    if WireStep(on, w, round).loop.status.Running? {
      RoundEndsIdle(on, w, round);
    }
  }

  // ----- every run over the wire -----

  function WireRun(on: Platform, start: Wired, rounds: seq<WireRound>): (t: Wired)
    requires forall i :: 0 <= i < |rounds| ==> rounds[i].peer < |start.peers|
    ensures |t.peers| == |start.peers|
  {
    if rounds == [] then start
    else WireStep(on, WireRun(on, start, rounds[..|rounds| - 1]), rounds[|rounds| - 1])
  }

  /** The `i`-th round of a run, without the wire. */
  function SeenRound(on: Platform, start: Wired, rounds: seq<WireRound>, i: nat): (seen: Round)
    requires i < |rounds| && forall j :: 0 <= j < |rounds| ==> rounds[j].peer < |start.peers|
    ensures seen.peer == rounds[i].peer
  {
    AsRound(on, WireRun(on, start, rounds[..i]), rounds[i])
  }

  function AsRounds(on: Platform, start: Wired, rounds: seq<WireRound>): (seen: seq<Round>)
    requires forall j :: 0 <= j < |rounds| ==> rounds[j].peer < |start.peers|
    ensures |seen| == |rounds| && forall i :: 0 <= i < |rounds| ==> seen[i].peer == rounds[i].peer
  {
    seq(|rounds|, i requires 0 <= i < |rounds| => SeenRound(on, start, rounds, i))
  }

  lemma AsRoundsExtend(on: Platform, start: Wired, rounds: seq<WireRound>, n: nat)
    requires |rounds| == n + 1 && forall j :: 0 <= j < |rounds| ==> rounds[j].peer < |start.peers|
    ensures AsRounds(on, start, rounds)[..n] == AsRounds(on, start, rounds[..n])
    ensures AsRounds(on, start, rounds)[n] == AsRound(on, WireRun(on, start, rounds[..n]), rounds[n])
  {
    forall i | 0 <= i < n ensures SeenRound(on, start, rounds, i) == SeenRound(on, start, rounds[..n], i) {
      assert rounds[..n][..i] == rounds[..i];
    }
  }

  /** Refinement, over every run: the loop behind its own transport actor, with the wire losing what it
      likes and foreign frames coming in between, does what the loop does that is handed its peers' answers. */
  lemma {:induction false} WireRunIsWorldRun(on: Platform, start: Wired, rounds: seq<WireRound>)
    requires Ready(on, start)
    requires forall i :: 0 <= i < |rounds| ==> rounds[i].peer < |start.peers| && ForeignRound(rounds[i])
    ensures Ready(on, WireRun(on, start, rounds))
    ensures Seen(WireRun(on, start, rounds)) == WorldRun(on, Seen(start), AsRounds(on, start, rounds))
  {
    if rounds != [] {
      var before := rounds[..|rounds| - 1];
      var w := WireRun(on, start, before);
      WireRunIsWorldRun(on, start, before);
      AsRoundsExtend(on, start, rounds, |rounds| - 1);
      if w.loop.status.Running? {
        WireStepIsWorldStep(on, w, rounds[|rounds| - 1]);
        RoundKeepsReady(on, w, rounds[|rounds| - 1]);
      }
    }
  }

  lemma InitialIsReady(on: Platform, w: Wired)
    requires Initial(w.sys) && AllResponsive(w.peers)
    requires w.loop.tagCounter == w.sys.tagCounter && w.loop.instanceCounter == w.sys.instanceCounter
    ensures Ready(on, w)
  {
    InitialIsSound(on, w.sys);
  }

  /** So over the wire too the owner's books and the endpoints agree, and every responder of the owner that
      completed holds the reply to its own request. */
  lemma BooksAgreeOverTheWire(on: Platform, start: Wired, rounds: seq<WireRound>, t: Wired)
    requires Initial(start.sys) && AllResponsive(start.peers) && start.offers == []
    requires start.loop == Discovery.Start(start.loop.nextEid, start.sys.tagCounter, start.sys.instanceCounter)
    requires forall i :: 0 <= i < |rounds| ==> rounds[i].peer < |start.peers| && ForeignRound(rounds[i])
    requires t == WireRun(on, start, rounds)
    ensures Agree(on, start.loop.nextEid, start.peers, Seen(t)) && Correlated(t.sys)
  {
    InitialIsReady(on, start);
    ReadyRunAgrees(on, start, rounds, t);
  }

  lemma ReadyRunAgrees(on: Platform, start: Wired, rounds: seq<WireRound>, t: Wired)
    requires Ready(on, start) && start.offers == []
    requires start.loop.grants == [] && start.loop.sent == [] && start.loop.status.Running?
    requires forall i :: 0 <= i < |rounds| ==> rounds[i].peer < |start.peers| && ForeignRound(rounds[i])
    requires t == WireRun(on, start, rounds)
    ensures Agree(on, start.loop.nextEid, start.peers, Seen(t)) && Correlated(t.sys)
  {
    WireRunIsWorldRun(on, start, rounds);
    BooksAndEndpointsAgree(on, Seen(start), AsRounds(on, start, rounds));
    SoundIsCorrelated(on, t.sys);
  }
}
