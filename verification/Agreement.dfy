/** The discovery loop against endpoints that run this program's own responder and keep their state: the
    bus owner's list of EIDs and what the endpoints hold never disagree. */
module Agreement {
  import opened Bytes
  import opened Enums
  import opened Headers
  import opened Bodies
  import opened ControlPayloads
  import opened Smbus
  import opened Flows
  import opened Responder
  import opened Actors
  import opened Correlation
  import Discovery

  // ----- one request and its reply -----

  datatype Served = Served(peer: Actor, reply: Option<Buffer>)

  /** The peer's actor takes the frame of the request; what it answers comes back without the SMBus header. */
  function ServeRequest(on: Platform, peer: Actor, r: Discovery.Request): Served {
    match BusOwnerFrame(on.build, Discovery.RequestBytes(r), on.pec)
    case None => Served(peer, None)
    case Some(frame) =>
      var step := ActorStep(on, peer, ReceiveMsg(frame));
      Served(step.actor,
             if step.verdict.Replied? && |step.verdict.reply| >= 4 then Some(step.verdict.reply[4..]) else None)
  }

  /** The endpoint state after a request of the loop. */
  function StateAfter(ep: Endpoint, op: Discovery.Op): Endpoint {
    if op.AssignEid? then ep.(assignedEid := op.eid) else ep
  }

  /** The fields of the reply to a request of the loop: no pool for anyone, allocation not supported. */
  function FieldsOf(op: Discovery.Op): Buffer {
    match op
    case AskEid(_) => [0, 0, 0, 0]
    case AssignEid(eid) => [0, 0, eid, 0]
    case AllocatePool(_, _) => [5]
  }

  lemma LoopRequestAnswered(r: Discovery.Request, x: Byte, ep: Endpoint)
    ensures var b := Discovery.RequestBytes(r) + [x];
            Answered(b) && EndpointAfter(ep, b) == StateAfter(ep, r.op) && ReplyFields(b) == FieldsOf(r.op)
  {
    Discovery.RequestMeetsReference(r);
    var b := Discovery.RequestBytes(r) + [x];
    assert b[6] == match r.op case AskEid(_) => 0x02 case AssignEid(_) => 0x01 case AllocatePool(_, _) => 0x08;
    assert r.op.AssignEid? ==> b[8] == r.op.eid;
  }

  /** A live peer always answers, and only an assignment changes it. */
  lemma RequestIsServed(on: Platform, peer: Actor, r: Discovery.Request)
    requires peer.alive && OwnsItsFlows(peer)
    ensures var served := ServeRequest(on, peer, r);
            && served.peer == peer.(endpoint := StateAfter(peer.endpoint, r.op))
            && served.reply.Some? && |served.reply.value| == 8 + |FieldsOf(r.op)|
            && served.reply.value[7..7 + |FieldsOf(r.op)|] == FieldsOf(r.op)
  {
    var q := AsQuestion(r);
    DiscoveryRequestsAreQuestions(r);
    BusOwnerFrameReadBack(on.build, QuestionBytes(q), on.pec);
    LoopRequestLength(r);
    var frame := BusOwnerFrame(on.build, QuestionBytes(q), on.pec).value;
    var x := frame[|QuestionBytes(q)| + 4];
    LoopRequestAnswered(r, x, peer.endpoint);
    ServedReplyIsTheAnswer(on, q, frame, peer);
    HandledFrame(on, peer, q, frame);
    ReplyFramed(on, frame[4..]);
  }

  lemma LoopRequestLength(r: Discovery.Request)
    ensures 7 <= |Discovery.RequestBytes(r)| <= 10
  {
    Discovery.RequestMeetsReference(r);
  }

  lemma HandledFrame(on: Platform, peer: Actor, q: Question, frame: Buffer)
    requires IsFrameOf(on, q, frame) && peer.alive && OwnsItsFlows(peer) && Answered(frame[4..])
    ensures ActorStep(on, peer, ReceiveMsg(frame)).actor == peer.(endpoint := EndpointAfter(peer.endpoint, frame[4..]))
  {
    FrameOfQuestion(on, q, frame);
    OwnedFramesCompleteNothing(peer.flows.pending, CreateTag(frame[4..]));
    FirstMatchIsDequeue(peer.flows.pending, CreateTag(frame[4..]));
    FrameOutcome(on, peer, frame);
  }

  lemma LeadingFields(reply: Buffer, fields: Buffer)
    requires |reply| == 8 + |fields| && reply[7..7 + |fields|] == fields && |fields| >= 1
    ensures reply[7] == fields[0]
    ensures |fields| >= 4 ==> reply[8] == fields[1] && reply[9] == fields[2]
  {
    assert reply[7] == reply[7..7 + |fields|][0];
    if |fields| >= 4 {
      assert reply[8] == reply[7..7 + |fields|][1] && reply[9] == reply[7..7 + |fields|][2];
    }
  }

  lemma DynamicAndSimple(ex: Discovery.Exchange)
    requires ex.reply.Some? && |ex.reply.value| >= 11 && ex.reply.value[7] == 0 && ex.reply.value[9] == 0
    ensures var a := Discovery.Answer(GetEidResponseKind, ex);
            a.Ok? && EidTypeOf(a.value).Dynamic? && EndpointTypeOf(a.value).Simple?
  {
    Discovery.AnswerFromBytes(GetEidResponseKind, ex);
  }

  lemma AcceptedWithoutPool(ex: Discovery.Exchange)
    requires ex.reply.Some? && |ex.reply.value| >= 11 && ex.reply.value[7] == 0 && ex.reply.value[8] == 0
    ensures var a := Discovery.Answer(SetEidResponseKind, ex);
            a.Ok? && AssignmentBits(a.value) == 0 && !AllocationStatusOf(a.value).RequiresPoolAllocation?
  {
    Discovery.AnswerFromBytes(SetEidResponseKind, ex);
  }

  lemma QuestionIsAnswered(on: Platform, peer: Actor, r: Discovery.Request, src: Byte)
    requires peer.alive && OwnsItsFlows(peer) && r.op.AskEid?
    ensures var a := Discovery.Answer(GetEidResponseKind, Discovery.Exchange(src, ServeRequest(on, peer, r).reply));
            a.Ok? && EidTypeOf(a.value).Dynamic? && EndpointTypeOf(a.value).Simple?
  {
    RequestIsServed(on, peer, r);
    LeadingFields(ServeRequest(on, peer, r).reply.value, FieldsOf(r.op));
    DynamicAndSimple(Discovery.Exchange(src, ServeRequest(on, peer, r).reply));
  }

  lemma AssignmentIsAccepted(on: Platform, peer: Actor, r: Discovery.Request, src: Byte)
    requires peer.alive && OwnsItsFlows(peer) && r.op.AssignEid?
    ensures var a := Discovery.Answer(SetEidResponseKind, Discovery.Exchange(src, ServeRequest(on, peer, r).reply));
            a.Ok? && AssignmentBits(a.value) == 0 && !AllocationStatusOf(a.value).RequiresPoolAllocation?
  {
    RequestIsServed(on, peer, r);
    LeadingFields(ServeRequest(on, peer, r).reply.value, FieldsOf(r.op));
    AcceptedWithoutPool(Discovery.Exchange(src, ServeRequest(on, peer, r).reply));
  }

  /** An allocation would be refused: the responder does not know the command. */
  lemma AllocationIsRefused(on: Platform, peer: Actor, r: Discovery.Request, src: Byte)
    requires peer.alive && OwnsItsFlows(peer) && r.op.AllocatePool?
    ensures Discovery.Answer(AllocateResponseKind, Discovery.Exchange(src, ServeRequest(on, peer, r).reply)).Err?
  {
    RequestIsServed(on, peer, r);
    Discovery.AnswerFromBytes(AllocateResponseKind, Discovery.Exchange(src, ServeRequest(on, peer, r).reply));
  }

  // ----- a round of discovery -----

  /** What the channel does to a request and its reply. */
  datatype Fate = RequestLost | ReplyLost | Delivered

  function Exchanged(on: Platform, peer: Actor, r: Discovery.Request, fate: Fate): Served {
    match fate
    case RequestLost => Served(peer, None)
    case ReplyLost => Served(ServeRequest(on, peer, r).peer, None)
    case Delivered => ServeRequest(on, peer, r)
  }

  /** A round meets one of the peers; `getSrc` and `assignSrc` are the EIDs the loop's owner has meanwhile. */
  datatype Round = Round(peer: nat, getSrc: Byte, getFate: Fate, assignSrc: Byte, assignFate: Fate)

  /** `offers` is history: for each EID reserved, the peer that was served the offer, if it got through. */
  datatype World = World(loop: Discovery.Loop, peers: seq<Actor>, offers: seq<Option<nat>>)

  function GetRequest(l: Discovery.Loop, round: Round): Discovery.Request {
    Discovery.Request(round.getSrc, l.tagCounter, l.instanceCounter, Discovery.AskEid(0))
  }

  function AssignRequest(l: Discovery.Loop, round: Round): Discovery.Request {
    Discovery.Request(round.assignSrc, Increment(l.tagCounter), Increment(l.instanceCounter),
                      Discovery.AssignEid(l.nextEid))
  }

  function Got(on: Platform, w: World, round: Round): Served
    requires round.peer < |w.peers|
  {
    Exchanged(on, w.peers[round.peer], GetRequest(w.loop, round), round.getFate)
  }

  function Assigned(on: Platform, w: World, round: Round): Served
    requires round.peer < |w.peers|
  {
    Exchanged(on, Got(on, w, round).peer, AssignRequest(w.loop, round), round.assignFate)
  }

  function RoundInput(on: Platform, w: World, round: Round): Discovery.PollInput
    requires round.peer < |w.peers|
  {
    Discovery.PollInput(true, Discovery.Exchange(round.getSrc, Got(on, w, round).reply),
                        Discovery.Exchange(round.assignSrc, Assigned(on, w, round).reply),
                        Discovery.Exchange(0, None))
  }

  /** The peer is served the assignment only if the loop sends it. */
  function WorldStep(on: Platform, w: World, round: Round): World
    requires round.peer < |w.peers|
  {
    if !w.loop.status.Running? then w
    else
      var after := Discovery.PollStep(on.build, w.loop, RoundInput(on, w, round), 0);
      if |after.sent| < |w.loop.sent| + 2
      then World(after, w.peers[round.peer := Got(on, w, round).peer], w.offers)
      else World(after, w.peers[round.peer := Assigned(on, w, round).peer],
                 w.offers + [if round.assignFate.RequestLost? then None else Some(round.peer)])
  }

  predicate Responsive(peer: Actor) {
    peer.alive && OwnsItsFlows(peer)
  }

  lemma GotCases(on: Platform, w: World, round: Round)
    requires round.peer < |w.peers| && Responsive(w.peers[round.peer])
    ensures var input := RoundInput(on, w, round);
            && Got(on, w, round).peer == w.peers[round.peer]
            && (Discovery.Dynamic(input) <==> round.getFate.Delivered?)
            && (Discovery.Answer(GetEidResponseKind, input.get).Ok? <==> round.getFate.Delivered?)
            && Discovery.PoolSize(input) == 0
  {
    if !round.getFate.RequestLost? {
      RequestIsServed(on, w.peers[round.peer], GetRequest(w.loop, round));
      QuestionIsAnswered(on, w.peers[round.peer], GetRequest(w.loop, round), round.getSrc);
    }
  }

  lemma AssignedCases(on: Platform, w: World, round: Round)
    requires round.peer < |w.peers| && Responsive(w.peers[round.peer])
    ensures var peer := w.peers[round.peer];
            && (Discovery.AssignAccepted(RoundInput(on, w, round)) <==> round.assignFate.Delivered?)
            && Assigned(on, w, round).peer
               == if round.assignFate.RequestLost? then peer
                  else peer.(endpoint := peer.endpoint.(assignedEid := w.loop.nextEid))
  {
    GotCases(on, w, round);
    if !round.assignFate.RequestLost? {
      RequestIsServed(on, w.peers[round.peer], AssignRequest(w.loop, round));
      AssignmentIsAccepted(on, w.peers[round.peer], AssignRequest(w.loop, round), round.assignSrc);
    }
  }

  /** The three ways a round can go: no answer to the question (or no EID left), an offer that is not
      acknowledged, and an offer that is. */
  lemma RoundCases(on: Platform, w: World, round: Round)
    requires w.loop.status.Running? && round.peer < |w.peers| && Responsive(w.peers[round.peer])
    ensures var l := w.loop;
            var after := Discovery.PollStep(on.build, l, RoundInput(on, w, round), 0);
            var next := Add8(on.build, l.nextEid, 1);
            if !round.getFate.Delivered? || next.None? then
              && after.sent == l.sent + [GetRequest(l, round)] && after.grants == l.grants
              && after.nextEid == l.nextEid && !after.status.Running?
            else
              && after.sent == l.sent + [GetRequest(l, round), AssignRequest(l, round)]
              && after.grants == l.grants + [Discovery.Single(l.nextEid)] && after.nextEid == next.value
              && (after.status.Running? <==> round.assignFate.Delivered?)
  {
    GotCases(on, w, round);
    AssignedCases(on, w, round);
    PollCases(on.build, w.loop, RoundInput(on, w, round));
  }

  /** A poll that demands no pool. */
  lemma PollCases(build: Build, l: Discovery.Loop, input: Discovery.PollInput)
    requires l.status.Running? && input.discover && Discovery.PoolSize(input) == 0
    requires Discovery.Answer(GetEidResponseKind, input.get).Ok? == Discovery.Dynamic(input)
    ensures var after := Discovery.PollStep(build, l, input, 0);
            var asked := Discovery.Send(l, input.get.src, Discovery.AskEid(0));
            var next := Add8(build, l.nextEid, 1);
            if !Discovery.Dynamic(input) || next.None? then
              after == asked.(status := after.status) && !after.status.Running?
            else
              && after == Discovery.Offer(asked, input, next.value).(status := after.status)
              && (after.status.Running? <==> Discovery.AssignAccepted(input))
  {
    Discovery.DiscoverStepCases(build, l, input);
  }

  /** One round against an endpoint that keeps its state. Whatever is lost, it demands one EID at most and no
      pool; and if the loop takes the assignment as accepted, the endpoint holds exactly the EID offered. */
  lemma AcceptedMeansStored(on: Platform, w: World, round: Round)
    requires w.loop.status.Running? && round.peer < |w.peers| && Responsive(w.peers[round.peer])
    ensures var t := WorldStep(on, w, round);
            && Discovery.Demand(RoundInput(on, w, round)) == (if round.getFate.Delivered? then 1 else 0)
            && (t.loop.status.Running? <==>
                  round.getFate.Delivered? && round.assignFate.Delivered? && Add8(on.build, w.loop.nextEid, 1).Some?)
            && (t.loop.status.Running? ==>
                  && t.loop.grants == w.loop.grants + [Discovery.Single(w.loop.nextEid)]
                  && t.peers == w.peers[round.peer := t.peers[round.peer]]
                  && t.peers[round.peer].endpoint.assignedEid == w.loop.nextEid)
  {
    GotCases(on, w, round);
    AssignedCases(on, w, round);
    RoundCases(on, w, round);
  }

  // ----- every run -----

  function WorldRun(on: Platform, start: World, rounds: seq<Round>): (t: World)
    requires forall i :: 0 <= i < |rounds| ==> rounds[i].peer < |start.peers|
    ensures |t.peers| == |start.peers|
  {
    if rounds == [] then start
    else WorldStep(on, WorldRun(on, start, rounds[..|rounds| - 1]), rounds[|rounds| - 1])
  }

  function Inputs(on: Platform, start: World, rounds: seq<Round>): (polls: seq<Discovery.PollInput>)
    requires forall i :: 0 <= i < |rounds| ==> rounds[i].peer < |start.peers|
    ensures |polls| == |rounds|
  {
    if rounds == [] then []
    else
      var before := rounds[..|rounds| - 1];
      Inputs(on, start, before) + [RoundInput(on, WorldRun(on, start, before), rounds[|rounds| - 1])]
  }

  /** The loop in such a run is a run of the loop: all its theorems hold here too. */
  lemma {:induction false} WorldRunsTheLoop(on: Platform, start: World, rounds: seq<Round>)
    requires forall i :: 0 <= i < |rounds| ==> rounds[i].peer < |start.peers|
    ensures WorldRun(on, start, rounds).loop == Discovery.LoopRun(on.build, start.loop, Inputs(on, start, rounds), 0)
  {
    if rounds != [] {
      var before := rounds[..|rounds| - 1];
      WorldRunsTheLoop(on, start, before);
      assert Inputs(on, start, rounds)[..|rounds| - 1] == Inputs(on, start, before);
    }
  }

  /** What peer `k` holds: the EID of the last offer that reached it, counted from the start of the pool, or
      what it held before. */
  function Held(first: Byte, offers: seq<Option<nat>>, k: nat, before: Byte): Byte {
    if offers == [] then before
    else if offers[|offers| - 1] == Some(k) then (first + |offers| - 1) % 0x100
    else Held(first, offers[..|offers| - 1], k, before)
  }

  function Holding(peer: Actor, eid: Byte): Actor {
    peer.(endpoint := peer.endpoint.(assignedEid := eid))
  }

  /** The owner's books: the i-th EID reserved is the i-th of the pool, nothing but single EIDs is reserved
      and no pool is ever announced. */
  predicate Books(on: Platform, first: Byte, l: Discovery.Loop, n: nat) {
    && |l.grants| == n && l.nextEid == (first + n) % 0x100 && (on.build.Checked? ==> first + n <= 0xFF)
    && (forall i :: 0 <= i < n ==> l.grants[i] == Discovery.Single((first + i) % 0x100))
    && (forall r :: r in l.sent ==> !r.op.AllocatePool?)
  }

  /** Each peer is as it was, but for the EID of the last offer that reached it. */
  predicate PeersHold(first: Byte, before: seq<Actor>, peers: seq<Actor>, offers: seq<Option<nat>>) {
    && |peers| == |before|
    && forall k :: 0 <= k < |before| ==>
         peers[k] == Holding(before[k], Held(first, offers, k, before[k].endpoint.assignedEid))
  }

  predicate Agree(on: Platform, first: Byte, before: seq<Actor>, w: World) {
    Books(on, first, w.loop, |w.offers|) && PeersHold(first, before, w.peers, w.offers)
  }

  /** In every run against responsive endpoints, whatever is lost on the way. */
  lemma {:induction false} BooksAndEndpointsAgree(on: Platform, start: World, rounds: seq<Round>)
    requires start.loop.grants == [] && start.loop.sent == [] && start.loop.status.Running? && start.offers == []
    requires forall i :: 0 <= i < |rounds| ==> rounds[i].peer < |start.peers|
    requires forall k :: 0 <= k < |start.peers| ==> Responsive(start.peers[k])
    ensures Agree(on, start.loop.nextEid, start.peers, WorldRun(on, start, rounds))
  {
    if rounds != [] {
      var n := |rounds| - 1;
      var w := WorldRun(on, start, rounds[..n]);
      BooksAndEndpointsAgree(on, start, rounds[..n]);
      if w.loop.status.Running? {
        assert Responsive(start.peers[rounds[n].peer]);
        StepKeepsAgreement(on, start.loop.nextEid, start.peers, w, rounds[n], WorldStep(on, w, rounds[n]));
      }
    }
  }

  /** The peers and offers after a round whose offer goes out. */
  lemma OfferGoesOut(on: Platform, w: World, round: Round)
    requires w.loop.status.Running? && round.peer < |w.peers| && Responsive(w.peers[round.peer])
    requires round.getFate.Delivered? && Add8(on.build, w.loop.nextEid, 1).Some?
    ensures var t := WorldStep(on, w, round);
            && t.loop == Discovery.PollStep(on.build, w.loop, RoundInput(on, w, round), 0)
            && t.peers == (if round.assignFate.RequestLost? then w.peers
                           else w.peers[round.peer := Holding(w.peers[round.peer], w.loop.nextEid)])
            && t.offers == w.offers + [if round.assignFate.RequestLost? then None else Some(round.peer)]
  {
    AssignedCases(on, w, round);
    RoundCases(on, w, round);
    assert w.peers[round.peer := w.peers[round.peer]] == w.peers;
  }

  /** A round in which no offer goes out leaves the peers alone. */
  lemma NoOfferGoesOut(on: Platform, w: World, round: Round)
    requires w.loop.status.Running? && round.peer < |w.peers| && Responsive(w.peers[round.peer])
    requires !round.getFate.Delivered? || Add8(on.build, w.loop.nextEid, 1).None?
    ensures var t := WorldStep(on, w, round);
            && t.loop == Discovery.PollStep(on.build, w.loop, RoundInput(on, w, round), 0)
            && t.peers == w.peers && t.offers == w.offers
  {
    GotCases(on, w, round);
    RoundCases(on, w, round);
    assert w.peers[round.peer := w.peers[round.peer]] == w.peers;
  }

  lemma AgreeWithoutOffer(on: Platform, first: Byte, before: seq<Actor>, w: World, t: World, r: Discovery.Request)
    requires Agree(on, first, before, w) && !r.op.AllocatePool? && t.peers == w.peers && t.offers == w.offers
    requires t.loop.sent == w.loop.sent + [r] && t.loop.grants == w.loop.grants && t.loop.nextEid == w.loop.nextEid
    ensures Agree(on, first, before, t)
  {
    BooksWithoutOffer(on, first, w.loop, |w.offers|, t.loop, r);
  }

  lemma AgreeWithOffer(on: Platform, first: Byte, before: seq<Actor>, w: World, t: World,
                       r: Discovery.Request, q: Discovery.Request, k: nat, lost: bool)
    requires Agree(on, first, before, w) && !r.op.AllocatePool? && !q.op.AllocatePool? && k < |w.peers|
    requires t.peers == if lost then w.peers else w.peers[k := Holding(w.peers[k], w.loop.nextEid)]
    requires t.offers == w.offers + [if lost then None else Some(k)]
    requires t.loop.sent == w.loop.sent + [r, q]
    requires t.loop.grants == w.loop.grants + [Discovery.Single(w.loop.nextEid)]
    requires Add8(on.build, w.loop.nextEid, 1) == Some(t.loop.nextEid)
    ensures Agree(on, first, before, t)
  {
    BooksWithOffer(on, first, w.loop, |w.offers|, t.loop, r, q, t.loop.nextEid);
    OfferKeepsHold(first, before, w.peers, w.offers, k, lost, w.loop.nextEid);
  }

  lemma StepKeepsAgreement(on: Platform, first: Byte, before: seq<Actor>, w: World, round: Round, t: World)
    requires Agree(on, first, before, w) && w.loop.status.Running? && round.peer < |w.peers|
    requires Responsive(w.peers[round.peer]) && t == WorldStep(on, w, round)
    ensures Agree(on, first, before, t)
  {
    var get, assign := GetRequest(w.loop, round), AssignRequest(w.loop, round);
    RoundCases(on, w, round);
    if round.getFate.Delivered? && Add8(on.build, w.loop.nextEid, 1).Some? {
      OfferGoesOut(on, w, round);
      AgreeWithOffer(on, first, before, w, t, get, assign, round.peer, round.assignFate.RequestLost?);
    } else {
      NoOfferGoesOut(on, w, round);
      AgreeWithoutOffer(on, first, before, w, t, get);
    }
  }

  lemma BooksWithoutOffer(on: Platform, first: Byte, l: Discovery.Loop, n: nat, after: Discovery.Loop,
                          r: Discovery.Request)
    requires Books(on, first, l, n) && !r.op.AllocatePool?
    requires after.sent == l.sent + [r] && after.grants == l.grants && after.nextEid == l.nextEid
    ensures Books(on, first, after, n)
  {
  }

  lemma BooksWithOffer(on: Platform, first: Byte, l: Discovery.Loop, n: nat, after: Discovery.Loop,
                       r: Discovery.Request, q: Discovery.Request, next: Byte)
    requires Books(on, first, l, n) && !r.op.AllocatePool? && !q.op.AllocatePool?
    requires Add8(on.build, l.nextEid, 1) == Some(next)
    requires after.sent == l.sent + [r, q] && after.grants == l.grants + [Discovery.Single(l.nextEid)]
    requires after.nextEid == next
    ensures Books(on, first, after, n + 1)
  {
    WrapNext(first + n, 1, next);
  }

  /** An offer that gets through changes the peer it is for; one that is lost changes nothing. */
  lemma OfferKeepsHold(first: Byte, before: seq<Actor>, peers: seq<Actor>, offers: seq<Option<nat>>,
                       k: nat, lost: bool, eid: Byte)
    requires PeersHold(first, before, peers, offers) && k < |peers| && eid == (first + |offers|) % 0x100
    ensures PeersHold(first, before, if lost then peers else peers[k := Holding(peers[k], eid)],
                      offers + [if lost then None else Some(k)])
  {
    assert (offers + [if lost then None else Some(k)])[..|offers|] == offers;
  }

  /** Two endpoints that were both served an offer in such a run never hold the same EID, unless a wrapping
      build has gone once round the EID space. */
  lemma HoldersDiffer(on: Platform, start: World, rounds: seq<Round>, w: World, i: nat, j: nat)
    requires start.loop.grants == [] && start.loop.sent == [] && start.loop.status.Running? && start.offers == []
    requires forall k :: 0 <= k < |rounds| ==> rounds[k].peer < |start.peers|
    requires forall k :: 0 <= k < |start.peers| ==> Responsive(start.peers[k])
    requires w == WorldRun(on, start, rounds) && i < |start.peers| && j < |start.peers| && i != j
    requires Some(i) in w.offers && Some(j) in w.offers && (on.build.Checked? || |w.offers| <= 0x100)
    ensures w.peers[i].endpoint.assignedEid != w.peers[j].endpoint.assignedEid
  {
    BooksAndEndpointsAgree(on, start, rounds);
    AgreedHoldersDiffer(on, start.loop.nextEid, start.peers, w, i, j);
  }

  lemma AgreedHoldersDiffer(on: Platform, first: Byte, before: seq<Actor>, w: World, i: nat, j: nat)
    requires Agree(on, first, before, w) && i < |before| && j < |before| && i != j
    requires Some(i) in w.offers && Some(j) in w.offers && (on.build.Checked? || |w.offers| <= 0x100)
    ensures w.peers[i].endpoint.assignedEid != w.peers[j].endpoint.assignedEid
  {
    var a := LastOffer(first, w.offers, i, before[i].endpoint.assignedEid);
    var b := LastOffer(first, w.offers, j, before[j].endpoint.assignedEid);
  }

  lemma {:induction false} LastOffer(first: Byte, offers: seq<Option<nat>>, k: nat, before: Byte) returns (at: nat)
    requires Some(k) in offers
    ensures at < |offers| && offers[at] == Some(k) && Held(first, offers, k, before) == (first + at) % 0x100
  {
    var last := |offers| - 1;
    if offers[last] == Some(k) {
      at := last;
    } else {
      at := LastOffer(first, offers[..last], k, before);
    }
  }
}
