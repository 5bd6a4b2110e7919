/** The conditions of the correlation theorem are exact: a window of nine fails, and so does a channel that
    duplicates a single frame. Both failing runs are built from requests that every peer answers. */
module Tightness {
  import opened Bytes
  import opened Enums
  import opened Headers
  import opened ControlPayloads
  import opened Smbus
  import opened Flows
  import opened Responder
  import opened Actors
  import opened Correlation

  /** Get Endpoint ID from and to endpoint 0. */
  const PROBE := Ask(0, 0, GetEndpointID, [])

  /** All requests go from endpoint 0 to endpoint 0, as probes do. */
  predicate OnlyProbes(s: System) {
    forall i :: 0 <= i < |s.questions| ==> s.questions[i].src == 0 && s.questions[i].dst == 0
  }

  predicate InstancesCounted(i0: Byte, s: System) {
    && s.instanceCounter == CounterAfter(i0, |s.questions|)
    && forall i :: 0 <= i < |s.questions| ==> s.questions[i].instanceCounter == CounterAfter(i0, i)
  }

  /** A live requester that has sent `n` probes, of which those in `completed` are answered. */
  predicate Probed(s: System, t0: Byte, i0: Byte, n: nat, completed: seq<nat>) {
    && s.actor.alive && |s.questions| == n && OnlyProbes(s) && s.actor.flows.completed == completed
    && TagsCounted(t0, s) && InstancesCounted(i0, s)
  }

  /** The run is allowed, keeps within the window and gives some responder a reply that is not its own. */
  predicate Fails(on: Platform, s: System, moves: seq<Move>, w: nat) {
    Allowed(on, s, moves) && Windowed(on, s, moves, w) && !Correlated(Exec(on, s, moves))
  }

  /** The packets that a run duplicates. */
  function Copies(moves: seq<Move>): nat {
    if moves == [] then 0 else (if moves[0].Duplicate? then 1 else 0) + Copies(moves[1..])
  }

  lemma {:induction false} FaithfulMakesNoCopies(on: Platform, s: System, moves: seq<Move>)
    requires Allowed(on, s, moves)
    ensures Copies(moves) == 0 <==> Faithful(on, s, moves)
    decreases |moves|
  {
    if moves != [] {
      FaithfulMakesNoCopies(on, Next(on, s, moves[0]), moves[1..]);
      NoneDuplicated(moves);
    }
  }

  lemma NoneDuplicated(moves: seq<Move>)
    requires moves != []
    ensures (forall i :: 0 <= i < |moves| ==> !moves[i].Duplicate?)
       <==> !moves[0].Duplicate? && forall i :: 0 <= i < |moves[1..]| ==> !moves[1..][i].Duplicate?
  {
    assert moves == [moves[0]] + moves[1..];
  }

  /** There is such a run with exactly so many packets duplicated. */
  ghost predicate CanFail(on: Platform, s: System, w: nat, copies: nat) {
    exists moves :: Fails(on, s, moves, w) && Copies(moves) == copies
  }

  lemma FailsLater(on: Platform, s: System, m: Move, rest: seq<Move>, w: nat)
    requires Enabled(on, s, m) && (m.Ask? ==> WindowOpen(s, w)) && Fails(on, Next(on, s, m), rest, w)
    ensures Fails(on, s, [m] + rest, w) && Copies([m] + rest) == Copies(rest) + if m.Duplicate? then 1 else 0
  {
    assert ([m] + rest)[1..] == rest;
  }

  lemma CanFailLater(on: Platform, s: System, m: Move, w: nat, copies: nat)
    requires Enabled(on, s, m) && (m.Ask? ==> WindowOpen(s, w)) && CanFail(on, Next(on, s, m), w, copies)
    ensures CanFail(on, s, w, copies + if m.Duplicate? then 1 else 0)
  {
    var rest :| Fails(on, Next(on, s, m), rest, w) && Copies(rest) == copies;
    FailsLater(on, s, m, rest, w);
  }

  // ----- probes -----

  lemma InstancesAfterAsk(on: Platform, i0: Byte, s: System, q: Question)
    requires InstancesCounted(i0, s) && q.instanceCounter == s.instanceCounter
    ensures InstancesCounted(i0, AskNext(on, s, q))
  {
  }

  lemma NextKeepsInstancesCounted(on: Platform, i0: Byte, s: System, m: Move)
    requires InstancesCounted(i0, s)
    ensures InstancesCounted(i0, Next(on, s, m))
  {
    if m.Ask? {
      InstancesAfterAsk(on, i0, s, Asked(s, m));
    }
  }

  lemma {:induction false} ExecKeepsInstancesCounted(on: Platform, i0: Byte, s: System, moves: seq<Move>)
    requires InstancesCounted(i0, s)
    ensures InstancesCounted(i0, Exec(on, s, moves))
    decreases |moves|
  {
    if moves != [] {
      NextKeepsInstancesCounted(on, i0, s, moves[0]);
      ExecKeepsInstancesCounted(on, i0, Next(on, s, moves[0]), moves[1..]);
    }
  }

  /** Requests less than 32 allocations apart have different instance ids. */
  lemma InstanceIdsDiffer(i0: Byte, s: System, i: nat, j: nat)
    requires InstancesCounted(i0, s) && i < j < |s.questions| && j < i + 32
    ensures QuestionControlHeader(s.questions[i]) != QuestionControlHeader(s.questions[j])
  {
    CounterWraps(i0, i);
    CounterWraps(i0, j);
    LowBitsOfCounter(i0, i);
    LowBitsOfCounter(i0, j);
    SameResidue32(i0 + i, i0 + j);
  }

  /** A probe always fits a frame, and whoever parses it answers. */
  lemma ProbeIsAnswered(on: Platform, s: System)
    ensures var framed := BusOwnerFrame(on.build, QuestionBytes(Asked(s, PROBE)), on.pec);
            framed.Some? && |framed.value| >= 4 && Answered(framed.value[4..])
  {
    var q := Asked(s, PROBE);
    BusOwnerFrameReadBack(on.build, QuestionBytes(q), on.pec);
    FrameOfQuestion(on, q, BusOwnerFrame(on.build, QuestionBytes(q), on.pec).value);
    assert |QuestionBytes(q)| == 7 && QuestionBytes(q)[6] == GET_EID;
  }

  lemma ProbeStep(on: Platform, s: System, frame: Buffer)
    requires s.actor.alive && IsFrameOf(on, Asked(s, PROBE), frame)
    ensures Enabled(on, s, PROBE) && Next(on, s, PROBE) == WithRequest(s, Asked(s, PROBE), frame)
  {
    AskStep(on, s, Asked(s, PROBE));
  }

  lemma ProbedAfter(on: Platform, s: System, frame: Buffer, t0: Byte, i0: Byte, n: nat, completed: seq<nat>)
    requires Probed(s, t0, i0, n, completed) && IsFrameOf(on, Asked(s, PROBE), frame)
    ensures Probed(Next(on, s, PROBE), t0, i0, n + 1, completed)
  {
    ProbeStep(on, s, frame);
    AskKeepsTagsCounted(on, t0, s, Asked(s, PROBE));
    InstancesAfterAsk(on, i0, s, Asked(s, PROBE));
  }

  lemma ProbeKeepsSound(on: Platform, s: System, t0: Byte)
    requires Sound(on, s) && TagsCounted(t0, s) && WindowOpen(s, 8) && Enabled(on, s, PROBE)
    ensures Sound(on, Next(on, s, PROBE))
  {
    WindowExcludesCollision(on, t0, s, Asked(s, PROBE));
    NextKeepsSound(on, s, PROBE);
  }

  lemma ProbeAgain(on: Platform, s: System, t0: Byte, i0: Byte, n: nat, completed: seq<nat>)
    requires Sound(on, s) && Probed(s, t0, i0, n, completed) && WindowOpen(s, 8)
    ensures Enabled(on, s, PROBE)
    ensures Sound(on, Next(on, s, PROBE)) && Probed(Next(on, s, PROBE), t0, i0, n + 1, completed)
  {
    ProbeIsAnswered(on, s);
    var frame := BusOwnerFrame(on.build, QuestionBytes(Asked(s, PROBE)), on.pec).value;
    ProbeStep(on, s, frame);
    ProbedAfter(on, s, frame, t0, i0, n, completed);
    ProbeKeepsSound(on, s, t0);
  }

  /** Probes eight allocations apart have the same tag. */
  lemma EightApart(t0: Byte, p: Question, q: Question)
    requires p.tagCounter == CounterAfter(t0, 0) && q.tagCounter == CounterAfter(t0, 8)
    requires p.src == q.src && p.dst == q.dst
    ensures QuestionTag(p) == QuestionTag(q)
  {
    SameKeyExactly(t0, p, q, 0, 8);
  }

  // ----- a window of nine -----

  /** What the list of flows holds, from the requests alone. */
  lemma FlowsOfQuestions(on: Platform, s: System, i: nat)
    requires Sound(on, s) && i < |s.questions|
    ensures var flows := s.actor.flows;
            && Conserved(flows) && DistinctKeys(flows.pending)
            && |flows.registered| == |s.questions| && flows.registered[i] == QuestionTag(s.questions[i])
  {
  }

  lemma PendingCollides(s: System, tag: MsgFlowTag, i: nat, q: Question)
    requires Conserved(s.actor.flows) && i < |s.actor.flows.registered| && i !in s.actor.flows.completed
    requires s.actor.flows.registered[i] == tag && FlowKey(tag) == FlowKey(QuestionTag(q))
    ensures Collides(s, q)
  {
    var flows := s.actor.flows;
    UnfinishedContains(flows.registered, flows.completed, i);
    var j :| 0 <= j < |flows.pending| && flows.pending[j] == Flow(tag, i);
  }

  lemma MisdeliveryUncorrelates(i0: Byte, t: System)
    requires InstancesCounted(i0, t) && Misdelivered(t, 8)
    ensures !Correlated(t)
  {
    forall i | 0 <= i < 8 ensures QuestionControlHeader(t.questions[i]) != QuestionControlHeader(t.questions[8]) {
      InstanceIdsDiffer(i0, t, i, 8);
    }
  }

  lemma NinthProbe(on: Platform, s: System, t0: Byte, i0: Byte)
    requires Sound(on, s) && Probed(s, t0, i0, 8, [])
    ensures CanFail(on, s, 9, 0)
  {
    EightApart(t0, s.questions[0], Asked(s, PROBE));
    FlowsOfQuestions(on, s, 0);
    PendingCollides(s, QuestionTag(s.questions[0]), 0, Asked(s, PROBE));
    var moves := CollidingRun(on, s);
    ExecKeepsInstancesCounted(on, i0, s, moves);
    MisdeliveryUncorrelates(i0, Exec(on, s, moves));
    assert Fails(on, s, moves, 9);
  }

  lemma CollidingRun(on: Platform, s: System) returns (moves: seq<Move>)
    requires Sound(on, s) && s.actor.alive && Collides(s, Asked(s, PROBE)) && |s.questions| == 8
    ensures Misdelivers(on, s, moves, 8) && Copies(moves) == 0 && Windowed(on, s, moves, 9)
  {
    var b, c := CollidingMoves(on, s);
    moves := [PROBE, b, c];
    NoCopyInThree(b, c);
    OneAskWindowed(on, s, b, c);
  }

  lemma NoCopyInThree(b: Move, c: Move)
    requires b.Serve? && c.Deliver?
    ensures Copies([PROBE, b, c]) == 0
  {
    assert [PROBE, b, c][1..] == [b, c] && [b, c][1..] == [c] && [c][1..] == [];
    assert Copies([c]) == 0;
  }

  lemma CollidingMoves(on: Platform, s: System) returns (b: Move, c: Move)
    requires Sound(on, s) && s.actor.alive && Collides(s, Asked(s, PROBE)) && |s.questions| == 8
    ensures b.Serve? && c.Deliver? && Misdelivers(on, s, [PROBE, b, c], 8)
  {
    ProbeIsAnswered(on, s);
    CollisionMisdelivers(on, s, PROBE);
    var p, r :| Misdelivers(on, s, [PROBE, Serve(p, FRESH_PEER), Deliver(r)], |s.questions|);
    b, c := Serve(p, FRESH_PEER), Deliver(r);
  }

  lemma OneAskWindowed(on: Platform, s: System, b: Move, c: Move)
    requires |s.questions| <= 8 && !b.Ask? && !c.Ask?
    ensures Windowed(on, s, [PROBE, b, c], 9)
  {
    var s1 := Next(on, s, PROBE);
    assert [PROBE, b, c][1..] == [b, c] && [b, c][1..] == [c] && [c][1..] == [];
    assert Windowed(on, Next(on, s1, b), [c], 9);
    assert Windowed(on, s1, [b, c], 9);
  }

  lemma ShortHistoryFits(s: System, w: nat)
    requires |s.questions| < w
    ensures WindowOpen(s, w)
  {
  }

  lemma {:induction false} ProbesUntilTheNinth(on: Platform, s: System, t0: Byte, i0: Byte, n: nat)
    requires n <= 8 && Sound(on, s) && Probed(s, t0, i0, n, [])
    ensures CanFail(on, s, 9, 0)
    decreases 8 - n
  {
    if n == 8 {
      NinthProbe(on, s, t0, i0);
    } else {
      ShortHistoryFits(s, 8);
      ShortHistoryFits(s, 9);
      ProbeAgain(on, s, t0, i0, n, []);
      ProbesUntilTheNinth(on, Next(on, s, PROBE), t0, i0, n + 1);
      CanFailLater(on, s, PROBE, 9, 0);
    }
  }

  lemma {:induction false} NarrowerWindow(on: Platform, s: System, moves: seq<Move>, v: nat, w: nat)
    requires v <= w && Windowed(on, s, moves, v)
    ensures Windowed(on, s, moves, w)
    decreases |moves|
  {
    if moves != [] {
      NarrowerWindow(on, Next(on, s, moves[0]), moves[1..], v, w);
    }
  }

  /** The exact width: over a channel that reorders and loses, every run within a window of `w` consecutive
      allocations gives each responder its own reply if and only if `w` is at most eight. */
  lemma WindowIsSafeExactlyUpToEight(on: Platform, s: System, w: nat)
    requires Initial(s) && s.actor.alive
    ensures (forall moves :: Faithful(on, s, moves) && Windowed(on, s, moves, w) ==> Correlated(Exec(on, s, moves)))
       <==> w <= 8
  {
    if w <= 8 {
      forall moves | Faithful(on, s, moves) && Windowed(on, s, moves, w) ensures Correlated(Exec(on, s, moves)) {
        NarrowerWindow(on, s, moves, w, 8);
        WindowOfEightIsSafe(on, s, moves);
      }
    } else {
      InitialIsSound(on, s);
      ProbesUntilTheNinth(on, s, s.tagCounter, s.instanceCounter, 0);
      var moves :| Fails(on, s, moves, 9) && Copies(moves) == 0;
      FaithfulMakesNoCopies(on, s, moves);
      NarrowerWindow(on, s, moves, 9, w);
    }
  }

  // ----- one duplicate -----

  function WithCopy(s: System, p: Packet): System {
    s.(wire := s.wire + multiset{p})
  }

  lemma ProbeBesideCopy(on: Platform, s: System, p: Packet)
    requires s.actor.alive
    ensures Next(on, WithCopy(s, p), PROBE) == WithCopy(Next(on, s, PROBE), p)
    ensures Enabled(on, WithCopy(s, p), PROBE) == Enabled(on, s, PROBE)
  {
    ProbeIsAnswered(on, s);
    AskStep(on, s, Asked(s, PROBE));
    AskStep(on, WithCopy(s, p), Asked(s, PROBE));
    var frame := BusOwnerFrame(on.build, QuestionBytes(Asked(s, PROBE)), on.pec).value;
    var asked := Packet(|s.questions|, false, frame);
    assert s.wire + multiset{p} + multiset{asked} == s.wire + multiset{asked} + multiset{p};
  }

  lemma CopyFindsTheNinth(on: Platform, s: System, payload: Buffer, t0: Byte, i0: Byte)
    requires Sound(on, s) && Probed(s, t0, i0, 9, [0]) && 0 in s.answers && s.answers[0] == payload
    ensures var at := FirstMatch(s.actor.flows.pending, CreateTag(payload));
            at < |s.actor.flows.pending| && s.actor.flows.pending[at].responder == 8
  {
    FlowsOfQuestions(on, s, 8);
    AnswerTag(s.questions[0], payload);
    EightApart(t0, s.questions[0], s.questions[8]);
    AnswerCompletesItsOwnFlow(s.actor.flows, 8, CreateTag(payload));
  }

  lemma AnswerOfOneOnly(p: Question, q: Question, payload: Buffer)
    requires QuestionControlHeader(p) != QuestionControlHeader(q) && IsAnswerTo(p, payload)
    ensures !IsAnswerTo(q, payload)
  {
  }

  lemma FirstAnswerIsNotTheNinths(on: Platform, s: System, i0: Byte)
    requires Meaningful(on, s) && InstancesCounted(i0, s) && |s.questions| == 9 && 0 in s.answers
    ensures !IsAnswerTo(s.questions[8], s.answers[0])
  {
    InstanceIdsDiffer(i0, s, 0, 8);
    AnswerOfOneOnly(s.questions[0], s.questions[8], s.answers[0]);
  }

  /** After eight more probes the copy of the first reply completes the ninth flow. */
  lemma CopyCompletesTheNinth(on: Platform, s: System, p: Packet, t0: Byte, i0: Byte)
    requires Sound(on, s) && Probed(s, t0, i0, 9, [0])
    requires p.isReply && !Malformed(p.frame) && 0 in s.answers && s.answers[0] == p.frame[4..]
    ensures CanFail(on, WithCopy(s, p), 8, 0)
  {
    CopyFindsTheNinth(on, s, p.frame[4..], t0, i0);
    FirstAnswerIsNotTheNinths(on, s, i0);
    CopyCanFail(on, s, p, 8);
  }

  lemma CopyCanFail(on: Platform, s: System, p: Packet, i: nat)
    requires s.actor.alive && p.isReply && !Malformed(p.frame) && i < |s.questions|
    requires var at := FirstMatch(s.actor.flows.pending, CreateTag(p.frame[4..]));
             at < |s.actor.flows.pending| && s.actor.flows.pending[at].responder == i
    requires !IsAnswerTo(s.questions[i], p.frame[4..])
    ensures CanFail(on, WithCopy(s, p), 8, 0)
  {
    DeliverStep(on, WithCopy(s, p), p);
    LastDeliveryFails(on, WithCopy(s, p), p, i);
  }

  lemma LastDeliveryFails(on: Platform, s: System, p: Packet, i: nat)
    requires p in s.wire && p.isReply && |p.frame| >= 4 && Next(on, s, Deliver(p)) == WithDelivery(s, p, i)
    requires i < |s.questions| && !IsAnswerTo(s.questions[i], p.frame[4..])
    ensures Fails(on, s, [Deliver(p)], 8) && Copies([Deliver(p)]) == 0
  {
    assert [Deliver(p)][1..] == [];
    assert Copies([Deliver(p)]) == 0;
    assert Exec(on, s, [Deliver(p)]) == WithDelivery(s, p, i);
  }

  lemma {:induction false} ProbesUntilTheCopy(on: Platform, s: System, p: Packet, t0: Byte, i0: Byte, n: nat)
    requires 1 <= n <= 9 && Sound(on, s) && Probed(s, t0, i0, n, [0])
    requires p.isReply && !Malformed(p.frame) && 0 in s.answers && s.answers[0] == p.frame[4..]
    ensures CanFail(on, WithCopy(s, p), 8, 0)
    decreases 9 - n
  {
    if n == 9 {
      CopyCompletesTheNinth(on, s, p, t0, i0);
    } else {
      FirstIsOutOfTheWindow(s, n);
      ProbeAgain(on, s, t0, i0, n, [0]);
      ProbeBesideCopy(on, s, p);
      AskStep(on, s, Asked(s, PROBE));
      ProbesUntilTheCopy(on, Next(on, s, PROBE), p, t0, i0, n + 1);
      CanFailLater(on, WithCopy(s, p), PROBE, 8, 0);
    }
  }

  /** With the first request completed, eight more fit the window. */
  lemma FirstIsOutOfTheWindow(s: System, n: nat)
    requires Routed(s) && |s.questions| == n <= 8 && s.actor.flows.completed == [0]
    ensures WindowOpen(s, 8)
  {
    var flows := s.actor.flows;
    forall j | 0 <= j < |flows.pending| ensures n < flows.pending[j].responder + 8 {
      UnfinishedFlow(flows.registered, flows.completed, j);
    }
  }

  lemma ServedProbe(on: Platform, s: System, frame: Buffer)
    requires Routed(s) && s.actor.alive && IsFrameOf(on, Asked(s, PROBE), frame) && |frame| >= 4 && Answered(frame[4..])
    ensures var asked := Packet(|s.questions|, false, frame);
            var p := Packet(|s.questions|, true, ReplyFrame(on, frame[4..]));
            var s1 := Next(on, s, PROBE);
            var s2 := Next(on, s1, Serve(asked, FRESH_PEER));
            && Enabled(on, s1, Serve(asked, FRESH_PEER)) && p in s2.wire
            && !Malformed(p.frame) && |s.questions| in s2.answers && s2.answers[|s.questions|] == p.frame[4..]
            && s2 == s1.(wire := s2.wire, answers := s2.answers)
  {
    AskedAndServed(on, s, Asked(s, PROBE));
    ProbeStep(on, s, frame);
    AnswerInFlight(s, Asked(s, PROBE), frame, ReplyFrame(on, frame[4..]));
  }

  lemma ProbedWhateverTheWire(s: System, t: System, t0: Byte, i0: Byte, n: nat, completed: seq<nat>)
    requires Probed(s, t0, i0, n, completed) && t == s.(wire := t.wire, answers := t.answers)
    ensures Probed(t, t0, i0, n, completed)
  {
  }

  /** The state behind one probe that was asked and answered, and the packets that did it. */
  lemma FirstProbeAnswered(on: Platform, s: System, t0: Byte, i0: Byte) returns (asked: Packet, p: Packet, s2: System)
    requires Sound(on, s) && Probed(s, t0, i0, 0, []) && WindowOpen(s, 8)
    ensures Enabled(on, s, PROBE) && Enabled(on, Next(on, s, PROBE), Serve(asked, FRESH_PEER))
    ensures s2 == Next(on, Next(on, s, PROBE), Serve(asked, FRESH_PEER)) && p in s2.wire
    ensures Sound(on, s2) && Probed(s2, t0, i0, 1, [])
    ensures p.origin == 0 && p.isReply && !Malformed(p.frame) && 0 in s2.answers && s2.answers[0] == p.frame[4..]
  {
    var frame := BusOwnerFrame(on.build, QuestionBytes(Asked(s, PROBE)), on.pec).value;
    ProbeIsAnswered(on, s);
    ProbeAgain(on, s, t0, i0, 0, []);
    ServedProbe(on, s, frame);
    asked, p := Packet(0, false, frame), Packet(0, true, ReplyFrame(on, frame[4..]));
    s2 := Next(on, Next(on, s, PROBE), Serve(asked, FRESH_PEER));
    NextKeepsSound(on, Next(on, s, PROBE), Serve(asked, FRESH_PEER));
    ProbedWhateverTheWire(Next(on, s, PROBE), s2, t0, i0, 1, []);
    ProbeStep(on, s, frame);
  }

  lemma ProbedAfterDelivery(s: System, p: Packet, t0: Byte, i0: Byte)
    requires Probed(s, t0, i0, 1, []) && |p.frame| >= 4
    requires var pending, at := s.actor.flows.pending, FirstMatch(s.actor.flows.pending, CreateTag(p.frame[4..]));
             at < |pending| && pending[at].responder == 0
    ensures Probed(WithDelivery(s, p, 0), t0, i0, 1, [0])
  {
  }

  lemma FirstProbeDelivered(on: Platform, s: System, p: Packet, t0: Byte, i0: Byte)
    requires Sound(on, s) && Probed(s, t0, i0, 1, []) && p in s.wire && p.isReply && p.origin == 0
    ensures Sound(on, Next(on, s, Deliver(p))) && Probed(Next(on, s, Deliver(p)), t0, i0, 1, [0])
    ensures Next(on, s, Deliver(p)).answers == s.answers
    ensures Next(on, WithCopy(s, p), Deliver(p)) == WithCopy(Next(on, s, Deliver(p)), p)
  {
    ReplyFindsItsFlow(on, s, p);
    DeliverStep(on, s, p);
    ProbedAfterDelivery(s, p, t0, i0);
    DeliverBesideCopy(on, s, p);
    DeliverKeepsSound(on, s, p);
  }

  lemma DeliverBesideCopy(on: Platform, s: System, p: Packet)
    requires s.actor.alive && !Malformed(p.frame) && p in s.wire
    requires FirstMatch(s.actor.flows.pending, CreateTag(p.frame[4..])) < |s.actor.flows.pending|
    ensures Next(on, WithCopy(s, p), Deliver(p)) == WithCopy(Next(on, s, Deliver(p)), p)
  {
    DeliverStep(on, s, p);
    DeliverStep(on, WithCopy(s, p), p);
    assert s.wire + multiset{p} - multiset{p} == s.wire - multiset{p} + multiset{p};
  }

  /** Without the assumption on the channel the theorem fails: from every initial state there is a run within
      a window of eight in which a single duplicated packet gives some responder a reply not its own. */
  lemma OneDuplicateMisdelivers(on: Platform, s: System)
    requires Initial(s) && s.actor.alive
    ensures exists moves :: Fails(on, s, moves, 8) && Copies(moves) == 1
  {
    InitialIsSound(on, s);
    ShortHistoryFits(s, 8);
    RunWithADuplicate(on, s, s.tagCounter, s.instanceCounter);
  }

  /** The exact tolerance: within a window of eight, runs with at most `d` duplicated packets give each
      responder its own reply if and only if `d` is 0. */
  lemma SafeExactlyWithoutDuplicates(on: Platform, s: System, d: nat)
    requires Initial(s) && s.actor.alive
    ensures (forall moves :: Allowed(on, s, moves) && Windowed(on, s, moves, 8) && Copies(moves) <= d ==>
               Correlated(Exec(on, s, moves)))
       <==> d == 0
  {
    if d == 0 {
      forall moves | Allowed(on, s, moves) && Windowed(on, s, moves, 8) && Copies(moves) <= 0
        ensures Correlated(Exec(on, s, moves))
      {
        FaithfulMakesNoCopies(on, s, moves);
        WindowOfEightIsSafe(on, s, moves);
      }
    } else {
      OneDuplicateMisdelivers(on, s);
    }
  }

  lemma RunWithADuplicate(on: Platform, s: System, t0: Byte, i0: Byte)
    requires Sound(on, s) && Probed(s, t0, i0, 0, []) && WindowOpen(s, 8)
    ensures CanFail(on, s, 8, 1)
  {
    var asked, p, s2 := FirstProbeAnswered(on, s, t0, i0);
    DuplicateBehindFirst(on, s2, p, t0, i0);
    CanFailLater(on, Next(on, s, PROBE), Serve(asked, FRESH_PEER), 8, 1);
    CanFailLater(on, s, PROBE, 8, 1);
  }

  lemma DuplicateBehindFirst(on: Platform, s: System, p: Packet, t0: Byte, i0: Byte)
    requires Sound(on, s) && Probed(s, t0, i0, 1, []) && p in s.wire
    requires p.origin == 0 && p.isReply && !Malformed(p.frame) && 0 in s.answers && s.answers[0] == p.frame[4..]
    ensures CanFail(on, s, 8, 1)
  {
    CopyOfFirst(on, s, p, t0, i0);
    CanFailLater(on, s, Duplicate(p), 8, 0);
  }

  lemma CopyOfFirst(on: Platform, s: System, p: Packet, t0: Byte, i0: Byte)
    requires Sound(on, s) && Probed(s, t0, i0, 1, []) && p in s.wire
    requires p.origin == 0 && p.isReply && !Malformed(p.frame) && 0 in s.answers && s.answers[0] == p.frame[4..]
    ensures CanFail(on, WithCopy(s, p), 8, 0)
  {
    FirstProbeDelivered(on, s, p, t0, i0);
    ProbesUntilTheCopy(on, Next(on, s, Deliver(p)), p, t0, i0, 1);
    CanFailLater(on, WithCopy(s, p), Deliver(p), 8, 0);
  }
}
