/** The simple network: socket descriptors, bindings of an address and tag to a descriptor, sends that
    register a flow, and the receive callback that completes flows. */
module SimpleNetworks {
  import opened Bytes
  import opened Headers
  import opened Smbus
  import opened Flows

  type Int32 = x: int | -0x8000_0000 <= x < 0x8000_0000

  /** `fetch_add(1)` on an `AtomicI32` wraps in every build. */
  function Wrap32(x: int): Int32 {
    (x + 0x8000_0000) % 0x1_0000_0000 - 0x8000_0000
  }

  datatype Client = Client(address: Byte, msgType: Byte, tag: Byte)

  datatype SocketAddress =
    | Basic(address: Byte, msgType: Byte, tag: Byte)
    | Extended(address: Byte, network: nat, bindingId: nat, phyAddr: nat)

  datatype Network = Network(clients: map<Int32, Client>, numClients: Int32, flows: FlowState)

  datatype Event =
    | Socket
    | Bind(sd: Int32, client: Client)
    | Sendto(sd: Int32, payload: Buffer, addr: SocketAddress)
    | Receive(frame: Buffer)

  datatype Outcome =
    | Opened(sd: Int32)
    | Bound
    | InvalidSocket
    | InvalidBinding
    | Transmitted(hdr: TransportHeader, frame: Buffer)
    | Panicked
    | Completed(responder: nat, payload: Buffer)
    | Unclaimed
    | Dropped

  datatype Step = Step(network: Network, outcome: Outcome)

  /** The build, the checksum and the address of the physical binding are fixed for a whole run. */
  datatype Platform = Platform(build: Build, pec: Checksum, address: Byte)

  /** `num_clients - 1`; `None` is the overflow panic of a checked build. */
  function Newest(build: Build, numClients: Int32): Option<Int32> {
    if numClients > -0x8000_0000 then Some(numClients - 1)
    else if build.Checked? then None
    else Some(0x7FFF_FFFF)
  }

  function BindStep(on: Platform, s: Network, sd: Int32, client: Client): Step {
    match Newest(on.build, s.numClients)
    case None => Step(s, Panicked)
    case Some(newest) =>
      if sd < newest then Step(s, InvalidSocket) else Step(s.(clients := s.clients[sd := client]), Bound)
  }

  function SendHeader(client: Client, address: Byte): TransportHeader {
    TransportHeader.New(client.address, address, client.tag, true, true, true)
  }

  /** The flow is registered before the frame is handed to the binding, whose refusal panics. */
  function SendtoStep(on: Platform, s: Network, sd: Int32, payload: Buffer, addr: SocketAddress): Step {
    match addr
    case Basic(_, _, _) => Step(s, Panicked)
    case Extended(address, _, bindingId, phyAddr) =>
      if bindingId != 1 then Step(s, InvalidBinding)
      else if sd !in s.clients then Step(s, InvalidSocket)
      else
        var hdr := SendHeader(s.clients[sd], address);
        var msg := hdr.Encode() + payload;
        var registered := s.(flows := RegisterFlow(s.flows, CreateTag(msg)));
        if ValidateSmbusAddress(phyAddr) && |msg| < 256
        then Step(registered, Transmitted(hdr, BindingFrame(phyAddr % 0x80, on.address, msg, on.pec)))
        else Step(registered, Panicked)
  }

  function ReceiveStep(s: Network, frame: Buffer): Step {
    if |frame| < 4 then Step(s, Dropped)
    else
      var recv := CreateTag(frame[4..]);
      var i := FirstMatch(s.flows.pending, recv);
      if i < |s.flows.pending|
      then Step(s.(flows := ArriveFlow(s.flows, recv)), Completed(s.flows.pending[i].responder, frame[4..]))
      else Step(s, Unclaimed)
  }

  function NetworkStep(on: Platform, s: Network, e: Event): Step {
    match e
    case Socket => Step(s.(numClients := Wrap32(s.numClients + 1)), Opened(s.numClients))
    case Bind(sd, client) => BindStep(on, s, sd, client)
    case Sendto(sd, payload, addr) => SendtoStep(on, s, sd, payload, addr)
    case Receive(frame) => ReceiveStep(s, frame)
  }

  datatype Run = Run(network: Network, outcomes: seq<Outcome>)

  const EMPTY_NETWORK := Network(map[], 0, NO_FLOWS)

  function NetworkRun(on: Platform, events: seq<Event>): (r: Run)
    ensures |r.outcomes| == |events|
  {
    if events == [] then Run(EMPTY_NETWORK, [])
    else
      var before := NetworkRun(on, events[..|events| - 1]);
      var step := NetworkStep(on, before.network, events[|events| - 1]);
      Run(step.network, before.outcomes + [step.outcome])
  }

  // ----- descriptors -----

  function SocketsOpened(events: seq<Event>): nat {
    if events == [] then 0
    else SocketsOpened(events[..|events| - 1]) + (if events[|events| - 1].Socket? then 1 else 0)
  }

  lemma Wrap32Next(n: int)
    ensures Wrap32(Wrap32(n) + 1) == Wrap32(n + 1)
  {
    var q := (n + 0x8000_0000) / 0x1_0000_0000;
    assert Wrap32(n) == n - q * 0x1_0000_0000;
    var p := (n + 1 + 0x8000_0000) / 0x1_0000_0000;
    assert Wrap32(n + 1) == n + 1 - p * 0x1_0000_0000;
  }

  lemma {:induction false} NextDescriptor(on: Platform, events: seq<Event>)
    ensures NetworkRun(on, events).network.numClients == Wrap32(SocketsOpened(events))
  {
    if events != [] {
      NextDescriptor(on, events[..|events| - 1]);
      Wrap32Next(SocketsOpened(events[..|events| - 1]));
    }
  }

  lemma {:induction false} OutcomePrefix(on: Platform, events: seq<Event>, i: nat)
    requires i < |events|
    ensures NetworkRun(on, events).outcomes[i]
        == NetworkStep(on, NetworkRun(on, events[..i]).network, events[i]).outcome
  {
    var n := |events| - 1;
    if i < n {
      OutcomePrefix(on, events[..n], i);
      assert events[..n][..i] == events[..i];
    }
  }

  lemma {:induction false} SocketsOpenedGrows(events: seq<Event>, i: nat, j: nat)
    requires i < j <= |events| && events[i].Socket?
    ensures SocketsOpened(events[..i]) < SocketsOpened(events[..j])
  {
    assert events[..j][..j - 1] == events[..j - 1];
    if i < j - 1 {
      SocketsOpenedGrows(events, i, j - 1);
    }
  }

  lemma Wrap32EqualExactly(a: int, b: int)
    ensures Wrap32(a) == Wrap32(b) <==> (b - a) % 0x1_0000_0000 == 0
  {
    SameResidue32Bit(a + 0x8000_0000, b + 0x8000_0000);
  }

  lemma SameResidue32Bit(a: int, b: int)
    ensures a % 0x1_0000_0000 == b % 0x1_0000_0000 <==> (b - a) % 0x1_0000_0000 == 0
  {
    var q := b / 0x1_0000_0000 - a / 0x1_0000_0000;
    assert b - a == 0x1_0000_0000 * q + (b % 0x1_0000_0000 - a % 0x1_0000_0000);
  }

  lemma DescriptorIssued(on: Platform, events: seq<Event>, i: nat)
    requires i < |events| && events[i].Socket?
    ensures NetworkRun(on, events).outcomes[i] == Opened(Wrap32(SocketsOpened(events[..i])))
  {
    OutcomePrefix(on, events, i);
    NextDescriptor(on, events[..i]);
  }

  /** Two sockets get the same descriptor exactly if the number of sockets opened from the one to the
      other is a multiple of 2^32, whatever else happens in between. */
  lemma DescriptorsEqualExactly(on: Platform, events: seq<Event>, i: nat, j: nat)
    requires i < j < |events| && events[i].Socket? && events[j].Socket?
    ensures NetworkRun(on, events).outcomes[i].Opened? && NetworkRun(on, events).outcomes[j].Opened?
    ensures NetworkRun(on, events).outcomes[i].sd == NetworkRun(on, events).outcomes[j].sd
       <==> (SocketsOpened(events[..j]) - SocketsOpened(events[..i])) % 0x1_0000_0000 == 0
  {
    DescriptorIssued(on, events, i);
    DescriptorIssued(on, events, j);
    Wrap32EqualExactly(SocketsOpened(events[..i]), SocketsOpened(events[..j]));
  }

  /** In particular all descriptors differ as long as the counter has not come round. */
  lemma DescriptorsAreDistinct(on: Platform, events: seq<Event>, i: nat, j: nat)
    requires i < j < |events| && events[i].Socket? && events[j].Socket?
    requires SocketsOpened(events[..j]) - SocketsOpened(events[..i]) < 0x1_0000_0000
    ensures NetworkRun(on, events).outcomes[i].Opened? && NetworkRun(on, events).outcomes[j].Opened?
    ensures NetworkRun(on, events).outcomes[i].sd != NetworkRun(on, events).outcomes[j].sd
  {
    DescriptorsEqualExactly(on, events, i, j);
    SocketsOpenedGrows(events, i, j);
  }

  /** What a bind comes to, from the counter: with the counter at the least integer, `num_clients - 1`
      overflows, which panics a checked build and leaves a wrapping one with the greatest as the newest. */
  lemma BindOutcome(on: Platform, s: Network, sd: Int32, client: Client)
    ensures var step := NetworkStep(on, s, Bind(sd, client));
            && (step.outcome.Panicked? <==> s.numClients == -0x8000_0000 && on.build.Checked?)
            && (step.outcome.Bound? <==>
                  if s.numClients == -0x8000_0000 then on.build.Wrapping? && sd == 0x7FFF_FFFF
                  else sd >= s.numClients - 1)
            && (step.outcome.Bound? || step.outcome.InvalidSocket? || step.outcome.Panicked?)
            && step.network == if step.outcome.Bound? then s.(clients := s.clients[sd := client]) else s
  {
  }

  /** A bind is accepted from the newest descriptor up, issued or not; so it accepts exactly the issued
      descriptors only as far as the newest one and the negative ones below it go. */
  lemma BindJudgesRightlyExactly(on: Platform, s: Network, sd: Int32, client: Client)
    requires s.numClients >= 0
    ensures (BindStep(on, s, sd, client).outcome.Bound? <==> 0 <= sd < s.numClients)
       <==> (sd == s.numClients - 1 && sd >= 0) || (sd < 0 && sd < s.numClients - 1)
  {
  }

  // ----- sent headers carry the most recent binding -----

  predicate BoundAt(events: seq<Event>, outcomes: seq<Outcome>, sd: Int32, j: nat)
    requires j < |events| == |outcomes|
  {
    events[j].Bind? && events[j].sd == sd && outcomes[j].Bound?
  }

  predicate LastBoundAt(events: seq<Event>, outcomes: seq<Outcome>, sd: Int32, j: nat)
    requires j < |events| == |outcomes|
  {
    BoundAt(events, outcomes, sd, j) && forall k :: j < k < |events| ==> !BoundAt(events, outcomes, sd, k)
  }

  predicate EverBound(events: seq<Event>, outcomes: seq<Outcome>, sd: Int32)
    requires |events| == |outcomes|
  {
    exists j :: 0 <= j < |events| && BoundAt(events, outcomes, sd, j)
  }

  /** A descriptor is known exactly if a bind on it was accepted, and then it stands for the client of the
      most recent one. */
  predicate ClientExplained(events: seq<Event>, run: Run, sd: Int32)
    requires |events| == |run.outcomes|
  {
    && (sd in run.network.clients <==> EverBound(events, run.outcomes, sd))
    && forall j :: 0 <= j < |events| && LastBoundAt(events, run.outcomes, sd, j) ==>
         sd in run.network.clients && run.network.clients[sd] == events[j].client
  }

  /** What an event does to the client of a descriptor. */
  lemma StepClients(on: Platform, s: Network, e: Event, sd: Int32)
    ensures var step := NetworkStep(on, s, e);
            if e.Bind? && e.sd == sd && step.outcome.Bound?
            then sd in step.network.clients && step.network.clients[sd] == e.client
            else
              && (sd in step.network.clients <==> sd in s.clients)
              && (sd in s.clients ==> step.network.clients[sd] == s.clients[sd])
  {
  }

  /** Binds before the last event are the same in the shorter run. */
  lemma BoundBefore(events: seq<Event>, outcomes: seq<Outcome>, sd: Int32)
    requires events != [] && |events| == |outcomes|
    ensures forall j :: 0 <= j < |events| - 1 ==>
      BoundAt(events[..|events| - 1], outcomes[..|events| - 1], sd, j) == BoundAt(events, outcomes, sd, j)
  {
  }

  lemma ExplainedByTheLast(events: seq<Event>, run: Run, sd: Int32)
    requires events != [] && |run.outcomes| == |events| && BoundAt(events, run.outcomes, sd, |events| - 1)
    requires sd in run.network.clients && run.network.clients[sd] == events[|events| - 1].client
    ensures ClientExplained(events, run, sd)
  {
  }

  lemma ExplainedAsBefore(events: seq<Event>, before: Run, run: Run, sd: Int32)
    requires events != [] && |run.outcomes| == |events| && run.outcomes[..|events| - 1] == before.outcomes
    requires ClientExplained(events[..|events| - 1], before, sd) && !BoundAt(events, run.outcomes, sd, |events| - 1)
    requires sd in run.network.clients <==> sd in before.network.clients
    requires sd in before.network.clients ==> run.network.clients[sd] == before.network.clients[sd]
    ensures ClientExplained(events, run, sd)
  {
    var n := |events| - 1;
    BoundBefore(events, run.outcomes, sd);
    forall j | 0 <= j < |events| && LastBoundAt(events, run.outcomes, sd, j)
      ensures LastBoundAt(events[..n], before.outcomes, sd, j)
    {
      forall k | j < k < n ensures !BoundAt(events[..n], before.outcomes, sd, k) {
        assert !BoundAt(events, run.outcomes, sd, k);
      }
    }
    if sd in before.network.clients {
      var j :| 0 <= j < n && BoundAt(events[..n], before.outcomes, sd, j);
      assert BoundAt(events, run.outcomes, sd, j);
    }
  }

  lemma {:induction false} ClientsAreTheLastBound(on: Platform, events: seq<Event>, sd: Int32)
    ensures ClientExplained(events, NetworkRun(on, events), sd)
  {
    if events != [] {
      var n := |events| - 1;
      var before := NetworkRun(on, events[..n]);
      ClientsAreTheLastBound(on, events[..n], sd);
      var run := NetworkRun(on, events);
      StepClients(on, before.network, events[n], sd);
      if BoundAt(events, run.outcomes, sd, n) {
        ExplainedByTheLast(events, run, sd);
      } else {
        ExplainedAsBefore(events, before, run, sd);
      }
    }
  }

  /** Of the accepted binds on a descriptor one is the last. */
  lemma {:induction false} SomeBindIsLast(events: seq<Event>, outcomes: seq<Outcome>, sd: Int32) returns (j: nat)
    requires |events| == |outcomes| && EverBound(events, outcomes, sd)
    ensures j < |events| && LastBoundAt(events, outcomes, sd, j)
  {
    var n := |events| - 1;
    if BoundAt(events, outcomes, sd, n) {
      j := n;
    } else {
      assert forall i :: 0 <= i < n ==> BoundAt(events[..n], outcomes[..n], sd, i) == BoundAt(events, outcomes, sd, i);
      j := SomeBindIsLast(events[..n], outcomes[..n], sd);
    }
  }

  /** The bind that a known descriptor stands for. */
  lemma BindOf(on: Platform, events: seq<Event>, sd: Int32) returns (j: nat)
    requires sd in NetworkRun(on, events).network.clients
    ensures j < |events| && LastBoundAt(events, NetworkRun(on, events).outcomes, sd, j)
    ensures events[j].client == NetworkRun(on, events).network.clients[sd]
  {
    ClientsAreTheLastBound(on, events, sd);
    j := SomeBindIsLast(events, NetworkRun(on, events).outcomes, sd);
  }

  lemma TransmittedHeader(on: Platform, s: Network, e: Event)
    requires NetworkStep(on, s, e).outcome.Transmitted?
    ensures e.Sendto? && e.addr.Extended? && e.sd in s.clients
    ensures NetworkStep(on, s, e).outcome.hdr == SendHeader(s.clients[e.sd], e.addr.address)
  {
  }

  /** Every transmitted header carries the source EID and the low three tag bits of the most recent
      accepted bind on its descriptor, the destination of the call, and the owner bit. */
  lemma SentHeadersCarryTheirBinding(on: Platform, events: seq<Event>, i: nat)
    requires i < |events| && NetworkRun(on, events).outcomes[i].Transmitted?
    ensures events[i].Sendto? && events[i].addr.Extended?
    ensures var hdr := NetworkRun(on, events).outcomes[i].hdr;
            exists j :: 0 <= j < i && LastBoundAt(events[..i], NetworkRun(on, events[..i]).outcomes, events[i].sd, j)
                        && hdr.sourceEid == events[j].client.address && hdr.msgTag == events[j].client.tag % 8
                        && hdr.destinationEid == events[i].addr.address && hdr.tagOwner
  {
    OutcomePrefix(on, events, i);
    TransmittedHeader(on, NetworkRun(on, events[..i]).network, events[i]);
    var j := BindOf(on, events[..i], events[i].sd);
    assert events[..i][j] == events[j];
  }

  // ----- what a send comes to -----

  /** The flow a send registers, from the client of its descriptor. */
  function SendTag(client: Client, address: Byte): MsgFlowTag {
    MsgFlowTag(address, client.address, client.tag % 8, true)
  }

  /** A send on a known descriptor over the binding registers its flow; it is transmitted exactly if the
      physical address is one of 0x08 to 0x77 and the payload leaves room for the header in 255 bytes, and
      panics otherwise. */
  lemma KnownSendOutcome(on: Platform, s: Network, sd: Int32, payload: Buffer, addr: SocketAddress)
    requires addr.Extended? && addr.bindingId == 1 && sd in s.clients
    ensures var step := SendtoStep(on, s, sd, payload, addr);
            && step.network == s.(flows := RegisterFlow(s.flows, SendTag(s.clients[sd], addr.address)))
            && (step.outcome.Transmitted? <==> 0x08 <= addr.phyAddr <= 0x77 && |payload| <= 251)
            && (step.outcome.Panicked? <==> !(0x08 <= addr.phyAddr <= 0x77 && |payload| <= 251))
  {
    ValidAddresses(addr.phyAddr);
    TagOfHeader(SendHeader(s.clients[sd], addr.address), payload);
  }

  /** When each outcome of a send occurs, after any events: the refusals, in this order and without any
      effect, and then the send itself under the client of the most recent accepted bind. */
  lemma SendOutcomes(on: Platform, events: seq<Event>, sd: Int32, payload: Buffer, addr: SocketAddress)
    ensures var run := NetworkRun(on, events);
            var step := NetworkStep(on, run.network, Sendto(sd, payload, addr));
            if addr.Basic? then step == Step(run.network, Panicked)
            else if addr.bindingId != 1 then step == Step(run.network, InvalidBinding)
            else if !EverBound(events, run.outcomes, sd) then step == Step(run.network, InvalidSocket)
            else
              && (step.outcome.Transmitted? <==> 0x08 <= addr.phyAddr <= 0x77 && |payload| <= 251)
              && (step.outcome.Panicked? <==> !(0x08 <= addr.phyAddr <= 0x77 && |payload| <= 251))
              && exists j :: 0 <= j < |events| && LastBoundAt(events, run.outcomes, sd, j)
                   && step.network == run.network.(flows :=
                        RegisterFlow(run.network.flows, SendTag(events[j].client, addr.address)))
  {
    var run := NetworkRun(on, events);
    ClientsAreTheLastBound(on, events, sd);
    if addr.Extended? && addr.bindingId == 1 && EverBound(events, run.outcomes, sd) {
      KnownSendOutcome(on, run.network, sd, payload, addr);
      var j := BindOf(on, events, sd);
    }
  }

  /** Every transmitted frame goes to the physical address of the call, from the binding's own; its byte
      count frames exactly the header and the payload; and the tag read from the frame is the one its flow
      was registered under. */
  lemma TransmittedFramesReadBack(on: Platform, s: Network, sd: Int32, payload: Buffer, addr: SocketAddress)
    requires on.address < 0x80 && SendtoStep(on, s, sd, payload, addr).outcome.Transmitted?
    ensures addr.Extended?
    ensures var Step(after, Transmitted(hdr, frame)) := SendtoStep(on, s, sd, payload, addr);
            && DecodeSmbusHeader(frame).Ok?
            && var phys := DecodeSmbusHeader(frame).value;
            && phys.destAddr / 2 == addr.phyAddr && phys.srcAddr / 2 == on.address
            && frame[4..4 + phys.byteCount] == hdr.Encode() + payload
            && after.flows == RegisterFlow(s.flows, CreateTag(frame[4..]))
  {
    var Step(after, Transmitted(hdr, frame)) := SendtoStep(on, s, sd, payload, addr);
    var msg := hdr.Encode() + payload;
    ValidAddresses(addr.phyAddr);
    BindingFrameReadBack(addr.phyAddr, on.address, msg, on.pec);
    assert msg + [on.pec(msg)] == hdr.Encode() + (payload + [on.pec(msg)]);
    TagOfHeader(hdr, payload);
    TagOfHeader(hdr, payload + [on.pec(msg)]);
  }

  // ----- what a received frame comes to -----

  /** The responders that a received buffer could complete, oldest first. */
  function Awaited(s: Network, buf: Buffer): seq<nat> {
    Queue(s.flows.pending, ReplyKey(CreateTag(buf)))
  }

  /** Every frame has one outcome, decided by its bytes and the queue it addresses: dropped if it has no SMBus
      header, unclaimed if nothing waits, and otherwise completing the oldest flow of the queue with the bytes
      behind the header. Only a completion changes anything, and that queue alone. */
  lemma ReceiveOutcome(on: Platform, s: Network, frame: Buffer)
    ensures var step := NetworkStep(on, s, Receive(frame));
            && (step.outcome.Dropped? <==> |frame| < 4)
            && (|frame| < 4 ==> step == Step(s, Dropped))
            && (|frame| >= 4 && Awaited(s, frame[4..]) == [] ==> step == Step(s, Unclaimed))
            && (|frame| >= 4 && Awaited(s, frame[4..]) != [] ==>
                  && step.outcome == Completed(Awaited(s, frame[4..])[0], frame[4..])
                  && step.network == s.(flows := step.network.flows)
                  && Awaited(step.network, frame[4..]) == Awaited(s, frame[4..])[1..]
                  && forall k :: k != ReplyKey(CreateTag(frame[4..])) ==>
                       Queue(step.network.flows.pending, k) == Queue(s.flows.pending, k))
  {
    if |frame| >= 4 {
      FirstMatchIsDequeue(s.flows.pending, CreateTag(frame[4..]));
    }
  }

  // ----- flows -----

  lemma SendFlow(on: Platform, s: Network, sd: Int32, payload: Buffer, addr: SocketAddress)
    ensures var after := SendtoStep(on, s, sd, payload, addr).network;
            || after == s
            || (addr.Extended? && sd in s.clients
                && after == s.(flows := RegisterFlow(s.flows,
                                    MsgFlowTag(addr.address, s.clients[sd].address, s.clients[sd].tag % 8, true))))
  {
    if addr.Extended? && sd in s.clients {
      TagOfHeader(SendHeader(s.clients[sd], addr.address), payload);
    }
  }

  predicate AllOwned(flows: FlowState) {
    forall i :: 0 <= i < |flows.registered| ==> flows.registered[i].tagOwner
  }

  /** In every interleaving flows are conserved, complete in order per key, and all carry the owner bit. */
  lemma {:induction false} NetworkRunConservesFlows(on: Platform, events: seq<Event>)
    ensures var flows := NetworkRun(on, events).network.flows;
            Conserved(flows) && Fifo(flows) && AllOwned(flows)
  {
    if events != [] {
      var e := events[|events| - 1];
      var s := NetworkRun(on, events[..|events| - 1]).network;
      NetworkRunConservesFlows(on, events[..|events| - 1]);
      match e {
        case Sendto(sd, payload, addr) =>
          SendFlow(on, s, sd, payload, addr);
          if addr.Extended? && sd in s.clients {
            var op := Register(MsgFlowTag(addr.address, s.clients[sd].address, s.clients[sd].tag % 8, true));
            StepConserves(s.flows, op);
            StepKeepsFifo(s.flows, op);
          }
        case Receive(frame) =>
          if |frame| >= 4 {
            StepConserves(s.flows, Arrive(CreateTag(frame[4..])));
            StepKeepsFifo(s.flows, Arrive(CreateTag(frame[4..])));
          }
        case _ =>
      }
    }
  }

  /** Flows once registered stay registered. */
  lemma {:induction false} RegisteredStays(on: Platform, events: seq<Event>, i: nat)
    requires i <= |events|
    ensures NetworkRun(on, events[..i]).network.flows.registered <= NetworkRun(on, events).network.flows.registered
  {
    if i < |events| {
      var n := |events| - 1;
      assert events[..n][..i] == events[..i];
      RegisteredStays(on, events[..n], i);
      StepRegisters(on, NetworkRun(on, events[..n]).network, events[n]);
    } else {
      assert events[..i] == events;
    }
  }

  lemma StepRegisters(on: Platform, s: Network, e: Event)
    ensures s.flows.registered <= NetworkStep(on, s, e).network.flows.registered
  {
  }

  /** The flow of a transmitted message is registered under the tag of its header. */
  lemma SendIsRegistered(on: Platform, events: seq<Event>, i: nat)
    requires i < |events| && NetworkRun(on, events).outcomes[i].Transmitted?
    ensures var r := |NetworkRun(on, events[..i]).network.flows.registered|;
            var registered := NetworkRun(on, events).network.flows.registered;
            r < |registered| && registered[r] == TagOf(NetworkRun(on, events).outcomes[i].hdr)
  {
    OutcomePrefix(on, events, i);
    var s := NetworkRun(on, events[..i]).network;
    TransmittedHeader(on, s, events[i]);
    TagOfHeader(SendHeader(s.clients[events[i].sd], events[i].addr.address), events[i].payload);
    assert events[..i + 1][..i] == events[..i];
    RegisteredStays(on, events, i + 1);
  }

  function TagOf(hdr: TransportHeader): MsgFlowTag {
    MsgFlowTag(hdr.destinationEid, hdr.sourceEid, hdr.msgTag, hdr.tagOwner)
  }

  /** An older flow waits under the same key. */
  predicate Overtaken(pending: seq<Flow>, r: nat, k: Key) {
    exists j :: 0 <= j < |pending| && pending[j].responder < r && FlowKey(pending[j].tag) == k
  }

  lemma OldestOfKey(flows: FlowState, r: nat, recv: MsgFlowTag)
    requires Conserved(flows) && r < |flows.registered| && r !in flows.completed
    requires FlowKey(flows.registered[r]) == ReplyKey(recv)
    ensures var at := FirstMatch(flows.pending, recv);
            at < |flows.pending|
            && (flows.pending[at].responder == r <==> !Overtaken(flows.pending, r, ReplyKey(recv)))
  {
    UnfinishedContains(flows.registered, flows.completed, r);
    var j :| 0 <= j < |flows.pending| && flows.pending[j] == Flow(flows.registered[r], r);
    assert Matches(flows.pending[j].tag, recv);
    ConservedIsInOrder(flows);
  }

  lemma ReplyOutcome(on: Platform, s: Network, hdr: TransportHeader, r: nat, frame: Buffer, rest: Buffer)
    requires Conserved(s.flows) && r < |s.flows.registered| && r !in s.flows.completed
    requires s.flows.registered[r] == TagOf(hdr)
    requires |frame| >= 4 && frame[4..] == hdr.CreateResponse().Encode() + rest
    ensures var step := NetworkStep(on, s, Receive(frame));
            && step.outcome.Completed?
            && (step.outcome == Completed(r, frame[4..]) <==> !Overtaken(s.flows.pending, r, FlowKey(TagOf(hdr))))
  {
    TagOfHeader(hdr.CreateResponse(), rest);
    OldestOfKey(s.flows, r, CreateTag(frame[4..]));
  }

  /** The reply to a transmitted message: as long as its flow waits, a frame that carries the response header
      completes that very send, with the frame's bytes, exactly if no older send waits under the same key. */
  lemma ReplyCompletesItsSendExactly(on: Platform, events: seq<Event>, i: nat, hdr: TransportHeader, r: nat,
                                     frame: Buffer, rest: Buffer)
    requires i < |events| && NetworkRun(on, events).outcomes[i].Transmitted?
    requires hdr == NetworkRun(on, events).outcomes[i].hdr
    requires r == |NetworkRun(on, events[..i]).network.flows.registered|
    requires r !in NetworkRun(on, events).network.flows.completed
    requires |frame| >= 4 && frame[4..] == hdr.CreateResponse().Encode() + rest
    ensures var s := NetworkRun(on, events).network;
            var step := NetworkStep(on, s, Receive(frame));
            && step.outcome.Completed?
            && (step.outcome == Completed(r, frame[4..]) <==> !Overtaken(s.flows.pending, r, FlowKey(TagOf(hdr))))
  {
    SendIsRegistered(on, events, i);
    NetworkRunConservesFlows(on, events);
    ReplyOutcome(on, NetworkRun(on, events).network, hdr, r, frame, rest);
  }

  /** So a frame with the owner bit set, a request, never completes a flow. */
  lemma RequestsCompleteNothing(on: Platform, events: seq<Event>, frame: Buffer)
    requires |frame| >= 4 && CreateTag(frame[4..]).tagOwner
    ensures ReceiveStep(NetworkRun(on, events).network, frame) == Step(NetworkRun(on, events).network, Unclaimed)
  {
    NetworkRunConservesFlows(on, events);
    var flows := NetworkRun(on, events).network.flows;
    forall j | 0 <= j < |flows.pending| ensures flows.pending[j].tag.tagOwner {
      UnfinishedFlow(flows.registered, flows.completed, j);
    }
    OwnedFramesCompleteNothing(flows.pending, CreateTag(frame[4..]));
  }

  /** The key a send registers its flow under. */
  function SendKey(client: Client, address: Byte, payload: Buffer): Key {
    FlowKey(CreateTag(SendHeader(client, address).Encode() + payload))
  }

  /** The tag belongs to the binding, not to the message: two sends share a key exactly if they go to one
      endpoint from descriptors bound with the same low tag bits, one descriptor in particular; their replies
      are then told apart by order alone. */
  lemma SendsOfOneBindingShareAKey(a: Client, b: Client, x: Byte, y: Byte, payloadA: Buffer, payloadB: Buffer)
    ensures SendKey(a, x, payloadA) == SendKey(b, y, payloadB) <==> x == y && a.tag % 8 == b.tag % 8
  {
    TagOfHeader(SendHeader(a, x), payloadA);
    TagOfHeader(SendHeader(b, y), payloadB);
  }

  // ----- the network itself -----

  class SimpleNetwork {
    var clients: map<Int32, Client>
    var numClients: Int32
    const flows: PendingFlows
    const binding: SmbusNetDevBinding
    const build: Build
    const pec: Checksum

    ghost predicate Valid()
      reads this, flows
    {
      flows.Valid()
    }

    ghost function State(): Network
      reads this, flows
    {
      Network(clients, numClients, flows.State())
    }

    ghost function On(): Platform
      reads this, binding
    {
      Platform(build, pec, binding.address)
    }

    constructor (binding: SmbusNetDevBinding, build: Build, pec: Checksum)
      ensures Valid() && fresh(flows) && State() == EMPTY_NETWORK
      ensures this.binding == binding && this.build == build && this.pec == pec
    {
      this.binding, this.build, this.pec := binding, build, pec;
      clients, numClients := map[], 0;
      flows := new PendingFlows();
    }

    method OpenSocket() returns (sd: Int32)
      requires Valid()
      modifies this`numClients
      ensures Valid()
      ensures Step(State(), Opened(sd)) == NetworkStep(On(), old(State()), Socket)
    {
      sd := numClients;
      numClients := Wrap32(numClients + 1);
    }

    method BindSocket(sd: Int32, address: Byte, msgType: Byte, tag: Byte) returns (outcome: Outcome)
      requires Valid()
      modifies this`clients
      ensures Valid()
      ensures Step(State(), outcome) == NetworkStep(On(), old(State()), Bind(sd, Client(address, msgType, tag)))
    {
      var newest := Newest(build, numClients);
      if newest.None? {
        return Panicked;
      }
      if sd < newest.value {
        return InvalidSocket;
      }
      clients := clients[sd := Client(address, msgType, tag)];
      return Bound;
    }

    /** Up to the point where the caller waits for the response. */
    method SendMessage(sd: Int32, payload: Buffer, addr: SocketAddress) returns (outcome: Outcome)
      requires Valid()
      modifies flows
      ensures Valid()
      ensures Step(State(), outcome) == NetworkStep(On(), old(State()), Sendto(sd, payload, addr))
    {
      if addr.Basic? {
        return Panicked;
      }
      if addr.bindingId != 1 {
        return InvalidBinding;
      }
      var buf: Buffer := [];
      if sd !in clients {
        return InvalidSocket;
      }
      var client := clients[sd];
      var hdr := TransportHeader.New(client.address, addr.address, client.tag, true, true, true);
      buf := buf + hdr.Encode();
      buf := buf + payload;
      assert buf == SendHeader(client, addr.address).Encode() + payload;
      var _ := flows.Push(CreateTag(buf));
      SevenBits(addr.phyAddr);
      var sent := binding.BuildFrame(buf, addr.phyAddr, pec);
      match sent {
        case Framed(frame) =>
          return Transmitted(hdr, frame);
        case _ =>
          return Panicked;
      }
    }

    method OnReceive(frame: Buffer) returns (outcome: Outcome)
      requires Valid()
      modifies flows
      ensures Valid()
      ensures Step(State(), outcome) == NetworkStep(On(), old(State()), Receive(frame))
    {
      var header := DecodeSmbusHeader(frame);
      if header.Err? {
        return Dropped;
      }
      var buf := frame[4..];
      var responder := flows.Take(CreateTag(buf));
      if responder.Some? {
        return Completed(responder.value, buf);
      }
      return Unclaimed;
    }
  }
}
