/** The bus owner's discovery loop: Get Endpoint ID, then Set Endpoint ID, then Allocate Endpoint IDs,
    with a running `u8` cursor that carves single EIDs and bridge pools out of the EID space. */
module Discovery {
  import opened Bytes
  import opened Enums
  import opened Headers
  import opened Bodies
  import opened ControlPayloads

  // ----- requests -----

  datatype Op = AskEid(dst: Byte) | AssignEid(eid: Byte) | AllocatePool(first: Byte, count: Byte)

  /** A request as it is sent: the assigned EID and the two atomic counters read for it. */
  datatype Request = Request(src: Byte, tagCounter: Byte, instanceCounter: Byte, op: Op)

  function RequestHeader(r: Request): TransportHeader {
    TransportHeader.New(r.src, if r.op.AskEid? then r.op.dst else 0, r.tagCounter, true, true, true)
  }

  function RequestControlHeader(r: Request): ControlMsgHeader {
    var command := match r.op
                   case AskEid(_) => GetEndpointID
                   case AssignEid(_) => SetEndpointID
                   case AllocatePool(_, _) => AllocateEndpointIDs;
    ControlMsgHeader.New(command, r.instanceCounter, false, true, false)
  }

  function RequestBody(r: Request): Body {
    var hdr := RequestControlHeader(r);
    match r.op
    case AskEid(_) => GetEidRequest(hdr)
    case AssignEid(eid) => NewSetEidRequest(hdr, SetEid, eid)
    case AllocatePool(first, count) => NewAllocateRequest(hdr, AllocateEids, count, first)
  }

  function RequestBytes(r: Request): Buffer {
    Message(RequestHeader(r), RequestBody(r)).Encode()
  }

  /** The receiver of a request reads the EIDs of the operation and the low bits of both counters from
      the wire, whatever follows the message. */
  lemma RequestOnWire(r: Request, tail: Buffer)
    ensures var read := TryToResponse(RequestBody(r).Kind(), RequestBytes(r) + tail);
            && read.Ok?
            && var (p, m) := read.value;
            && p.hdr.sourceEid == r.src && p.hdr.msgTag == r.tagCounter % 8 && p.hdr.tagOwner
            && p.controlHdr.instanceId == r.instanceCounter % 32 && p.controlHdr.rq
            && match r.op
               case AskEid(dst) => p.hdr.destinationEid == dst && m.GetEidRequest?
               case AssignEid(eid) => p.hdr.destinationEid == 0 && m.SetEidRequest? && m.eid == eid
               case AllocatePool(first, count) =>
                 p.hdr.destinationEid == 0 && m.AllocateRequest? && m.startingEid == first && m.numberOfEids == count
  {
    MessageReadBack(RequestHeader(r), RequestBody(r), tail);
  }

  /** Every request byte by byte: version 1, destination, source, then start, end and owner bit with three
      tag bits; message type 0, request bit with five instance bits, command; then the operands. */
  function ReferenceBytes(r: Request): Buffer {
    var tags, ids := 0xC8 + r.tagCounter % 8, 0x80 + r.instanceCounter % 32;
    match r.op
    case AskEid(dst) => [1, dst, r.src, tags, 0, ids, 0x02]
    case AssignEid(eid) => [1, 0, r.src, tags, 0, ids, 0x01, 0, eid]
    case AllocatePool(first, count) => [1, 0, r.src, tags, 0, ids, 0x08, 0, count, first]
  }

  /** The reference after the transport header and the control header. */
  function ReferenceOperands(op: Op): Buffer {
    match op
    case AskEid(_) => []
    case AssignEid(eid) => [0, eid]
    case AllocatePool(first, count) => [0, count, first]
  }

  lemma RequestOperands(r: Request)
    ensures RequestBody(r).Fields() == ReferenceOperands(r.op)
  {
  }

  lemma RequestParts(r: Request, h: Buffer, c: Buffer, f: Buffer)
    requires h == RequestHeader(r).Encode() && c == RequestControlHeader(r).Encode() && f == RequestBody(r).Fields()
    ensures RequestBytes(r) == h + (c + f)
  {
  }

  lemma RequestMeetsReference(r: Request)
    ensures RequestBytes(r) == ReferenceBytes(r)
  {
    var dst := if r.op.AskEid? then r.op.dst else 0;
    var command := RequestControlHeader(r).command;
    NewHeaderBytes(r.src, dst, r.tagCounter, true, true, true);
    NewControlBytes(command, r.instanceCounter, false, true, false);
    var h := [1, dst, r.src, 0xC8 + r.tagCounter % 8];
    var c := [0, 0x80 + r.instanceCounter % 32, command.ToByte()];
    RequestOperands(r);
    RequestParts(r, h, c, ReferenceOperands(r.op));
    ReferenceParts(r, h, c);
  }

  lemma ReferenceParts(r: Request, h: Buffer, c: Buffer)
    requires h == [1, if r.op.AskEid? then r.op.dst else 0, r.src, 0xC8 + r.tagCounter % 8]
    requires c == [0, 0x80 + r.instanceCounter % 32, RequestControlHeader(r).command.ToByte()]
    ensures ReferenceBytes(r) == h + (c + ReferenceOperands(r.op))
  {
  }

  // ----- one poll of the loop -----

  /** The value `assigned_eid` has when a request is sent, and the bytes that come back for it. If none ever
      come the source waits for good; here the loop ends with the status of a failed request. */
  datatype Exchange = Exchange(src: Byte, reply: Option<Buffer>)

  /** What one iteration meets: the discovery flag it takes and the answers to the requests it may send. */
  datatype PollInput = PollInput(discover: bool, get: Exchange, assign: Exchange, allocate: Exchange)

  /** The poll of a loop whose flag stands at `flag`: whatever was raised since is taken with it. */
  function Taking(flag: bool, input: PollInput): PollInput {
    input.(discover := flag || input.discover)
  }

  /** A flag that is up before the loop starts is taken by its first poll. */
  function FirstTaking(flag: bool, polls: seq<PollInput>): (taken: seq<PollInput>)
    ensures |taken| == |polls|
    ensures forall i :: 0 <= i < |polls| ==> taken[i] == Taking(flag && i == 0, polls[i])
  {
    if polls == [] then [] else [Taking(flag, polls[0])] + polls[1..]
  }

  datatype Grant = Single(eid: Byte) | Pool(first: Byte, size: Byte)

  /** `Overflowed` is the overflow panic of a checked build, `PingPanicked` an unwrapped ping failure. */
  datatype Status = Running | Failed | Overflowed | PingPanicked

  /** `sent` and `grants` are the requests sent and the EIDs reserved so far. */
  datatype Loop = Loop(nextEid: Byte, tagCounter: Byte, instanceCounter: Byte,
                       sent: seq<Request>, grants: seq<Grant>, status: Status)

  function Send(l: Loop, src: Byte, op: Op): Loop {
    l.(tagCounter := Increment(l.tagCounter),
       instanceCounter := Increment(l.instanceCounter),
       sent := l.sent + [Request(src, l.tagCounter, l.instanceCounter, op)])
  }

  /** The decoded answer, or a failure if nothing came back, it did not decode or it reports an error. */
  function Answer(kind: Kind, ex: Exchange): (r: Result<Body>)
    requires kind in {GetEidResponseKind, SetEidResponseKind, AllocateResponseKind}
    ensures r.Ok? ==> r.value.Kind() == kind
  {
    match ex.reply
    case None => Err
    case Some(bytes) =>
      match TryToResponse(kind, bytes)
      case Err => Err
      case Ok((_, m)) => if m.IsSuccess() then Ok(m) else Err
  }

  /** Which bytes count as an answer, and the bits of it that steer the loop: byte 7 is the completion code,
      byte 8 holds the packed status, byte 9 the packed types and byte 10 the pool size asked for. */
  lemma AnswerFromBytes(kind: Kind, ex: Exchange)
    requires kind in {GetEidResponseKind, SetEidResponseKind, AllocateResponseKind}
    ensures Answer(kind, ex).Ok? <==> ex.reply.Some? && |ex.reply.value| >= 11 && ex.reply.value[7] == 0
    ensures var r := Answer(kind, ex);
            && (r.Ok? && r.value.GetEidResponse? ==>
                  && (EidTypeOf(r.value).Dynamic? <==> ex.reply.value[9] % 4 == 0)
                  && (EndpointTypeOf(r.value).BusOwnerOrBridge? <==> ex.reply.value[9] / 16 % 4 == 1))
            && (r.Ok? && r.value.SetEidResponse? ==>
                  && (AllocationStatusOf(r.value).RequiresPoolAllocation? <==> ex.reply.value[8] % 4 == 1)
                  && AssignmentBits(r.value) == ex.reply.value[8] / 16 % 4 && r.value.eidPoolSize == ex.reply.value[10])
            && (r.Ok? && r.value.AllocateResponse? ==>
                  (PoolStatusOf(r.value).AllocationAccepted? <==> ex.reply.value[8] % 4 == 0))
  {
    if ex.reply.Some? && |ex.reply.value| >= 7 {
      ParseKeepsEveryByte(ex.reply.value);
    }
  }

  function Reserve(l: Loop, grant: Grant, nextEid: Byte): Loop {
    l.(nextEid := nextEid, grants := l.grants + [grant])
  }

  /** The last EID of a pool, as the code computes it: the sum first, then minus one. */
  function LastOf(sum: Byte): Byte { (sum + 0xFF) % 0x100 }

  function PoolStep(build: Build, l: Loop, input: PollInput, size: Byte): Loop
    requires size > 0
  {
    match Add8(build, l.nextEid, size)
    case None => l.(status := Overflowed)
    case Some(sum) =>
      var first := l.nextEid;
      var reserved := Reserve(l, Pool(first, size), sum);
      if first == LastOf(sum) then reserved
      else
        var asked := Send(reserved, input.allocate.src, AllocatePool(first, size));
        match Answer(AllocateResponseKind, input.allocate)
        case Err => asked.(status := Failed)
        case Ok(r) => if PoolStatusOf(r).AllocationAccepted? then asked else asked.(status := Failed)
  }

  function AssignStep(build: Build, l: Loop, input: PollInput, endpointType: EndpointType): Loop {
    match Add8(build, l.nextEid, 1)
    case None => l.(status := Overflowed)
    case Some(next) =>
      var asked := Send(Reserve(l, Single(l.nextEid), next), input.assign.src, AssignEid(l.nextEid));
      match Answer(SetEidResponseKind, input.assign)
      case Err => asked.(status := Failed)
      case Ok(r) =>
        if AssignmentBits(r) != 0 then asked.(status := Failed)
        else if endpointType.BusOwnerOrBridge? && AllocationStatusOf(r).RequiresPoolAllocation? && r.eidPoolSize > 0
        then PoolStep(build, asked, input, r.eidPoolSize)
        else asked
  }

  function DiscoverStep(build: Build, l: Loop, input: PollInput): Loop {
    var asked := Send(l, input.get.src, AskEid(0));
    match Answer(GetEidResponseKind, input.get)
    case Err => asked.(status := Failed)
    case Ok(r) => if EidTypeOf(r).Dynamic? then AssignStep(build, asked, input, EndpointTypeOf(r)) else asked
  }

  function PingStep(l: Loop, input: PollInput, pingEid: Byte): Loop {
    if pingEid == 0 then l
    else
      var asked := Send(l, input.get.src, AskEid(pingEid));
      if Answer(GetEidResponseKind, input.get).Ok? then asked else asked.(status := PingPanicked)
  }

  function PollStep(build: Build, l: Loop, input: PollInput, pingEid: Byte): Loop {
    if !l.status.Running? then l
    else if input.discover then DiscoverStep(build, l, input)
    else PingStep(l, input, pingEid)
  }

  function LoopRun(build: Build, start: Loop, polls: seq<PollInput>, pingEid: Byte): Loop {
    if polls == [] then start
    else PollStep(build, LoopRun(build, start, polls[..|polls| - 1], pingEid), polls[|polls| - 1], pingEid)
  }

  lemma OnePollMore(build: Build, start: Loop, polls: seq<PollInput>, pingEid: Byte, n: nat)
    requires n < |polls|
    ensures LoopRun(build, start, polls[..n + 1], pingEid)
         == PollStep(build, LoopRun(build, start, polls[..n], pingEid), polls[n], pingEid)
  {
    assert polls[..n + 1][..n] == polls[..n];
  }

  /** A loop that has ended takes no notice of further polls. */
  lemma {:induction false} StoppedStays(build: Build, start: Loop, polls: seq<PollInput>, pingEid: Byte, n: nat)
    requires n <= |polls| && !LoopRun(build, start, polls[..n], pingEid).status.Running?
    ensures LoopRun(build, start, polls, pingEid) == LoopRun(build, start, polls[..n], pingEid)
  {
    if n < |polls| {
      assert polls[..|polls| - 1][..n] == polls[..n];
      StoppedStays(build, start, polls[..|polls| - 1], pingEid, n);
    } else {
      assert polls[..n] == polls;
    }
  }

  function Start(minEid: Byte, tagCounter: Byte, instanceCounter: Byte): Loop {
    Loop(minEid, tagCounter, instanceCounter, [], [], Running)
  }

  // ----- the EIDs handed out -----

  /** `n` EIDs in a row from `first`, wrapping past 0xFF. */
  function Consecutive(first: nat, n: nat): (s: seq<Byte>)
    ensures |s| == n
  {
    seq(n, i requires 0 <= i < n => (first + i) % 0x100)
  }

  function Eids(g: Grant): seq<Byte> {
    match g
    case Single(eid) => [eid]
    case Pool(first, size) => Consecutive(first, size)
  }

  /** All EIDs reserved, in the order of their reservation. */
  function Handed(grants: seq<Grant>): seq<Byte> {
    if grants == [] then [] else Handed(grants[..|grants| - 1]) + Eids(grants[|grants| - 1])
  }

  /** The cursor stands right behind an unbroken row of EIDs that starts at the pool's first one. */
  predicate RowSoFar(first: Byte, l: Loop) {
    && Handed(l.grants) == Consecutive(first, |Handed(l.grants)|)
    && l.nextEid == (first + |Handed(l.grants)|) % 0x100
  }

  lemma ConsecutiveConcat(first: nat, n: nat, m: nat)
    ensures Consecutive(first, n) + Consecutive((first + n) % 0x100, m) == Consecutive(first, n + m)
  {
    var tail := Consecutive((first + n) % 0x100, m);
    forall i | 0 <= i < m ensures tail[i] == (first + (n + i)) % 0x100 {
      WrapAdd(first + n, i);
    }
  }

  function HandedCount(l: Loop): nat {
    |Handed(l.grants)|
  }

  lemma HandedAfter(l: Loop, g: Grant, next: Byte)
    ensures Handed(Reserve(l, g, next).grants) == Handed(l.grants) + Eids(g)
  {
    assert (l.grants + [g])[..|l.grants|] == l.grants;
  }

  lemma ReserveExtendsRow(first: Byte, l: Loop, g: Grant, next: Byte)
    requires RowSoFar(first, l) && Eids(g) == Consecutive(l.nextEid, |Eids(g)|)
    requires next == l.nextEid + |Eids(g)| || next == l.nextEid + |Eids(g)| - 0x100
    ensures RowSoFar(first, Reserve(l, g, next))
  {
    HandedAfter(l, g, next);
    ConsecutiveConcat(first, HandedCount(l), |Eids(g)|);
    WrapNext(first + HandedCount(l), |Eids(g)|, next);
  }

  // ----- demand: what a poll asks of the EID space, whatever the cursor -----

  predicate Dynamic(input: PollInput) {
    var r := Answer(GetEidResponseKind, input.get);
    input.discover && r.Ok? && EidTypeOf(r.value).Dynamic?
  }

  predicate AssignAccepted(input: PollInput) {
    var r := Answer(SetEidResponseKind, input.assign);
    r.Ok? && AssignmentBits(r.value) == 0
  }

  /** The size of the pool that a dynamic endpoint asks for and gets. */
  function PoolSize(input: PollInput): Byte {
    var get := Answer(GetEidResponseKind, input.get);
    var assign := Answer(SetEidResponseKind, input.assign);
    if Dynamic(input) && AssignAccepted(input) && EndpointTypeOf(get.value).BusOwnerOrBridge?
       && AllocationStatusOf(assign.value).RequiresPoolAllocation?
    then assign.value.eidPoolSize else 0
  }

  function Demand(input: PollInput): nat {
    if Dynamic(input) then 1 + PoolSize(input) else 0
  }

  predicate AllocateAccepted(input: PollInput) {
    var r := Answer(AllocateResponseKind, input.allocate);
    r.Ok? && PoolStatusOf(r.value).AllocationAccepted?
  }

  /** The poll ends the loop for a reason other than overflow. */
  predicate Stops(input: PollInput, pingEid: Byte) {
    if !input.discover then pingEid != 0 && Answer(GetEidResponseKind, input.get).Err?
    else
      || Answer(GetEidResponseKind, input.get).Err?
      || (Dynamic(input) && !AssignAccepted(input))
      || (PoolSize(input) > 1 && !AllocateAccepted(input))
  }

  predicate Stopped(polls: seq<PollInput>, pingEid: Byte) {
    polls != [] && (Stopped(polls[..|polls| - 1], pingEid) || Stops(polls[|polls| - 1], pingEid))
  }

  /** The sum of the demands of the polls up to and including the one that stops the loop. */
  function TotalDemand(polls: seq<PollInput>, pingEid: Byte): nat {
    if polls == [] then 0
    else
      var before := polls[..|polls| - 1];
      TotalDemand(before, pingEid) + (if Stopped(before, pingEid) then 0 else Demand(polls[|polls| - 1]))
  }

  // ----- what one poll does to the cursor -----

  /** The EIDs wanted fit behind the cursor; a wrapping build never minds. */
  predicate Fits(build: Build, l: Loop, wanted: nat) {
    build.Wrapping? || l.nextEid + wanted <= 0xFF
  }

  /** A pool's first and last EID differ exactly if it holds two or more. */
  lemma LastOfPool(build: Build, first: Byte, size: Byte)
    requires size > 0 && Add8(build, first, size).Some?
    ensures first == LastOf(Add8(build, first, size).value) <==> size == 1
  {
    var sum := Add8(build, first, size).value;
    assert sum == first + size || sum == first + size - 0x100;
  }

  lemma PoolStepCases(build: Build, l: Loop, input: PollInput, size: Byte)
    requires size > 0 && l.status.Running?
    ensures var after := PoolStep(build, l, input, size);
            var sum := Add8(build, l.nextEid, size);
            if sum.None? then after == l.(status := Overflowed)
            else
              var reserved := Reserve(l, Pool(l.nextEid, size), sum.value);
              if size == 1 then after == reserved
              else after == Send(reserved, input.allocate.src, AllocatePool(l.nextEid, size))
                              .(status := if AllocateAccepted(input) then Running else Failed)
  {
    if Add8(build, l.nextEid, size).Some? {
      LastOfPool(build, l.nextEid, size);
    }
  }

  lemma PoolStepOutcome(build: Build, l: Loop, input: PollInput, size: Byte)
    requires l.status.Running? && size > 0
    ensures var after := PoolStep(build, l, input, size);
            && (!Fits(build, l, size) ==> after == l.(status := Overflowed))
            && (Fits(build, l, size) ==>
                  && HandedCount(after) == HandedCount(l) + size
                  && after.status == if size == 1 || AllocateAccepted(input) then Running else Failed)
  {
    PoolStepCases(build, l, input, size);
    if Fits(build, l, size) {
      HandedAfter(l, Pool(l.nextEid, size), Add8(build, l.nextEid, size).value);
    }
  }

  /** The row depends on the cursor and the reservations alone. */
  lemma SameRow(first: Byte, l: Loop, t: Loop)
    requires RowSoFar(first, l) && t.nextEid == l.nextEid && t.grants == l.grants
    ensures RowSoFar(first, t)
  {
  }

  lemma PoolStepKeepsRow(build: Build, first: Byte, l: Loop, input: PollInput, size: Byte)
    requires RowSoFar(first, l) && l.status.Running? && size > 0
    ensures RowSoFar(first, PoolStep(build, l, input, size))
  {
    PoolStepCases(build, l, input, size);
    var after := PoolStep(build, l, input, size);
    var sum := Add8(build, l.nextEid, size);
    if sum.Some? {
      var reserved := Reserve(l, Pool(l.nextEid, size), sum.value);
      ReserveExtendsRow(first, l, Pool(l.nextEid, size), sum.value);
      SameRow(first, reserved, after);
    } else {
      SameRow(first, l, after);
    }
  }

  /** The state after a single EID is reserved and offered. */
  function Offer(l: Loop, input: PollInput, next: Byte): Loop {
    Send(Reserve(l, Single(l.nextEid), next), input.assign.src, AssignEid(l.nextEid))
  }

  lemma OfferKeepsRow(first: Byte, l: Loop, input: PollInput, next: Byte)
    requires RowSoFar(first, l) && next == Increment(l.nextEid)
    ensures RowSoFar(first, Offer(l, input, next))
  {
    assert Eids(Single(l.nextEid)) == Consecutive(l.nextEid, 1);
    ReserveExtendsRow(first, l, Single(l.nextEid), next);
  }

  lemma DiscoverStepCases(build: Build, l: Loop, input: PollInput)
    requires l.status.Running? && input.discover
    ensures var after := DiscoverStep(build, l, input);
            var asked := Send(l, input.get.src, AskEid(0));
            var next := Add8(build, l.nextEid, 1);
            if !Dynamic(input) then
              after == asked.(status := if Answer(GetEidResponseKind, input.get).Ok? then Running else Failed)
            else if next.None? then after == asked.(status := Overflowed)
            else if !AssignAccepted(input) then after == Offer(asked, input, next.value).(status := Failed)
            else if PoolSize(input) > 0 then
              after == PoolStep(build, Offer(asked, input, next.value), input, PoolSize(input))
            else after == Offer(asked, input, next.value)
  {
  }

  lemma AfterOfferOutcome(build: Build, asked: Loop, input: PollInput, next: Byte)
    requires asked.status.Running? && Dynamic(input) && Add8(build, asked.nextEid, 1) == Some(next)
    ensures var offered := Offer(asked, input, next);
            && HandedCount(offered) == HandedCount(asked) + 1
            && (build.Checked? ==> next == asked.nextEid + 1)
            && (PoolSize(input) > 0 ==>
                  var after := PoolStep(build, offered, input, PoolSize(input));
                  && (!Fits(build, asked, Demand(input)) ==> after == offered.(status := Overflowed))
                  && (Fits(build, asked, Demand(input)) ==>
                        && HandedCount(after) == HandedCount(asked) + Demand(input)
                        && after.status == if PoolSize(input) == 1 || AllocateAccepted(input) then Running else Failed))
  {
    HandedAfter(asked, Single(asked.nextEid), next);
    if PoolSize(input) > 0 {
      PoolStepOutcome(build, Offer(asked, input, next), input, PoolSize(input));
    }
  }

  /** One discovery round hands out what it demands, or overflows exactly when that does not fit. */
  lemma DiscoverStepOutcome(build: Build, l: Loop, input: PollInput)
    requires l.status.Running? && input.discover
    ensures var after := DiscoverStep(build, l, input);
            && (!Fits(build, l, Demand(input)) ==>
                  after.status == Overflowed && HandedCount(after) <= HandedCount(l) + 0xFF - l.nextEid)
            && (Fits(build, l, Demand(input)) ==>
                  && HandedCount(after) == HandedCount(l) + Demand(input)
                  && after.status == if Stops(input, 0) then Failed else Running)
  {
    DiscoverStepCases(build, l, input);
    var asked := Send(l, input.get.src, AskEid(0));
    var next := Add8(build, l.nextEid, 1);
    if Dynamic(input) && next.Some? {
      AfterOfferOutcome(build, asked, input, next.value);
    }
  }

  /** What a round may come to once the EID before `next` was offered. */
  predicate AfterOffer(build: Build, asked: Loop, input: PollInput, next: Byte, after: Loop) {
    var offered := Offer(asked, input, next);
    || after == offered
    || after == offered.(status := Failed)
    || (PoolSize(input) > 0 && after == PoolStep(build, offered, input, PoolSize(input)))
  }

  /** A round either only asks, or offers the EID at the cursor and moves the cursor behind it. */
  lemma RoundCases(build: Build, l: Loop, input: PollInput) returns (next: Byte)
    requires l.status.Running? && input.discover
    ensures var asked := Send(l, input.get.src, AskEid(0));
            var after := DiscoverStep(build, l, input);
            || after == asked.(status := after.status)
            || AfterOffer(build, asked, input, next, after)
    ensures next == Increment(l.nextEid)
  {
    DiscoverStepCases(build, l, input);
    var added := Add8(build, l.nextEid, 1);
    next := if added.Some? then added.value else Increment(l.nextEid);
  }

  /** An EID was offered: whatever comes of the round, the row goes on. */
  lemma AfterOfferKeepsRow(build: Build, first: Byte, asked: Loop, input: PollInput, next: Byte, after: Loop)
    requires RowSoFar(first, asked) && asked.status.Running? && next == Increment(asked.nextEid)
    requires AfterOffer(build, asked, input, next, after)
    ensures RowSoFar(first, after)
  {
    var offered := Offer(asked, input, next);
    OfferKeepsRow(first, asked, input, next);
    if after == offered || after == offered.(status := Failed) {
      SameRow(first, offered, after);
    } else {
      PoolStepKeepsRow(build, first, offered, input, PoolSize(input));
    }
  }

  lemma DiscoverStepKeepsRow(build: Build, first: Byte, l: Loop, input: PollInput)
    requires RowSoFar(first, l) && l.status.Running? && input.discover
    ensures RowSoFar(first, DiscoverStep(build, l, input))
  {
    var asked := Send(l, input.get.src, AskEid(0));
    var after := DiscoverStep(build, l, input);
    var next := RoundCases(build, l, input);
    SameRow(first, l, asked);
    if after == asked.(status := after.status) {
      SameRow(first, asked, after);
    } else {
      AfterOfferKeepsRow(build, first, asked, input, next, after);
    }
  }

  // ----- one poll by its demand alone -----

  /** The requests that a poll sends, in order: a ping or, when the flag was up, the question to endpoint 0;
      behind it the offer of the EID at the cursor, if the endpoint is dynamic and an EID is left; behind that
      the announcement of its pool, if the offer was accepted and the pool holds two or more and fits. */
  function Requested(build: Build, l: Loop, input: PollInput, pingEid: Byte): seq<Request> {
    var t, i := l.tagCounter, l.instanceCounter;
    if !input.discover then
      if pingEid == 0 then [] else [Request(input.get.src, t, i, AskEid(pingEid))]
    else
      [Request(input.get.src, t, i, AskEid(0))]
      + (if !Dynamic(input) || !Fits(build, l, 1) then []
         else [Request(input.assign.src, Increment(t), Increment(i), AssignEid(l.nextEid))])
      + (if PoolSize(input) < 2 || !Fits(build, l, Demand(input)) then []
         else [Request(input.allocate.src, Increment(Increment(t)), Increment(Increment(i)),
                       AllocatePool(Increment(l.nextEid), PoolSize(input)))])
  }

  /** The status after a poll: an unanswered ping is a panic, a demand that does not fit an overflow, and any
      refusal of a discovery round a failure. */
  function StatusAfter(build: Build, l: Loop, input: PollInput, pingEid: Byte): Status {
    if !input.discover then (if Stops(input, pingEid) then PingPanicked else Running)
    else if !Fits(build, l, Demand(input)) then Overflowed
    else if Stops(input, pingEid) then Failed
    else Running
  }

  lemma PollMeetsReference(build: Build, l: Loop, input: PollInput, pingEid: Byte)
    requires l.status.Running?
    ensures var after := PollStep(build, l, input, pingEid);
            && after.sent == l.sent + Requested(build, l, input, pingEid)
            && after.status == StatusAfter(build, l, input, pingEid)
  {
    if input.discover {
      DiscoverStepOutcome(build, l, input);
      DiscoverRequests(build, l, input, pingEid);
    }
  }

  lemma PoolRequests(build: Build, l: Loop, input: PollInput, size: Byte)
    requires l.status.Running? && size > 0
    ensures PoolStep(build, l, input, size).sent == l.sent
         + if size < 2 || !Fits(build, l, size) then []
           else [Request(input.allocate.src, l.tagCounter, l.instanceCounter, AllocatePool(l.nextEid, size))]
  {
    PoolStepCases(build, l, input, size);
  }

  lemma DiscoverRequests(build: Build, l: Loop, input: PollInput, pingEid: Byte)
    requires l.status.Running? && input.discover
    ensures DiscoverStep(build, l, input).sent == l.sent + Requested(build, l, input, pingEid)
  {
    DiscoverStepCases(build, l, input);
    if Dynamic(input) && Fits(build, l, 1) {
      OfferRequests(build, l, input, pingEid, Increment(l.nextEid));
    }
  }

  lemma OfferRequests(build: Build, l: Loop, input: PollInput, pingEid: Byte, next: Byte)
    requires l.status.Running? && Dynamic(input) && Fits(build, l, 1) && next == Increment(l.nextEid)
    ensures var offered := Offer(Send(l, input.get.src, AskEid(0)), input, next);
            && (PoolSize(input) == 0 ==> offered.sent == l.sent + Requested(build, l, input, pingEid))
            && (PoolSize(input) > 0 ==>
                  PoolStep(build, offered, input, PoolSize(input)).sent == l.sent + Requested(build, l, input, pingEid))
  {
    if PoolSize(input) > 0 {
      PoolRequests(build, Offer(Send(l, input.get.src, AskEid(0)), input, next), input, PoolSize(input));
    }
  }

  /** A raised flag always makes the poll a discovery round, whatever else the poll meets; a flag that is
      down leaves the poll to what was raised since. */
  lemma TakenFlagStartsARound(build: Build, l: Loop, input: PollInput, pingEid: Byte)
    requires l.status.Running?
    ensures PollStep(build, l, Taking(true, input), pingEid) == DiscoverStep(build, l, input)
    ensures PollStep(build, l, Taking(false, input), pingEid) == PollStep(build, l, input, pingEid)
    ensures !input.discover && pingEid == 0 ==> PollStep(build, l, Taking(false, input), pingEid) == l
  {
  }

  // ----- every run of the loop -----

  /** A poll of a running loop hands out its demand, or overflows exactly when that does not fit. */
  predicate PollResult(build: Build, l: Loop, after: Loop, demand: nat, stops: bool) {
    && (!Fits(build, l, demand) ==>
          after.status == Overflowed && HandedCount(after) <= HandedCount(l) + 0xFF - l.nextEid)
    && (Fits(build, l, demand) ==>
          HandedCount(after) == HandedCount(l) + demand && !after.status.Overflowed?
          && (after.status.Running? <==> !stops))
  }

  lemma PollOutcome(build: Build, l: Loop, input: PollInput, pingEid: Byte)
    requires l.status.Running?
    ensures PollResult(build, l, PollStep(build, l, input, pingEid), Demand(input), Stops(input, pingEid))
  {
    if input.discover {
      DiscoverStepOutcome(build, l, input);
    }
  }

  lemma PollKeepsRow(build: Build, first: Byte, l: Loop, input: PollInput, pingEid: Byte)
    requires RowSoFar(first, l) && l.status.Running?
    ensures RowSoFar(first, PollStep(build, l, input, pingEid))
  {
    if input.discover {
      DiscoverStepKeepsRow(build, first, l, input);
    } else {
      SameRow(first, l, PingStep(l, input, pingEid));
    }
  }

  /** What a run comes to, given the demand of its polls and whether one of them stops it. */
  predicate Outcome(build: Build, first: Byte, l: Loop, demand: nat, stopped: bool) {
    && RowSoFar(first, l)
    && (build.Checked? ==> first + HandedCount(l) <= 0xFF)
    && (build.Checked? && first + demand > 0xFF ==> l.status.Overflowed?)
    && (build.Wrapping? || first + demand <= 0xFF ==>
          HandedCount(l) == demand && !l.status.Overflowed? && (l.status.Running? <==> !stopped))
  }

  lemma ResultKeepsOutcome(build: Build, first: Byte, l: Loop, after: Loop, demand: nat, more: nat, stops: bool)
    requires Outcome(build, first, l, demand, false) && l.status.Running?
    requires PollResult(build, l, after, more, stops) && RowSoFar(first, after)
    ensures Outcome(build, first, after, demand + more, stops)
  {
    if build.Checked? {
      RowIsInterval(first, l);
    }
  }

  lemma PollKeepsOutcome(build: Build, first: Byte, l: Loop, input: PollInput, pingEid: Byte,
                         demand: nat, stopped: bool)
    requires Outcome(build, first, l, demand, stopped)
    ensures Outcome(build, first, PollStep(build, l, input, pingEid),
                    demand + (if stopped then 0 else Demand(input)), stopped || Stops(input, pingEid))
  {
    if l.status.Running? {
      PollOutcome(build, l, input, pingEid);
      PollKeepsRow(build, first, l, input, pingEid);
      ResultKeepsOutcome(build, first, l, PollStep(build, l, input, pingEid),
                         demand, Demand(input), Stops(input, pingEid));
    }
  }

  /** In every run the EIDs handed out are one unbroken row from the start of the pool, with the cursor
      behind it. Unless the demand runs past 0xFF in a checked build, the row has exactly the demanded
      length and the loop is still running exactly if no poll stopped it. */
  lemma {:induction false} RunHandsOutARow(build: Build, start: Loop, polls: seq<PollInput>, pingEid: Byte)
    requires start.grants == [] && start.status.Running?
    ensures Outcome(build, start.nextEid, LoopRun(build, start, polls, pingEid),
                    TotalDemand(polls, pingEid), Stopped(polls, pingEid))
  {
    if polls != [] {
      var n := |polls| - 1;
      RunHandsOutARow(build, start, polls[..n], pingEid);
      PollKeepsOutcome(build, start.nextEid, LoopRun(build, start, polls[..n], pingEid), polls[n], pingEid,
                       TotalDemand(polls[..n], pingEid), Stopped(polls[..n], pingEid));
    } else {
      assert Consecutive(start.nextEid, 0) == [];
    }
  }

  lemma RowIsInterval(first: Byte, l: Loop)
    requires RowSoFar(first, l) && first + HandedCount(l) <= 0xFF
    ensures l.nextEid == first + HandedCount(l)
    ensures forall i :: 0 <= i < HandedCount(l) ==> Handed(l.grants)[i] == first + i
  {
  }

  /** Partition: while the demand fits, the EIDs handed out are the interval from the start of the pool
      to the cursor, each once and in order, and the cursor is the start plus the demand. */
  lemma HandedOutIsTheInterval(build: Build, start: Loop, polls: seq<PollInput>, pingEid: Byte)
    requires start.grants == [] && start.status.Running?
    requires start.nextEid + TotalDemand(polls, pingEid) <= 0xFF
    ensures var l := LoopRun(build, start, polls, pingEid);
            && l.nextEid == start.nextEid + TotalDemand(polls, pingEid)
            && |Handed(l.grants)| == l.nextEid - start.nextEid
            && forall i :: 0 <= i < |Handed(l.grants)| ==> Handed(l.grants)[i] == start.nextEid + i
  {
    RunHandsOutARow(build, start, polls, pingEid);
    RowIsInterval(start.nextEid, LoopRun(build, start, polls, pingEid));
  }

  /** The bound is tight: a checked build overflows exactly when start plus demand exceeds 0xFF. */
  lemma OverflowExactly(start: Loop, polls: seq<PollInput>, pingEid: Byte)
    requires start.grants == [] && start.status.Running?
    ensures LoopRun(Checked, start, polls, pingEid).status.Overflowed?
       <==> start.nextEid + TotalDemand(polls, pingEid) > 0xFF
  {
    RunHandsOutARow(Checked, start, polls, pingEid);
  }

  /** The broadcast EID is never reserved by a checked build, not even on the way to an overflow; a
      wrapping build reserves it exactly when the demand does not fit. */
  lemma BroadcastReservedExactly(build: Build, start: Loop, polls: seq<PollInput>, pingEid: Byte)
    requires start.grants == [] && start.status.Running?
    ensures 0xFF in Handed(LoopRun(build, start, polls, pingEid).grants)
       <==> build.Wrapping? && start.nextEid + TotalDemand(polls, pingEid) > 0xFF
  {
    RunHandsOutARow(build, start, polls, pingEid);
    RowContainsBroadcast(start.nextEid, LoopRun(build, start, polls, pingEid));
  }

  lemma RowContainsBroadcast(first: Byte, l: Loop)
    requires RowSoFar(first, l)
    ensures 0xFF in Handed(l.grants) <==> first + HandedCount(l) > 0xFF
  {
    if first + HandedCount(l) > 0xFF {
      assert Handed(l.grants)[0xFF - first] == 0xFF;
    } else {
      RowIsInterval(first, l);
    }
  }

  /** From a pool start of 8 or above, reserved EIDs stay in the assignable range 8 to 254 of section 8.2 of
      DSP0236 exactly if the build checks or the demand fits. */
  lemma HandedOutIsAssignable(build: Build, start: Loop, polls: seq<PollInput>, pingEid: Byte)
    requires start.grants == [] && start.status.Running? && start.nextEid >= 8
    ensures (forall eid :: eid in Handed(LoopRun(build, start, polls, pingEid).grants) ==> 8 <= eid <= 254)
       <==> build.Checked? || start.nextEid + TotalDemand(polls, pingEid) <= 0xFF
  {
    BroadcastReservedExactly(build, start, polls, pingEid);
    if build.Checked? || start.nextEid + TotalDemand(polls, pingEid) <= 0xFF {
      RunHandsOutARow(build, start, polls, pingEid);
      RowIsInterval(start.nextEid, LoopRun(build, start, polls, pingEid));
    }
  }

  lemma PollBuildsAgree(l: Loop, input: PollInput, pingEid: Byte)
    requires l.nextEid + Demand(input) <= 0xFF
    ensures PollStep(Checked, l, input, pingEid) == PollStep(Wrapping, l, input, pingEid)
  {
    if l.status.Running? && input.discover {
      DiscoverStepCases(Checked, l, input);
      DiscoverStepCases(Wrapping, l, input);
    }
  }

  /** The two builds run alike exactly when the demand fits. */
  lemma {:induction false} BuildsAgreeExactly(start: Loop, polls: seq<PollInput>, pingEid: Byte)
    requires start.grants == [] && start.status.Running?
    ensures LoopRun(Checked, start, polls, pingEid) == LoopRun(Wrapping, start, polls, pingEid)
       <==> start.nextEid + TotalDemand(polls, pingEid) <= 0xFF
  {
    RunHandsOutARow(Checked, start, polls, pingEid);
    RunHandsOutARow(Wrapping, start, polls, pingEid);
    if polls != [] && start.nextEid + TotalDemand(polls, pingEid) <= 0xFF {
      var n := |polls| - 1;
      BuildsAgreeExactly(start, polls[..n], pingEid);
      RunHandsOutARow(Checked, start, polls[..n], pingEid);
      var before := LoopRun(Checked, start, polls[..n], pingEid);
      if before.status.Running? {
        PollBuildsAgree(before, polls[n], pingEid);
      }
    }
  }

  // ----- the trace of requests -----

  /** The EIDs offered by Set Endpoint ID requests, in order. */
  function Offered(sent: seq<Request>): seq<Byte> {
    if sent == [] then []
    else Offered(sent[..|sent| - 1])
         + match sent[|sent| - 1].op
           case AssignEid(eid) => [eid]
           case _ => []
  }

  /** The ranges announced by Allocate Endpoint IDs requests, in order. */
  function Announced(sent: seq<Request>): seq<Grant> {
    if sent == [] then []
    else Announced(sent[..|sent| - 1])
         + match sent[|sent| - 1].op
           case AllocatePool(first, count) => [Pool(first, count)]
           case _ => []
  }

  function Singles(grants: seq<Grant>): seq<Byte> {
    if grants == [] then []
    else Singles(grants[..|grants| - 1])
         + match grants[|grants| - 1]
           case Single(eid) => [eid]
           case Pool(_, _) => []
  }

  /** The reserved pools of two EIDs or more. */
  function BigPools(grants: seq<Grant>): seq<Grant> {
    if grants == [] then []
    else BigPools(grants[..|grants| - 1])
         + match grants[|grants| - 1]
           case Single(_) => []
           case Pool(first, size) => if size >= 2 then [Pool(first, size)] else []
  }

  /** Where a request may stand: an assignment right behind Get Endpoint ID to endpoint 0, an allocation
      right behind such an assignment and for the EIDs right behind the assigned one. */
  predicate WellPlaced(sent: seq<Request>, i: nat, pingEid: Byte)
    requires i < |sent|
  {
    match sent[i].op
    case AskEid(dst) => dst == 0 || dst == pingEid
    case AssignEid(_) => i >= 1 && sent[i - 1].op == AskEid(0)
    case AllocatePool(first, count) =>
      && i >= 2 && sent[i - 2].op == AskEid(0) && sent[i - 1].op.AssignEid?
      && first == Increment(sent[i - 1].op.eid) && count >= 2
  }

  predicate Counted(start: Loop, l: Loop) {
    && l.tagCounter == CounterAfter(start.tagCounter, |l.sent|)
    && l.instanceCounter == CounterAfter(start.instanceCounter, |l.sent|)
    && forall i :: 0 <= i < |l.sent| ==>
         && l.sent[i].tagCounter == CounterAfter(start.tagCounter, i)
         && l.sent[i].instanceCounter == CounterAfter(start.instanceCounter, i)
  }

  predicate Traced(start: Loop, l: Loop, pingEid: Byte) {
    && Counted(start, l)
    && Offered(l.sent) == Singles(l.grants)
    && Announced(l.sent) == BigPools(l.grants)
    && forall i :: 0 <= i < |l.sent| ==> WellPlaced(l.sent, i, pingEid)
  }

  lemma SendCounts(start: Loop, l: Loop, src: Byte, op: Op)
    requires Counted(start, l)
    ensures Counted(start, Send(l, src, op))
  {
  }

  lemma SendPlaces(sent: seq<Request>, r: Request, pingEid: Byte)
    requires forall i :: 0 <= i < |sent| ==> WellPlaced(sent, i, pingEid)
    requires WellPlaced(sent + [r], |sent|, pingEid)
    ensures forall i :: 0 <= i < |sent + [r]| ==> WellPlaced(sent + [r], i, pingEid)
  {
    forall i | 0 <= i < |sent| ensures WellPlaced(sent + [r], i, pingEid) {
      assert WellPlaced(sent, i, pingEid);
    }
  }

  lemma AskTraced(start: Loop, l: Loop, src: Byte, dst: Byte, pingEid: Byte)
    requires Traced(start, l, pingEid) && (dst == 0 || dst == pingEid)
    ensures Traced(start, Send(l, src, AskEid(dst)), pingEid)
  {
    SendCounts(start, l, src, AskEid(dst));
    SendPlaces(l.sent, Request(src, l.tagCounter, l.instanceCounter, AskEid(dst)), pingEid);
    assert Send(l, src, AskEid(dst)).sent[..|l.sent|] == l.sent;
  }

  /** The loop has just asked endpoint 0. */
  predicate JustAsked(l: Loop) {
    l.sent != [] && l.sent[|l.sent| - 1].op == AskEid(0)
  }

  /** The loop has just offered the EID before its cursor. */
  predicate JustOffered(l: Loop) {
    && |l.sent| >= 2 && l.sent[|l.sent| - 2].op == AskEid(0)
    && l.sent[|l.sent| - 1].op.AssignEid? && l.nextEid == Increment(l.sent[|l.sent| - 1].op.eid)
  }

  lemma OfferTraced(start: Loop, l: Loop, input: PollInput, next: Byte, pingEid: Byte)
    requires Traced(start, l, pingEid) && JustAsked(l) && next == Increment(l.nextEid)
    ensures Traced(start, Offer(l, input, next), pingEid) && JustOffered(Offer(l, input, next))
  {
    var reserved := Reserve(l, Single(l.nextEid), next);
    var op := AssignEid(l.nextEid);
    SendCounts(start, reserved, input.assign.src, op);
    SendPlaces(l.sent, Request(input.assign.src, l.tagCounter, l.instanceCounter, op), pingEid);
    assert Offer(l, input, next).sent[..|l.sent|] == l.sent;
    assert Offer(l, input, next).grants[..|l.grants|] == l.grants;
  }

  lemma AnnounceTraced(start: Loop, l: Loop, src: Byte, size: Byte, sum: Byte, pingEid: Byte)
    requires Traced(start, l, pingEid) && JustOffered(l) && size >= 2
    ensures Traced(start, Send(Reserve(l, Pool(l.nextEid, size), sum), src, AllocatePool(l.nextEid, size)), pingEid)
  {
    var reserved := Reserve(l, Pool(l.nextEid, size), sum);
    var op := AllocatePool(l.nextEid, size);
    SendCounts(start, reserved, src, op);
    SendPlaces(l.sent, Request(src, l.tagCounter, l.instanceCounter, op), pingEid);
    assert Send(reserved, src, op).sent[..|l.sent|] == l.sent;
    assert reserved.grants[..|l.grants|] == l.grants;
  }

  lemma TracedWhateverStatus(start: Loop, l: Loop, status: Status, pingEid: Byte)
    requires Traced(start, l, pingEid)
    ensures Traced(start, l.(status := status), pingEid)
  {
  }

  lemma PoolTraced(build: Build, start: Loop, l: Loop, input: PollInput, size: Byte, pingEid: Byte)
    requires Traced(start, l, pingEid) && JustOffered(l) && size > 0 && l.status.Running?
    ensures Traced(start, PoolStep(build, l, input, size), pingEid)
  {
    PoolStepCases(build, l, input, size);
    var added := Add8(build, l.nextEid, size);
    if added.None? {
      TracedWhateverStatus(start, l, Overflowed, pingEid);
    } else if size >= 2 {
      AnnounceTraced(start, l, input.allocate.src, size, added.value, pingEid);
      var reserved := Reserve(l, Pool(l.nextEid, size), added.value);
      TracedWhateverStatus(start, Send(reserved, input.allocate.src, AllocatePool(l.nextEid, size)),
                           if AllocateAccepted(input) then Running else Failed, pingEid);
    } else {
      SinglePoolTraced(start, l, added.value, pingEid);
    }
  }

  lemma SinglePoolTraced(start: Loop, l: Loop, sum: Byte, pingEid: Byte)
    requires Traced(start, l, pingEid)
    ensures Traced(start, Reserve(l, Pool(l.nextEid, 1), sum), pingEid)
  {
    assert Reserve(l, Pool(l.nextEid, 1), sum).grants[..|l.grants|] == l.grants;
  }

  lemma DiscoverTraced(build: Build, start: Loop, l: Loop, input: PollInput, pingEid: Byte)
    requires Traced(start, l, pingEid) && l.status.Running? && input.discover
    ensures Traced(start, DiscoverStep(build, l, input), pingEid)
  {
    AskTraced(start, l, input.get.src, 0, pingEid);
    var asked := Send(l, input.get.src, AskEid(0));
    var after := DiscoverStep(build, l, input);
    var next := RoundCases(build, l, input);
    if after == asked.(status := after.status) {
      TracedWhateverStatus(start, asked, after.status, pingEid);
    } else {
      AfterOfferTraced(build, start, asked, input, next, after, pingEid);
    }
  }

  lemma AfterOfferTraced(build: Build, start: Loop, asked: Loop, input: PollInput, next: Byte,
                         after: Loop, pingEid: Byte)
    requires Traced(start, asked, pingEid) && JustAsked(asked) && asked.status.Running?
    requires next == Increment(asked.nextEid)
    requires AfterOffer(build, asked, input, next, after)
    ensures Traced(start, after, pingEid)
  {
    var offered := Offer(asked, input, next);
    OfferTraced(start, asked, input, next, pingEid);
    if after == offered || after == offered.(status := Failed) {
      TracedWhateverStatus(start, offered, after.status, pingEid);
    } else {
      PoolTraced(build, start, offered, input, PoolSize(input), pingEid);
    }
  }

  /** In every run, overflowed and failed ones included: the EIDs offered are the single EIDs reserved and
      the ranges announced are the pools of two EIDs or more reserved, in order; every request stands where
      the grammar allows it; and the i-th request carries the i-th value of both counters. */
  lemma {:induction false} RunIsTraced(build: Build, start: Loop, polls: seq<PollInput>, pingEid: Byte)
    requires start.sent == [] && start.grants == [] && start.status.Running?
    ensures Traced(start, LoopRun(build, start, polls, pingEid), pingEid)
  {
    if polls != [] {
      var n := |polls| - 1;
      var before := LoopRun(build, start, polls[..n], pingEid);
      RunIsTraced(build, start, polls[..n], pingEid);
      if before.status.Running? {
        PollTraced(build, start, before, polls[n], pingEid);
      }
    }
  }

  lemma PollTraced(build: Build, start: Loop, l: Loop, input: PollInput, pingEid: Byte)
    requires Traced(start, l, pingEid) && l.status.Running?
    ensures Traced(start, PollStep(build, l, input, pingEid), pingEid)
  {
    if input.discover {
      DiscoverTraced(build, start, l, input, pingEid);
    } else if pingEid != 0 {
      AskTraced(start, l, input.get.src, pingEid, pingEid);
      TracedWhateverStatus(start, Send(l, input.get.src, AskEid(pingEid)), PingPanicked, pingEid);
    }
  }

  lemma {:induction false} AnnouncedWasSent(sent: seq<Request>, g: Grant)
    requires g in Announced(sent)
    ensures g.Pool? && exists r :: r in sent && r.op == AllocatePool(g.first, g.size)
  {
    var last := |sent| - 1;
    if g in Announced(sent[..last]) {
      AnnouncedWasSent(sent[..last], g);
    } else {
      assert sent[last].op == AllocatePool(g.first, g.size);
    }
  }

  /** No run ever announces a pool of one EID, whatever pools it reserves. */
  lemma PoolOfOneIsNotAnnounced(build: Build, start: Loop, polls: seq<PollInput>, pingEid: Byte)
    requires start.sent == [] && start.grants == [] && start.status.Running?
    ensures var sent := LoopRun(build, start, polls, pingEid).sent;
            && (forall r :: r in sent && r.op.AllocatePool? ==> r.op.count >= 2)
            && (forall g :: g in Announced(sent) ==> g.Pool? && g.size >= 2)
  {
    RunIsTraced(build, start, polls, pingEid);
    var sent := LoopRun(build, start, polls, pingEid).sent;
    forall r | r in sent && r.op.AllocatePool? ensures r.op.count >= 2 {
      var i :| 0 <= i < |sent| && sent[i] == r;
      assert WellPlaced(sent, i, pingEid);
    }
    forall g | g in Announced(sent) ensures g.Pool? && g.size >= 2 {
      AnnouncedWasSent(sent, g);
    }
  }

  /** The exact condition: a round whose assignment is accepted reserves the EID at the cursor and, right
      behind it, the pool asked for; and it announces that pool exactly if it holds two EIDs or more. */
  lemma AnnouncedIffTwoOrMore(build: Build, l: Loop, input: PollInput, pingEid: Byte)
    requires l.status.Running? && Dynamic(input) && AssignAccepted(input) && Fits(build, l, Demand(input))
    ensures var after := PollStep(build, l, input, pingEid);
            var pool := Pool(Increment(l.nextEid), PoolSize(input));
            && after.grants == l.grants + [Single(l.nextEid)] + (if PoolSize(input) > 0 then [pool] else [])
            && Announced(after.sent) == Announced(l.sent) + (if PoolSize(input) >= 2 then [pool] else [])
  {
    var asked := Send(l, input.get.src, AskEid(0));
    var offered := Offer(asked, input, Increment(l.nextEid));
    AcceptedRound(build, l, input, pingEid);
    SentSilently(l, Request(input.get.src, l.tagCounter, l.instanceCounter, AskEid(0)));
    SentSilently(asked, Request(input.assign.src, asked.tagCounter, asked.instanceCounter, AssignEid(asked.nextEid)));
    if PoolSize(input) > 0 {
      PoolAnnounced(build, offered, input, PoolSize(input));
    }
  }

  /** A round whose assignment is accepted offers the EID at the cursor and goes on to the pool, if any. */
  lemma AcceptedRound(build: Build, l: Loop, input: PollInput, pingEid: Byte)
    requires l.status.Running? && Dynamic(input) && AssignAccepted(input) && Fits(build, l, Demand(input))
    ensures var offered := Offer(Send(l, input.get.src, AskEid(0)), input, Increment(l.nextEid));
            && offered.status.Running? && (PoolSize(input) > 0 ==> Fits(build, offered, PoolSize(input)))
            && PollStep(build, l, input, pingEid)
               == if PoolSize(input) > 0 then PoolStep(build, offered, input, PoolSize(input)) else offered
  {
    DiscoverStepCases(build, l, input);
    assert Add8(build, l.nextEid, 1) == Some(Increment(l.nextEid));
  }

  lemma SentSilently(l: Loop, r: Request)
    requires !r.op.AllocatePool?
    ensures Announced(l.sent + [r]) == Announced(l.sent)
  {
    assert (l.sent + [r])[..|l.sent|] == l.sent;
  }

  lemma PoolAnnounced(build: Build, l: Loop, input: PollInput, size: Byte)
    requires l.status.Running? && size > 0 && Fits(build, l, size)
    ensures var after := PoolStep(build, l, input, size);
            && after.grants == l.grants + [Pool(l.nextEid, size)]
            && Announced(after.sent) == Announced(l.sent) + (if size >= 2 then [Pool(l.nextEid, size)] else [])
  {
    PoolStepCases(build, l, input, size);
    var r := Request(input.allocate.src, l.tagCounter, l.instanceCounter, AllocatePool(l.nextEid, size));
    assert (l.sent + [r])[..|l.sent|] == l.sent;
  }

  // ----- two concrete rounds -----

  /** The answers of a dynamic endpoint: to the question, with its type bits, and to the assignment,
      accepted, with its allocation bits and the pool size it asks for. */
  function DynamicRound(typeBits: Bits2, allocationBits: Bits2, poolSize: Byte): PollInput {
    PollInput(true,
              Exchange(0, Some([1, 0, 0, 0xC0, 0, 0, 0x02, 0, 0, 16 * typeBits, 0])),
              Exchange(0, Some([1, 0, 0, 0xC0, 0, 0, 0x01, 0, allocationBits, 0, poolSize])),
              Exchange(0, None))
  }

  lemma DynamicAnswer(typeBits: Bits2, allocationBits: Bits2, poolSize: Byte)
    ensures var r := Answer(GetEidResponseKind, DynamicRound(typeBits, allocationBits, poolSize).get);
            r.Ok? && EidTypeOf(r.value).Dynamic? && (EndpointTypeOf(r.value).BusOwnerOrBridge? <==> typeBits == 1)
  {
    AnswerFromBytes(GetEidResponseKind, DynamicRound(typeBits, allocationBits, poolSize).get);
    assert 16 * typeBits / 16 == typeBits;
  }

  lemma AcceptedAnswer(typeBits: Bits2, allocationBits: Bits2, poolSize: Byte)
    ensures var r := Answer(SetEidResponseKind, DynamicRound(typeBits, allocationBits, poolSize).assign);
            && r.Ok? && AssignmentBits(r.value) == 0 && r.value.eidPoolSize == poolSize
            && (AllocationStatusOf(r.value).RequiresPoolAllocation? <==> allocationBits == 1)
  {
    AnswerFromBytes(SetEidResponseKind, DynamicRound(typeBits, allocationBits, poolSize).assign);
  }

  lemma DynamicRoundDemands(typeBits: Bits2, allocationBits: Bits2, poolSize: Byte)
    ensures var input := DynamicRound(typeBits, allocationBits, poolSize);
            && Dynamic(input) && AssignAccepted(input)
            && PoolSize(input) == if typeBits == 1 && allocationBits == 1 then poolSize else 0
  {
    DynamicAnswer(typeBits, allocationBits, poolSize);
    AcceptedAnswer(typeBits, allocationBits, poolSize);
  }

  lemma OneRound(build: Build, start: Loop, input: PollInput, pingEid: Byte)
    ensures LoopRun(build, start, [input], pingEid) == PollStep(build, start, input, pingEid)
  {
    assert [input][..0] == [];
    assert LoopRun(build, start, [input][..0], pingEid) == start;
  }

  /** A bridge that asks for a pool of one gets it and is never told. */
  lemma PoolOfOneKeptSilent(build: Build, start: Loop, input: PollInput, pingEid: Byte)
    requires start == Start(start.nextEid, 1, 1) && start.nextEid <= 0xFD && input == DynamicRound(1, 1, 1)
    ensures var l := LoopRun(build, start, [input], pingEid);
            && l.grants == [Single(start.nextEid), Pool(start.nextEid + 1, 1)] && l.status.Running?
            && Offered(l.sent) == [start.nextEid] && Announced(l.sent) == []
  {
    DynamicRoundDemands(1, 1, 1);
    PoolOfOneRun(build, start, input, pingEid);
  }

  lemma PoolOfOneRun(build: Build, start: Loop, input: PollInput, pingEid: Byte)
    requires start.sent == [] && start.grants == [] && start.status.Running? && start.nextEid <= 0xFD
    requires Dynamic(input) && AssignAccepted(input) && PoolSize(input) == 1
    ensures var l := LoopRun(build, start, [input], pingEid);
            && l.grants == [Single(start.nextEid), Pool(start.nextEid + 1, 1)] && l.status.Running?
            && Offered(l.sent) == [start.nextEid] && Announced(l.sent) == []
  {
    OneRound(build, start, input, pingEid);
    PoolOfOneRound(build, start, input, pingEid, PollStep(build, start, input, pingEid));
    OfferedAreSingles(build, start, [input], pingEid);
    SinglesOfPair(start.nextEid, Pool(start.nextEid + 1, 1));
  }

  lemma PoolOfOneRound(build: Build, start: Loop, input: PollInput, pingEid: Byte, after: Loop)
    requires start.sent == [] && start.grants == [] && start.status.Running? && start.nextEid <= 0xFD
    requires Dynamic(input) && AssignAccepted(input) && PoolSize(input) == 1
    requires after == PollStep(build, start, input, pingEid)
    ensures after.grants == [Single(start.nextEid), Pool(start.nextEid + 1, 1)]
    ensures after.status.Running? && Announced(after.sent) == []
  {
    AnnouncedIffTwoOrMore(build, start, input, pingEid);
    PoolOfOneGoesOn(build, start, input, pingEid);
  }

  lemma PoolOfOneGoesOn(build: Build, l: Loop, input: PollInput, pingEid: Byte)
    requires l.status.Running? && Dynamic(input) && AssignAccepted(input) && Fits(build, l, Demand(input))
    requires PoolSize(input) == 1
    ensures PollStep(build, l, input, pingEid).status.Running?
  {
    AcceptedRound(build, l, input, pingEid);
    PoolStepCases(build, Offer(Send(l, input.get.src, AskEid(0)), input, Increment(l.nextEid)), input, 1);
  }

  lemma SinglesOfPair(eid: Byte, pool: Grant)
    requires pool.Pool?
    ensures Singles([Single(eid), pool]) == [eid]
  {
    assert [Single(eid), pool][..1] == [Single(eid)] && [Single(eid)][..0] == [];
    assert Singles([Single(eid)]) == Singles([]) + [eid];
  }

  lemma OfferedAreSingles(build: Build, start: Loop, polls: seq<PollInput>, pingEid: Byte)
    requires start.sent == [] && start.grants == [] && start.status.Running?
    ensures var l := LoopRun(build, start, polls, pingEid); Offered(l.sent) == Singles(l.grants)
  {
    RunIsTraced(build, start, polls, pingEid);
  }


  /** With the cursor on 0xFF one simple dynamic endpoint is too much: a checked build panics before it
      reserves anything, a wrapping build hands out the broadcast EID and goes on at 0. */
  lemma LastEidOverflows(pingEid: Byte)
    ensures var start, round := Start(0xFF, 1, 1), [DynamicRound(0, 0, 0)];
            && LoopRun(Checked, start, round, pingEid).status.Overflowed?
            && LoopRun(Checked, start, round, pingEid).grants == []
            && LoopRun(Wrapping, start, round, pingEid).grants == [Single(0xFF)]
            && LoopRun(Wrapping, start, round, pingEid).nextEid == 0
            && LoopRun(Wrapping, start, round, pingEid).status.Running?
  {
    var start, input := Start(0xFF, 1, 1), DynamicRound(0, 0, 0);
    DynamicRoundDemands(0, 0, 0);
    OneRound(Checked, start, input, pingEid);
    OneRound(Wrapping, start, input, pingEid);
    DiscoverStepCases(Checked, start, input);
    DiscoverStepCases(Wrapping, start, input);
  }

  predicate TagsAt(start: Loop, sent: seq<Request>, i: nat, j: nat)
    requires i <= j < |sent|
  {
    && RequestHeader(sent[i]).msgTag == (start.tagCounter + i) % 8
    && RequestControlHeader(sent[i]).instanceId == (start.instanceCounter + i) % 32
    && (RequestHeader(sent[i]).msgTag == RequestHeader(sent[j]).msgTag <==> (j - i) % 8 == 0)
    && (RequestControlHeader(sent[i]).instanceId == RequestControlHeader(sent[j]).instanceId <==> (j - i) % 32 == 0)
  }

  /** On the wire the i-th request of a run carries tag (start + i) mod 8 and instance id (start + i) mod 32,
      across the wrap of both counters; so two requests share a tag exactly when they are a multiple of
      eight apart, and an instance id exactly when they are a multiple of 32 apart. */
  lemma TagsOfARun(build: Build, start: Loop, polls: seq<PollInput>, pingEid: Byte, i: nat, j: nat)
    requires start.sent == [] && start.grants == [] && start.status.Running?
    requires i <= j < |LoopRun(build, start, polls, pingEid).sent|
    ensures TagsAt(start, LoopRun(build, start, polls, pingEid).sent, i, j)
  {
    RunIsTraced(build, start, polls, pingEid);
    CountedTags(start, LoopRun(build, start, polls, pingEid), i, j);
  }

  lemma CountedTags(start: Loop, l: Loop, i: nat, j: nat)
    requires Counted(start, l) && i <= j < |l.sent|
    ensures TagsAt(start, l.sent, i, j)
  {
    CounterBits(start, l, i);
    CounterBits(start, l, j);
    SameResidue8(start.tagCounter + i, start.tagCounter + j);
    SameResidue32(start.instanceCounter + i, start.instanceCounter + j);
  }

  lemma CounterBits(start: Loop, l: Loop, i: nat)
    requires Counted(start, l) && i < |l.sent|
    ensures RequestHeader(l.sent[i]).msgTag == (start.tagCounter + i) % 8
    ensures RequestControlHeader(l.sent[i]).instanceId == (start.instanceCounter + i) % 32
  {
    CounterWraps(start.tagCounter, i);
    CounterWraps(start.instanceCounter, i);
    LowBitsOfCounter(start.tagCounter, i);
    LowBitsOfCounter(start.instanceCounter, i);
  }
}
