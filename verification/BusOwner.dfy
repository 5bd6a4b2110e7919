/** The bus owner example in the form of its source: the endpoint context with its shared fields and the
    transport actor with its list of pending flows. Each method is proved against the functions that
    specify it, about which the properties of runs are proved. */
module BusOwner {
  import opened Bytes
  import opened Enums
  import opened Headers
  import opened Bodies
  import opened ControlPayloads
  import opened Smbus
  import opened Flows
  import Responder
  import Discovery
  import Actors

  class MctpEndpointContext {
    var assignedEid: Byte
    var performDiscovery: bool
    var nextMsgTag: Byte
    var nextInstanceId: Byte
    const minEidInPool: Byte
    const eidPoolSize: Byte  // never consulted

    ghost function State(): Responder.Endpoint
      reads this
    {
      Responder.Endpoint(assignedEid, performDiscovery)
    }

    constructor (minEidInPool: Byte, eidPoolSize: Byte, nextMsgTag: Byte, nextInstanceId: Byte)
      ensures State() == Responder.Endpoint(0, false)
      ensures this.nextMsgTag == nextMsgTag && this.nextInstanceId == nextInstanceId
      ensures this.minEidInPool == minEidInPool && this.eidPoolSize == eidPoolSize
    {
      this.minEidInPool, this.eidPoolSize := minEidInPool, eidPoolSize;
      this.nextMsgTag, this.nextInstanceId := nextMsgTag, nextInstanceId;
      assignedEid, performDiscovery := 0x00, false;
    }

    // ----- responder -----

    method HandleRequest(bytes: Buffer) returns (outcome: Responder.Outcome)
      modifies this`assignedEid, this`performDiscovery
      ensures Responder.Handled(State(), outcome) == Responder.HandleRequest(old(State()), bytes)
    {
      var parsed := Parse(bytes);
      if parsed.Err? {
        return Responder.Failed;
      }
      var payload := parsed.value;
      var code := payload.CommandCode();
      if code.Err? {
        return Responder.Unimplemented;
      } else if code.value.SetEndpointID? {
        var req := Decode(SetEidRequestKind, payload.payload);
        if req.Err? {
          return Responder.Failed;
        }
        assignedEid := req.value.eid;
        var resp := SetEidResponseFrom(req.value, Success, NoPoolSupport, Accepted, assignedEid, 0);
        return Responder.ReplyWith(payload, resp);
      } else if code.value.GetEndpointID? {
        var req := Decode(GetEidRequestKind, payload.payload);
        if req.Err? {
          return Responder.Failed;
        }
        var resp := GetEidResponseFrom(req.value, Success, 0x00, Dynamic, Simple, 0);
        return Responder.ReplyWith(payload, resp);
      } else if code.value.DiscoveryNotify? {
        var req := Decode(EmptyRequestKind, payload.payload);
        if req.Err? {
          return Responder.Failed;
        }
        var resp := EmptyResponseFrom(req.value, Success);
        outcome := Responder.ReplyWith(payload, resp);
        performDiscovery := true;
      } else if code.value.GetRoutingTableEntries? {
        var req := Decode(RoutingRequestKind, payload.payload);
        if req.Err? {
          return Responder.Failed;
        }
        var resp := RoutingResponseFrom(req.value, Success, 0xff, 0);
        return Responder.ReplyWith(payload, resp);
      } else {
        var req := Decode(EmptyRequestKind, payload.payload);
        if req.Err? {
          return Responder.Failed;
        }
        var resp := EmptyResponseFrom(req.value, ErrorUnsupportedCmd);
        return Responder.ReplyWith(payload, resp);
      }
    }

    // ----- requester -----

    method NewTransportHdr(dstEid: Byte) returns (hdr: TransportHeader)
      modifies this`nextMsgTag
      ensures nextMsgTag == Increment(old(nextMsgTag))
      ensures hdr == TransportHeader.New(assignedEid, dstEid, old(nextMsgTag), true, true, true)
    {
      hdr := TransportHeader.New(assignedEid, dstEid, nextMsgTag, true, true, true);
      nextMsgTag := Increment(nextMsgTag);
    }

    method NewControlHdr(command: CommandCode) returns (hdr: ControlMsgHeader)
      modifies this`nextInstanceId
      ensures nextInstanceId == Increment(old(nextInstanceId))
      ensures hdr == ControlMsgHeader.New(command, old(nextInstanceId), false, true, false)
    {
      hdr := ControlMsgHeader.New(command, nextInstanceId, false, true, false);
      nextInstanceId := Increment(nextInstanceId);
    }

    /** Decodes what the actor delivered for a request; `None` is a channel that failed, and also stands for
        a reply that never comes, for which the source waits without limit. */
    method AwaitResponse(kind: Kind, reply: Option<Buffer>) returns (r: Result<Body>)
      requires kind in {GetEidResponseKind, SetEidResponseKind, AllocateResponseKind}
      ensures r.Ok? ==> r.value.Kind() == kind
      ensures (if r.Ok? && r.value.IsSuccess() then r else Err)
              == Discovery.Answer(kind, Discovery.Exchange(assignedEid, reply))
    {
      match reply {
        case None => return Err;
        case Some(bytes) =>
          match TryToResponse(kind, bytes) {
            case Err => return Err;
            case Ok((_, m)) => return Ok(m);
          }
      }
    }

    /** Another task may have stored a new EID since the last request: `exchange.src` is what is loaded now. */
    method SendGetEidRequest(dstEid: Byte, exchange: Discovery.Exchange)
      returns (sent: Discovery.Request, bytes: Buffer, resp: Result<Body>)
      modifies this`assignedEid, this`nextMsgTag, this`nextInstanceId
      ensures sent == Discovery.Request(exchange.src, old(nextMsgTag), old(nextInstanceId), Discovery.AskEid(dstEid))
      ensures bytes == Discovery.RequestBytes(sent)
      ensures assignedEid == exchange.src
      ensures nextMsgTag == Increment(old(nextMsgTag)) && nextInstanceId == Increment(old(nextInstanceId))
      ensures resp.Ok? ==> resp.value.GetEidResponse?
      ensures (if resp.Ok? && resp.value.IsSuccess() then resp else Err)
              == Discovery.Answer(GetEidResponseKind, exchange)
    {
      assignedEid := exchange.src;
      sent := Discovery.Request(assignedEid, nextMsgTag, nextInstanceId, Discovery.AskEid(dstEid));
      var transportHdr := NewTransportHdr(dstEid);
      var ctrlHdr := NewControlHdr(GetEndpointID);
      var req := GetEidRequest(ctrlHdr);
      bytes := ControlPayload(transportHdr, ctrlHdr, req.Encode()).Encode();
      resp := AwaitResponse(GetEidResponseKind, exchange.reply);
    }

    method SendSetEidRequest(eid: Byte, exchange: Discovery.Exchange)
      returns (sent: Discovery.Request, bytes: Buffer, resp: Result<Body>)
      modifies this`assignedEid, this`nextMsgTag, this`nextInstanceId
      ensures sent == Discovery.Request(exchange.src, old(nextMsgTag), old(nextInstanceId), Discovery.AssignEid(eid))
      ensures bytes == Discovery.RequestBytes(sent)
      ensures assignedEid == exchange.src
      ensures nextMsgTag == Increment(old(nextMsgTag)) && nextInstanceId == Increment(old(nextInstanceId))
      ensures resp.Ok? ==> resp.value.SetEidResponse?
      ensures (if resp.Ok? && resp.value.IsSuccess() then resp else Err)
              == Discovery.Answer(SetEidResponseKind, exchange)
    {
      assignedEid := exchange.src;
      sent := Discovery.Request(assignedEid, nextMsgTag, nextInstanceId, Discovery.AssignEid(eid));
      var transportHdr := NewTransportHdr(0);
      var ctrlHdr := NewControlHdr(SetEndpointID);
      var req := NewSetEidRequest(ctrlHdr, SetEid, eid);
      bytes := ControlPayload(transportHdr, ctrlHdr, req.Encode()).Encode();
      resp := AwaitResponse(SetEidResponseKind, exchange.reply);
    }

    method SendAllocateEidsRequest(startingEid: Byte, numberOfEids: Byte, exchange: Discovery.Exchange)
      returns (sent: Discovery.Request, bytes: Buffer, resp: Result<Body>)
      modifies this`assignedEid, this`nextMsgTag, this`nextInstanceId
      ensures sent == Discovery.Request(exchange.src, old(nextMsgTag), old(nextInstanceId),
                                       Discovery.AllocatePool(startingEid, numberOfEids))
      ensures bytes == Discovery.RequestBytes(sent)
      ensures assignedEid == exchange.src
      ensures nextMsgTag == Increment(old(nextMsgTag)) && nextInstanceId == Increment(old(nextInstanceId))
      ensures resp.Ok? ==> resp.value.AllocateResponse?
      ensures (if resp.Ok? && resp.value.IsSuccess() then resp else Err)
              == Discovery.Answer(AllocateResponseKind, exchange)
    {
      assignedEid := exchange.src;
      sent := Discovery.Request(assignedEid, nextMsgTag, nextInstanceId,
                                Discovery.AllocatePool(startingEid, numberOfEids));
      var transportHdr := NewTransportHdr(0);
      var ctrlHdr := NewControlHdr(AllocateEndpointIDs);
      var req := NewAllocateRequest(ctrlHdr, AllocateEids, numberOfEids, startingEid);
      bytes := ControlPayload(transportHdr, ctrlHdr, req.Encode()).Encode();
      resp := AwaitResponse(AllocateResponseKind, exchange.reply);
    }

    // ----- discovery loop -----

    /** One iteration of the loop. `input.discover` says whether another task has raised the discovery flag
        since the last one; the swap takes the flag, so a raised one always starts a round. `l` carries the
        cursor and the history of requests and reservations. */
    method PollOnce(build: Build, l: Discovery.Loop, input: Discovery.PollInput, pingEid: Byte)
      returns (after: Discovery.Loop)
      requires l.status.Running? && l.tagCounter == nextMsgTag && l.instanceCounter == nextInstanceId
      modifies this`assignedEid, this`performDiscovery, this`nextMsgTag, this`nextInstanceId
      ensures after == Discovery.PollStep(build, l, Discovery.Taking(old(performDiscovery), input), pingEid)
      ensures after.tagCounter == nextMsgTag && after.instanceCounter == nextInstanceId
      ensures !performDiscovery
      ensures old(performDiscovery) || input.discover ==>
                |after.sent| > |l.sent| && after.sent[|l.sent|].op == Discovery.AskEid(0)
      ensures !old(performDiscovery) && !input.discover && pingEid == 0 ==> after == l
    {
      var nextEid, sent, grants := l.nextEid, l.sent, l.grants;
      after := l;
      var taken := Discovery.Taking(performDiscovery, input);
      performDiscovery := false;
      if taken.discover {
        // Step 1: which endpoint is there
        var request, _, get := SendGetEidRequest(0, taken.get);
        sent := sent + [request];
        if get.Err? || !get.value.IsSuccess() {
          return Discovery.Loop(nextEid, nextMsgTag, nextInstanceId, sent, grants, Discovery.Failed);
        }
        var endpointType := EndpointTypeOf(get.value);
        var minDynamicEid, maxDynamicEid, poolSize: Byte := 0, 0, 0;
        Discovery.DiscoverStepCases(build, l, taken);
        if EidTypeOf(get.value).Dynamic? {
          // Step 2: assign it the next EID
          var eid := nextEid;
          var next := Add8(build, nextEid, 1);
          if next.None? {
            return Discovery.Loop(nextEid, nextMsgTag, nextInstanceId, sent, grants, Discovery.Overflowed);
          }
          nextEid := next.value;
          grants := grants + [Discovery.Single(eid)];
          var assignRequest, _, assign := SendSetEidRequest(eid, taken.assign);
          sent := sent + [assignRequest];
          if assign.Err? || !assign.value.IsSuccess() || AssignmentBits(assign.value) != 0 {
            return Discovery.Loop(nextEid, nextMsgTag, nextInstanceId, sent, grants, Discovery.Failed);
          }
          if endpointType.BusOwnerOrBridge? && AllocationStatusOf(assign.value).RequiresPoolAllocation?
             && assign.value.eidPoolSize > 0 {
            Discovery.PoolStepCases(build,
                                    Discovery.Loop(nextEid, nextMsgTag, nextInstanceId, sent, grants,
                                                   Discovery.Running),
                                    taken, assign.value.eidPoolSize);
            minDynamicEid := nextEid;
            var sum := Add8(build, nextEid, assign.value.eidPoolSize);
            if sum.None? {
              return Discovery.Loop(nextEid, nextMsgTag, nextInstanceId, sent, grants, Discovery.Overflowed);
            }
            maxDynamicEid := Discovery.LastOf(sum.value);
            poolSize := assign.value.eidPoolSize;
            nextEid := sum.value;
            grants := grants + [Discovery.Pool(minDynamicEid, poolSize)];
          }
        }
        // Step 3: announce its pool
        if minDynamicEid != maxDynamicEid {
          var allocateRequest, _, allocate := SendAllocateEidsRequest(minDynamicEid, poolSize, taken.allocate);
          sent := sent + [allocateRequest];
          if allocate.Err? || !allocate.value.IsSuccess() || !PoolStatusOf(allocate.value).AllocationAccepted? {
            return Discovery.Loop(nextEid, nextMsgTag, nextInstanceId, sent, grants, Discovery.Failed);
          }
        }
        return Discovery.Loop(nextEid, nextMsgTag, nextInstanceId, sent, grants, Discovery.Running);
      } else if pingEid != 0 {
        var request, _, get := SendGetEidRequest(pingEid, taken.get);
        sent := sent + [request];
        var status := if get.Ok? && get.value.IsSuccess() then Discovery.Running else Discovery.PingPanicked;
        return Discovery.Loop(nextEid, nextMsgTag, nextInstanceId, sent, grants, status);
      }
    }

    /** The loop over the polls it is given; it ends early when a poll fails or panics. */
    method RunBusOwnerLoop(build: Build, polls: seq<Discovery.PollInput>, pingEid: Byte) returns (l: Discovery.Loop)
      modifies this`assignedEid, this`performDiscovery, this`nextMsgTag, this`nextInstanceId
      ensures l == Discovery.LoopRun(build, Discovery.Start(minEidInPool, old(nextMsgTag), old(nextInstanceId)),
                                     Discovery.FirstTaking(old(performDiscovery), polls), pingEid)
      ensures l.tagCounter == nextMsgTag && l.instanceCounter == nextInstanceId
      ensures performDiscovery == (polls == [] && old(performDiscovery))
    {
      ghost var start := Discovery.Start(minEidInPool, nextMsgTag, nextInstanceId);
      ghost var taken := Discovery.FirstTaking(performDiscovery, polls);
      l := Discovery.Loop(minEidInPool, nextMsgTag, nextInstanceId, [], [], Discovery.Running);
      var i := 0;
      while i < |polls|
        invariant 0 <= i <= |polls|
        invariant l == Discovery.LoopRun(build, start, taken[..i], pingEid) && l.status.Running?
        invariant l.tagCounter == nextMsgTag && l.instanceCounter == nextInstanceId
        invariant performDiscovery == (i == 0 && old(performDiscovery))
      {
        Discovery.OnePollMore(build, start, taken, pingEid, i);
        l := PollOnce(build, l, polls[i], pingEid);
        i := i + 1;
        if !l.status.Running? {
          Discovery.StoppedStays(build, start, taken, pingEid, i);
          return;
        }
      }
      assert taken[..i] == taken;
    }
  }

  /** Builds the frame of a message step by step. */
  method FrameMessage(build: Build, msg: Buffer, pec: Checksum) returns (frame: Option<Buffer>)
    ensures frame == BusOwnerFrame(build, msg, pec)
  {
    var count := Add8(build, |msg| % 0x100, 1);
    if count.None? {
      return None;
    }
    var respBuf: Buffer := [];
    respBuf := respBuf + [ShiftLeft1(DEST_SMBUS_ADDR_7BIT), 0x0f, count.value, ShiftLeft1(SMBUS_ADDR_7BIT) + 1];
    assert respBuf == SmbusHeader(0x60, COMMAND_CODE_MCTP, count.value, 0x21).Encode();
    respBuf := respBuf + msg;
    respBuf := respBuf + [pec(respBuf)];
    return Some(respBuf);
  }

  class TransportActor {
    const ctx: MctpEndpointContext
    const pending: PendingFlows
    const on: Actors.Platform
    var alive: bool

    ghost predicate Valid()
      reads this, pending
    {
      pending.Valid()
    }

    ghost function State(): Actors.Actor
      reads this, ctx, pending
    {
      Actors.Actor(pending.State(), ctx.State(), alive)
    }

    constructor (ctx: MctpEndpointContext, on: Actors.Platform)
      ensures Valid() && fresh(pending) && this.ctx == ctx && this.on == on
      ensures State() == Actors.Actor(NO_FLOWS, ctx.State(), true)
    {
      this.ctx, this.on, alive := ctx, on, true;
      pending := new PendingFlows();
    }

    /** Registers the flow of a message that wants a reply, then frames the message. */
    method SendMsg(buf: Buffer, wantsReply: bool) returns (verdict: Actors.Verdict)
      requires Valid() && alive
      modifies this, pending
      ensures Valid()
      ensures Actors.Step(State(), verdict) == Actors.ActorStep(on, old(State()), Actors.SendMsg(buf, wantsReply))
    {
      if wantsReply {
        var _ := pending.Push(CreateTag(buf));
      }
      var frame := FrameMessage(on.build, buf, on.pec);
      if frame.None? {
        alive := false;
        return Actors.Panicked;
      }
      return Actors.Sent(frame.value);
    }

    /** Routes a received frame to the flow it completes or to the request handler. */
    method ReceiveMsg(buf: Buffer) returns (verdict: Actors.Verdict)
      requires Valid() && alive
      modifies this, pending, ctx`assignedEid, ctx`performDiscovery
      ensures Valid()
      ensures Actors.Step(State(), verdict) == Actors.ActorStep(on, old(State()), Actors.ReceiveMsg(buf))
    {
      if |buf| < 4 || buf[1] != 0x0f {
        return Actors.Dropped;
      }
      var respBuf := buf[4..];
      var responder := pending.Take(CreateTag(respBuf));
      if responder.Some? {
        return Actors.Completed(responder.value, respBuf);
      }
      var outcome := ctx.HandleRequest(buf[4..]);
      match outcome {
        case Failed =>
          return Actors.Errored;
        case Unimplemented =>
          alive := false;
          return Actors.Panicked;
        case Reply(resp) =>
          var frame := FrameMessage(on.build, resp, on.pec);
          if frame.None? {
            alive := false;
            return Actors.Panicked;
          }
          return Actors.Replied(frame.value);
      }
    }
  }
}
