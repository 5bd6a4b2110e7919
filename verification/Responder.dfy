/** The request handler of an endpoint: one arm per command, each updating the endpoint state and
    building the reply. */
module Responder {
  import opened Bytes
  import opened Enums
  import opened Headers
  import opened Bodies
  import opened ControlPayloads

  /** The state shared with the discovery loop. */
  datatype Endpoint = Endpoint(assignedEid: Byte, performDiscovery: bool)

  /** `Unimplemented` is the panic on a command code outside the known ones. */
  datatype Outcome = Reply(bytes: Buffer) | Failed | Unimplemented

  datatype Handled = Handled(endpoint: Endpoint, outcome: Outcome)

  function ReplyWith(p: ControlPayload, resp: Body): Outcome {
    Reply(p.CreateResponsePayload(resp.hdr, resp.Encode()).Encode())
  }

  function HandleSetEid(ep: Endpoint, p: ControlPayload): Handled {
    match Decode(SetEidRequestKind, p.payload)
    case Err => Handled(ep, Failed)
    case Ok(req) =>
      var stored := ep.(assignedEid := req.eid);
      Handled(stored, ReplyWith(p, SetEidResponseFrom(req, Success, NoPoolSupport, Accepted, stored.assignedEid, 0)))
  }

  function HandleGetEid(ep: Endpoint, p: ControlPayload): Handled {
    match Decode(GetEidRequestKind, p.payload)
    case Err => Handled(ep, Failed)
    case Ok(req) => Handled(ep, ReplyWith(p, GetEidResponseFrom(req, Success, 0x00, Dynamic, Simple, 0)))
  }

  function HandleDiscoveryNotify(ep: Endpoint, p: ControlPayload): Handled {
    match Decode(EmptyRequestKind, p.payload)
    case Err => Handled(ep, Failed)
    case Ok(req) => Handled(ep.(performDiscovery := true), ReplyWith(p, EmptyResponseFrom(req, Success)))
  }

  function HandleGetRoutingTable(ep: Endpoint, p: ControlPayload): Handled {
    match Decode(RoutingRequestKind, p.payload)
    case Err => Handled(ep, Failed)
    case Ok(req) => Handled(ep, ReplyWith(p, RoutingResponseFrom(req, Success, 0xff, 0)))
  }

  function HandleUnsupported(ep: Endpoint, p: ControlPayload): Handled {
    match Decode(EmptyRequestKind, p.payload)
    case Err => Handled(ep, Failed)
    case Ok(req) => Handled(ep, ReplyWith(p, EmptyResponseFrom(req, ErrorUnsupportedCmd)))
  }

  function HandleRequest(ep: Endpoint, b: Buffer): Handled {
    match Parse(b)
    case Err => Handled(ep, Failed)
    case Ok(p) =>
      match p.CommandCode()
      case Err => Handled(ep, Unimplemented)
      case Ok(SetEndpointID) => HandleSetEid(ep, p)
      case Ok(GetEndpointID) => HandleGetEid(ep, p)
      case Ok(DiscoveryNotify) => HandleDiscoveryNotify(ep, p)
      case Ok(GetRoutingTableEntries) => HandleGetRoutingTable(ep, p)
      case Ok(_) => HandleUnsupported(ep, p)
  }

  // ----- the reference: replies byte by byte -----

  const SET_EID: Byte := 0x01
  const GET_EID: Byte := 0x02
  const GET_ROUTING_TABLE: Byte := 0x0A
  const DISCOVERY_NOTIFY: Byte := 0x0D

  /** The requests that are answered: a known command code and a body long enough for it. */
  predicate Answered(b: Buffer) {
    && |b| >= 7 && b[6] <= 0x14
    && (b[6] == SET_EID ==> |b| >= 9)
    && (b[6] == GET_ROUTING_TABLE ==> |b| >= 8)
  }

  /** What follows the two headers of the reply, from the completion code on. */
  function ReplyFields(b: Buffer): Buffer
    requires Answered(b)
  {
    if b[6] == SET_EID then [0, 0, b[8], 0]
    else if b[6] == GET_EID then [0, 0, 0, 0]
    else if b[6] == DISCOVERY_NOTIFY then [0]
    else if b[6] == GET_ROUTING_TABLE then [0, 0xFF, 0]
    else [5]
  }

  /** The seven header bytes of the reply, whatever the command: endpoints swapped, same tag, owner bit
      flipped, one packet with sequence 0; control header unchanged but for the request bit. */
  function ReplyHeader(b: Buffer): Buffer
    requires |b| >= 7
  {
    [1, b[2], b[1], b[3] % 8 + (if b[3] / 8 % 2 == 1 then 0 else 8) + 64 + 128, b[4], b[5] % 128, b[6]]
  }

  function ReplyBytes(b: Buffer): Buffer
    requires Answered(b)
  {
    ReplyHeader(b) + ReplyFields(b)
  }

  function EndpointAfter(ep: Endpoint, b: Buffer): Endpoint {
    if !Answered(b) then ep
    else if b[6] == SET_EID then ep.(assignedEid := b[8])
    else if b[6] == DISCOVERY_NOTIFY then ep.(performDiscovery := true)
    else ep
  }

  lemma ReplyTagByte(b: Buffer)
    requires |b| >= 7
    ensures Parse(b).value.hdr.CreateResponse().TagByte() == b[3] % 8 + (if b[3] / 8 % 2 == 1 then 0 else 8) + 64 + 128
  {
  }

  /** The header bytes of the reference are the response header and the cleared control header. */
  lemma ReplyHeaderEncodes(b: Buffer)
    requires |b| >= 7 && b[6] <= 0x14
    ensures ReplyHeader(b)
         == Parse(b).value.hdr.CreateResponse().Encode() + Parse(b).value.controlHdr.ClearRq().Encode()
  {
    ClearRqBytes(b[4..7]);
    ReplyTagByte(b);
  }

  /** A reply is the response header, the body's control header and the body's fields. */
  lemma ReplyConcat(p: ControlPayload, resp: Body, head: Buffer, fields: Buffer)
    requires head == p.hdr.CreateResponse().Encode() + resp.hdr.Encode() && resp.Fields() == fields
    ensures ReplyWith(p, resp) == Reply(head + fields)
  {
    var h := p.hdr.CreateResponse().Encode();
    assert h + (resp.hdr.Encode() + fields) == (h + resp.hdr.Encode()) + fields;
  }

  /** Every reply that copies the request's control header has the reference header. */
  lemma ReplyHeaderBytes(b: Buffer, resp: Body, fields: Buffer)
    requires |b| >= 7 && b[6] <= 0x14
    requires resp.hdr == Parse(b).value.controlHdr.ClearRq() && resp.Fields() == fields
    ensures ReplyWith(Parse(b).value, resp) == Reply(ReplyHeader(b) + fields)
  {
    ReplyHeaderEncodes(b);
    ReplyConcat(Parse(b).value, resp, ReplyHeader(b), fields);
  }

  lemma BodyHeader(b: Buffer)
    requires |b| >= 7
    ensures Parse(b).Ok? && ReadControlHeader(Parse(b).value.payload) == Parse(b).value.controlHdr
    ensures |Parse(b).value.payload| == |b| - 4
    ensures |b| >= 9 ==> Parse(b).value.payload[4] == b[8]
    ensures Parse(b).value.controlHdr.command == CommandCodeFromByte(b[6])
  {
    assert b[4..][..3] == b[4..7];
  }

  /** The outcome the reference gives to a byte string. */
  function Expected(b: Buffer): Outcome {
    if Answered(b) then Reply(ReplyBytes(b))
    else if |b| >= 7 && b[6] > 0x14 then Unimplemented
    else Failed
  }

  lemma SetEidReplies(ep: Endpoint, p: ControlPayload, eid: Byte, reply: Outcome)
    requires |p.payload| >= 5 && ReadControlHeader(p.payload) == p.controlHdr && eid == p.payload[4]
    requires ReplyWith(p, SetEidResponse(p.controlHdr.ClearRq(), 0, Quad(0, 0, 0, 0), eid, 0)) == reply
    ensures HandleSetEid(ep, p) == Handled(ep.(assignedEid := eid), reply)
  {
    assert SetEidResponseFrom(SetEidRequest(p.controlHdr, p.payload[3], eid), Success, NoPoolSupport, Accepted, eid, 0)
        == SetEidResponse(p.controlHdr.ClearRq(), 0, Quad(0, 0, 0, 0), eid, 0);
  }

  lemma SetEidReplyBytes(p: ControlPayload, hdr: ControlMsgHeader, head: Buffer, eid: Byte)
    requires head == p.hdr.CreateResponse().Encode() + hdr.Encode()
    ensures ReplyWith(p, SetEidResponse(hdr, 0, Quad(0, 0, 0, 0), eid, 0)) == Reply(head + [0, 0, eid, 0])
  {
    SetEidFields(hdr, eid);
    ReplyConcat(p, SetEidResponse(hdr, 0, Quad(0, 0, 0, 0), eid, 0), head, [0, 0, eid, 0]);
  }

  lemma SetEidFields(hdr: ControlMsgHeader, eid: Byte)
    ensures SetEidResponse(hdr, 0, Quad(0, 0, 0, 0), eid, 0).Fields() == [0, 0, eid, 0]
  {
  }

  lemma SetEidArm(ep: Endpoint, b: Buffer)
    requires |b| >= 9 && b[6] == SET_EID
    ensures HandleSetEid(ep, Parse(b).value)
         == Handled(ep.(assignedEid := b[8]), Reply(ReplyHeader(b) + [0, 0, b[8], 0]))
  {
    BodyHeader(b);
    ReplyHeaderEncodes(b);
    SetEidReplyBytes(Parse(b).value, Parse(b).value.controlHdr.ClearRq(), ReplyHeader(b), b[8]);
    SetEidReplies(ep, Parse(b).value, b[8], Reply(ReplyHeader(b) + [0, 0, b[8], 0]));
  }

  lemma GetEidReplies(ep: Endpoint, p: ControlPayload, reply: Outcome)
    requires |p.payload| >= 3 && ReadControlHeader(p.payload) == p.controlHdr
    requires ReplyWith(p, GetEidResponse(p.controlHdr.ClearRq(), 0, 0, Quad(0, 0, 0, 0), 0)) == reply
    ensures HandleGetEid(ep, p) == Handled(ep, reply)
  {
    assert GetEidResponseFrom(GetEidRequest(p.controlHdr), Success, 0, Dynamic, Simple, 0)
        == GetEidResponse(p.controlHdr.ClearRq(), 0, 0, Quad(0, 0, 0, 0), 0);
  }

  lemma GetEidReplyBytes(p: ControlPayload, hdr: ControlMsgHeader, head: Buffer)
    requires head == p.hdr.CreateResponse().Encode() + hdr.Encode()
    ensures ReplyWith(p, GetEidResponse(hdr, 0, 0, Quad(0, 0, 0, 0), 0)) == Reply(head + [0, 0, 0, 0])
  {
    GetEidFields(hdr);
    ReplyConcat(p, GetEidResponse(hdr, 0, 0, Quad(0, 0, 0, 0), 0), head, [0, 0, 0, 0]);
  }

  lemma GetEidFields(hdr: ControlMsgHeader)
    ensures GetEidResponse(hdr, 0, 0, Quad(0, 0, 0, 0), 0).Fields() == [0, 0, 0, 0]
  {
  }

  lemma GetEidArm(ep: Endpoint, b: Buffer)
    requires |b| >= 7 && b[6] == GET_EID
    ensures HandleGetEid(ep, Parse(b).value) == Handled(ep, Reply(ReplyHeader(b) + [0, 0, 0, 0]))
  {
    BodyHeader(b);
    ReplyHeaderEncodes(b);
    GetEidReplyBytes(Parse(b).value, Parse(b).value.controlHdr.ClearRq(), ReplyHeader(b));
    GetEidReplies(ep, Parse(b).value, Reply(ReplyHeader(b) + [0, 0, 0, 0]));
  }

  lemma DiscoveryNotifyArm(ep: Endpoint, b: Buffer)
    requires |b| >= 7 && b[6] == DISCOVERY_NOTIFY
    ensures HandleDiscoveryNotify(ep, Parse(b).value) == Handled(EndpointAfter(ep, b), Expected(b))
  {
    BodyHeader(b);
    ReplyHeaderBytes(b, EmptyResponse(Parse(b).value.controlHdr.ClearRq(), 0), [0]);
  }

  lemma RoutingTableArm(ep: Endpoint, b: Buffer)
    requires |b| >= 7 && b[6] == GET_ROUTING_TABLE
    ensures HandleGetRoutingTable(ep, Parse(b).value) == Handled(EndpointAfter(ep, b), Expected(b))
  {
    BodyHeader(b);
    if |b| >= 8 {
      ReplyHeaderBytes(b, RoutingResponse(Parse(b).value.controlHdr.ClearRq(), 0, 0xFF, 0), [0, 0xFF, 0]);
    }
  }

  lemma UnsupportedArm(ep: Endpoint, b: Buffer)
    requires |b| >= 7 && b[6] <= 0x14 && b[6] !in {SET_EID, GET_EID, DISCOVERY_NOTIFY, GET_ROUTING_TABLE}
    ensures HandleUnsupported(ep, Parse(b).value) == Handled(EndpointAfter(ep, b), Expected(b))
  {
    BodyHeader(b);
    ReplyHeaderBytes(b, EmptyResponse(Parse(b).value.controlHdr.ClearRq(), 5), [5]);
  }

  /** The handler is the reference on every byte string: it replies exactly to the answered requests,
      panics exactly on a complete header with an unknown command, and fails on the rest. */
  lemma HandlerMeetsReference(ep: Endpoint, b: Buffer)
    ensures HandleRequest(ep, b) == Handled(EndpointAfter(ep, b), Expected(b))
  {
    if |b| >= 7 {
      BodyHeader(b);
      CommandCodeRoundTrips(Unknown, b[6]);
      if b[6] == SET_EID {
        BodyHeader(b);
        if |b| >= 9 {
          SetEidArm(ep, b);
        }
      } else if b[6] == GET_EID {
        GetEidArm(ep, b);
      } else if b[6] == DISCOVERY_NOTIFY {
        DiscoveryNotifyArm(ep, b);
      } else if b[6] == GET_ROUTING_TABLE {
        RoutingTableArm(ep, b);
      } else if b[6] <= 0x14 {
        UnsupportedArm(ep, b);
      }
    }
  }

  /** The requester reads back from every reply, whatever byte follows it: endpoints swapped, same tag,
      owner bit flipped, one packet; and the request's control header with only the request bit cleared. */
  lemma ReplyReadBack(b: Buffer, tail: Buffer)
    requires Answered(b)
    ensures Parse(b).Ok? && Parse(ReplyBytes(b) + tail).Ok?
    ensures Parse(ReplyBytes(b) + tail).value.hdr == Parse(b).value.hdr.CreateResponse()
    ensures Parse(ReplyBytes(b) + tail).value.controlHdr == Parse(b).value.controlHdr.ClearRq()
  {
    var q := Parse(b).value;
    var rest := ReplyFields(b) + tail;
    var answer := ControlPayload(q.hdr.CreateResponse(), q.controlHdr.ClearRq(),
                                 q.controlHdr.ClearRq().Encode() + rest);
    ReplyHeaderEncodes(b);
    assert ReplyBytes(b) + tail == answer.Encode();
    ControlDecodeEncode(q.controlHdr.ClearRq(), rest);
    CoherentIffReadBack(answer);
  }

  /** A Get Endpoint ID after a Set Endpoint ID reports the EID that was set only if that was 0: the
      handler always reports 0. */
  lemma GetReportsTheSetEidOnlyIfZero(ep: Endpoint, setRequest: Buffer, getRequest: Buffer)
    requires Answered(setRequest) && setRequest[6] == SET_EID
    requires Answered(getRequest) && getRequest[6] == GET_EID
    ensures var afterSet := HandleRequest(ep, setRequest).endpoint;
            var answer := HandleRequest(afterSet, getRequest).outcome;
            && afterSet.assignedEid == setRequest[8]
            && answer.Reply? && |answer.bytes| > 8
            && (answer.bytes[8] == afterSet.assignedEid <==> setRequest[8] == 0)
  {
    HandlerMeetsReference(ep, setRequest);
    HandlerMeetsReference(HandleRequest(ep, setRequest).endpoint, getRequest);
    assert ReplyBytes(getRequest)[8] == ReplyFields(getRequest)[1];
  }
}
