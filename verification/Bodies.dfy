/** The typed control message bodies (sections 12.3, 12.4, 12.8 and 12.10 of DSP0236) with their
    length-checked decoders. Every body starts with the three bytes of the control header. */
module Bodies {
  import opened Bytes
  import opened Enums
  import opened Headers

  datatype Kind =
    | EmptyRequestKind
    | EmptyResponseKind
    | SetEidRequestKind
    | SetEidResponseKind
    | AllocateRequestKind
    | AllocateResponseKind
    | GetEidRequestKind
    | GetEidResponseKind
    | RoutingRequestKind
    | RoutingResponseKind

  /** The packed size of the structure, control header included. */
  function Size(kind: Kind): nat {
    match kind
    case EmptyRequestKind => 3
    case EmptyResponseKind => 4
    case SetEidRequestKind => 5
    case SetEidResponseKind => 7
    case AllocateRequestKind => 6
    case AllocateResponseKind => 7
    case GetEidRequestKind => 3
    case GetEidResponseKind => 7
    case RoutingRequestKind => 4
    case RoutingResponseKind => 6
  }

  datatype Body =
    | EmptyRequest(hdr: ControlMsgHeader)
    | EmptyResponse(hdr: ControlMsgHeader, completionByte: Byte)
    | SetEidRequest(hdr: ControlMsgHeader, operationByte: Byte, eid: Byte)
    | SetEidResponse(hdr: ControlMsgHeader, completionByte: Byte, status: Quad, eidSetting: Byte, eidPoolSize: Byte)
    | AllocateRequest(hdr: ControlMsgHeader, operationByte: Byte, numberOfEids: Byte, startingEid: Byte)
    | AllocateResponse(hdr: ControlMsgHeader, completionByte: Byte, status: Quad, eidPoolSize: Byte, firstEid: Byte)
    | GetEidRequest(hdr: ControlMsgHeader)
    | GetEidResponse(hdr: ControlMsgHeader, completionByte: Byte, eid: Byte, types: Quad, mediumSpecific: Byte)
    | RoutingRequest(hdr: ControlMsgHeader, entryHandle: Byte)
    | RoutingResponse(hdr: ControlMsgHeader, completionByte: Byte, nextEntryHandle: Byte, entriesInResponse: Byte)
  {
    function Kind(): Kind {
      match this
      case EmptyRequest(_) => EmptyRequestKind
      case EmptyResponse(_, _) => EmptyResponseKind
      case SetEidRequest(_, _, _) => SetEidRequestKind
      case SetEidResponse(_, _, _, _, _) => SetEidResponseKind
      case AllocateRequest(_, _, _, _) => AllocateRequestKind
      case AllocateResponse(_, _, _, _, _) => AllocateResponseKind
      case GetEidRequest(_) => GetEidRequestKind
      case GetEidResponse(_, _, _, _, _) => GetEidResponseKind
      case RoutingRequest(_, _) => RoutingRequestKind
      case RoutingResponse(_, _, _, _) => RoutingResponseKind
    }

    /** The bytes after the control header, in declaration order. */
    function Fields(): Buffer {
      match this
      case EmptyRequest(_) => []
      case EmptyResponse(_, code) => [code]
      case SetEidRequest(_, operation, eid) => [operation, eid]
      case SetEidResponse(_, code, status, setting, pool) => [code, status.Encode(), setting, pool]
      case AllocateRequest(_, operation, number, start) => [operation, number, start]
      case AllocateResponse(_, code, status, pool, first) => [code, status.Encode(), pool, first]
      case GetEidRequest(_) => []
      case GetEidResponse(_, code, eid, types, medium) => [code, eid, types.Encode(), medium]
      case RoutingRequest(_, handle) => [handle]
      case RoutingResponse(_, code, next, entries) => [code, next, entries]
    }

    function Encode(): Buffer {
      hdr.Encode() + Fields()
    }

    /** `is_success` of the response types. */
    predicate IsSuccess()
      requires SetEidResponse? || AllocateResponse? || GetEidResponse? || RoutingResponse?
    {
      CompletionCodeFromByte(completionByte) == Success
    }
  }

  /** Fails only on a buffer shorter than the structure. */
  function Decode(kind: Kind, b: Buffer): (r: Result<Body>)
    ensures r.Ok? <==> |b| >= Size(kind)
    ensures r.Ok? ==> r.value.Kind() == kind
  {
    if |b| < Size(kind) then Err else
      var hdr := ReadControlHeader(b);
      match kind
      case EmptyRequestKind => Ok(EmptyRequest(hdr))
      case EmptyResponseKind => Ok(EmptyResponse(hdr, b[3]))
      case SetEidRequestKind => Ok(SetEidRequest(hdr, b[3], b[4]))
      case SetEidResponseKind => Ok(SetEidResponse(hdr, b[3], ReadQuad(b[4]), b[5], b[6]))
      case AllocateRequestKind => Ok(AllocateRequest(hdr, b[3], b[4], b[5]))
      case AllocateResponseKind => Ok(AllocateResponse(hdr, b[3], ReadQuad(b[4]), b[5], b[6]))
      case GetEidRequestKind => Ok(GetEidRequest(hdr))
      case GetEidResponseKind => Ok(GetEidResponse(hdr, b[3], b[4], ReadQuad(b[5]), b[6]))
      case RoutingRequestKind => Ok(RoutingRequest(hdr, b[3]))
      case RoutingResponseKind => Ok(RoutingResponse(hdr, b[3], b[4], b[5]))
  }

  // ----- readers of packed status bytes -----

  function AllocationStatusOf(r: Body): EidAllocationStatus
    requires r.SetEidResponse?
  {
    EidAllocationStatusFromByte(r.status.bits01)
  }

  function AssignmentBits(r: Body): Byte
    requires r.SetEidResponse?
  {
    r.status.bits45
  }

  function PoolStatusOf(r: Body): AllocationStatus
    requires r.AllocateResponse?
  {
    AllocationStatusFromByte(r.status.bits01)
  }

  function EidTypeOf(r: Body): EidType
    requires r.GetEidResponse?
  {
    EidTypeFromByte(r.types.bits01)
  }

  function EndpointTypeOf(r: Body): EndpointType
    requires r.GetEidResponse?
  {
    EndpointTypeFromByte(r.types.bits45)
  }

  // ----- constructors -----

  function EmptyResponseFrom(req: Body, code: CompletionCode): Body
    requires req.EmptyRequest?
  {
    EmptyResponse(req.hdr.ClearRq(), code.ToByte())
  }

  /** Two bits are enough for every operation. */
  function NewSetEidRequest(hdr: ControlMsgHeader, operation: SetEidOperation, eid: Byte): (r: Body)
    ensures r.SetEidRequest? && r.operationByte == operation.ToByte()
  {
    SetEidRequest(hdr, operation.ToByte() % 4, eid)
  }

  function SetEidResponseFrom(req: Body, code: CompletionCode, allocation: EidAllocationStatus,
                              assignment: EidAssignmentStatus, eidSetting: Byte, eidPoolSize: Byte): (r: Body)
    requires req.SetEidRequest?
    ensures r.SetEidResponse? && r.IsSuccess() == code.Success?
    ensures r.eidSetting == eidSetting && r.eidPoolSize == eidPoolSize
    ensures AllocationStatusOf(r) == allocation && AssignmentBits(r) == assignment.ToByte()
  {
    SetEidResponse(req.hdr.ClearRq(), code.ToByte(),
                   Quad(allocation.ToByte(), 0, assignment.ToByte(), 0), eidSetting, eidPoolSize)
  }

  function NewAllocateRequest(hdr: ControlMsgHeader, operation: AllocateOperation,
                              numberOfEids: Byte, startingEid: Byte): (r: Body)
    ensures r.AllocateRequest? && r.operationByte == operation.ToByte()
  {
    AllocateRequest(hdr, operation.ToByte() % 4, numberOfEids, startingEid)
  }

  function GetEidResponseFrom(req: Body, code: CompletionCode, eid: Byte, eidType: EidType,
                              endpointType: EndpointType, mediumSpecific: Byte): (r: Body)
    requires req.GetEidRequest?
    ensures r.GetEidResponse? && r.IsSuccess() == code.Success? && r.eid == eid && r.mediumSpecific == mediumSpecific
    ensures EidTypeOf(r) == eidType && EndpointTypeOf(r) == endpointType
  {
    GetEidResponse(req.hdr.ClearRq(), code.ToByte(), eid,
                   Quad(eidType.ToByte(), 0, endpointType.ToByte(), 0), mediumSpecific)
  }

  function RoutingResponseFrom(req: Body, code: CompletionCode, nextEntryHandle: Byte, entriesInResponse: Byte): Body
    requires req.RoutingRequest?
  {
    RoutingResponse(req.hdr.ClearRq(), code.ToByte(), nextEntryHandle, entriesInResponse)
  }

  // ----- laws -----

  /** Where the fields of each body stand on the wire, counted from the control header. */
  lemma FieldPositions(m: Body)
    ensures var b := m.Encode();
            && |b| == Size(m.Kind()) && b[..3] == m.hdr.Encode()
            && (m.EmptyResponse? ==> b[3] == m.completionByte)
            && (m.SetEidRequest? ==> b[3] == m.operationByte && b[4] == m.eid)
            && (m.SetEidResponse? ==>
                  && b[3] == m.completionByte && b[5] == m.eidSetting && b[6] == m.eidPoolSize
                  && b[4] == m.status.bits01 + 4 * m.status.bits23 + 16 * m.status.bits45 + 64 * m.status.bits67)
            && (m.AllocateRequest? ==> b[3] == m.operationByte && b[4] == m.numberOfEids && b[5] == m.startingEid)
            && (m.AllocateResponse? ==>
                  && b[3] == m.completionByte && b[5] == m.eidPoolSize && b[6] == m.firstEid
                  && b[4] == m.status.bits01 + 4 * m.status.bits23 + 16 * m.status.bits45 + 64 * m.status.bits67)
            && (m.GetEidResponse? ==>
                  && b[3] == m.completionByte && b[4] == m.eid && b[6] == m.mediumSpecific
                  && b[5] == m.types.bits01 + 4 * m.types.bits23 + 16 * m.types.bits45 + 64 * m.types.bits67)
            && (m.RoutingRequest? ==> b[3] == m.entryHandle)
            && (m.RoutingResponse? ==>
                  b[3] == m.completionByte && b[4] == m.nextEntryHandle && b[5] == m.entriesInResponse)
  {
    assert m.Encode()[..3] == m.hdr.Encode() && m.Encode()[3..] == m.Fields();
  }

  /** Every body is read back from its bytes, whatever bytes follow. */
  lemma DecodeEncode(m: Body, tail: Buffer)
    ensures |m.Encode()| == Size(m.Kind())
    ensures Decode(m.Kind(), m.Encode() + tail) == Ok(m)
  {
    ControlDecodeEncode(m.hdr, m.Fields() + tail);
    var b := m.Encode() + tail;
    assert b[..3] == m.hdr.Encode();
    assert b[3..] == m.Fields() + tail;
    match m {
      case SetEidResponse(_, _, status, _, _) => QuadDecodeEncode(status);
      case AllocateResponse(_, _, status, _, _) => QuadDecodeEncode(status);
      case GetEidResponse(_, _, _, types, _) => QuadDecodeEncode(types);
      case _ =>
    }
  }

  /** Writing a decoded body gives its bytes back exactly when the command byte is one that a
      command code is written as; otherwise the command byte comes back as 0xFF. */
  lemma EncodeDecode(kind: Kind, b: Buffer)
    requires |b| >= Size(kind)
    ensures Decode(kind, b).value.Encode() == b[..Size(kind)][2 := if IsCommandByte(b[2]) then b[2] else 0xFF]
    ensures Decode(kind, b).value.Encode() == b[..Size(kind)] <==> IsCommandByte(b[2])
  {
    ControlEncodeDecode(b);
    match kind {
      case SetEidResponseKind => QuadEncodeDecode(b[4]);
      case AllocateResponseKind => QuadEncodeDecode(b[4]);
      case GetEidResponseKind => QuadEncodeDecode(b[5]);
      case _ =>
    }
    var e := Decode(kind, b).value.Encode();
    assert e[2] == (if IsCommandByte(b[2]) then b[2] else 0xFF);
  }

  /** A decoder that succeeds is blind to trailing bytes; so a body that lacks exactly its last byte
      is accepted as soon as any byte, such as a checksum that was not stripped, follows it. */
  lemma TrailingBytes(kind: Kind, b: Buffer, tail: Buffer, last: Byte)
    ensures Decode(kind, b).Ok? ==> Decode(kind, b + tail) == Decode(kind, b)
    ensures Decode(kind, b).Err? && Decode(kind, b + [last]).Ok? <==> |b| == Size(kind) - 1
  {
  }
}
