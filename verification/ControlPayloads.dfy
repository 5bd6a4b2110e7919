/** A control message: transport header, control header and the raw bytes from the control header on. */
module ControlPayloads {
  import opened Bytes
  import opened Enums
  import opened Headers
  import opened Bodies

  const TOTAL_HDR_SIZE: nat := TRANSPORT_HDR_SIZE + CONTROL_HDR_SIZE

  /** The raw bytes repeat the control header; serialising writes them and never `controlHdr`. */
  datatype ControlPayload = ControlPayload(hdr: TransportHeader, controlHdr: ControlMsgHeader, payload: Buffer) {

    function Encode(): Buffer {
      hdr.Encode() + payload
    }

    function CommandCode(): Result<CommandCode> {
      if controlHdr.command.Unknown? then Err else Ok(controlHdr.command)
    }

    function CreateResponsePayload(controlHdr: ControlMsgHeader, responseBody: Buffer): ControlPayload {
      ControlPayload(hdr.CreateResponse(), controlHdr, responseBody)
    }

    /** The control header is the one the raw bytes start with. */
    predicate Coherent() {
      DecodeControlHeader(payload) == Ok(controlHdr)
    }
  }

  function Parse(b: Buffer): Result<ControlPayload> {
    if |b| < TOTAL_HDR_SIZE then Err else
      var payload := b[TRANSPORT_HDR_SIZE..];
      Ok(ControlPayload(ReadTransportHeader(b[..TRANSPORT_HDR_SIZE]),
                        ReadControlHeader(b[TRANSPORT_HDR_SIZE..TOTAL_HDR_SIZE]), payload))
  }

  function TryToResponse(kind: Kind, b: Buffer): Result<(ControlPayload, Body)> {
    match Parse(b)
    case Err => Err
    case Ok(p) =>
      match Decode(kind, p.payload)
      case Err => Err
      case Ok(m) => Ok((p, m))
  }

  /** A message built by the constructors: the control header is also the one in the body. */
  function Message(hdr: TransportHeader, m: Body): ControlPayload {
    ControlPayload(hdr, m.hdr, m.Encode())
  }

  /** Parsing fails exactly on fewer than seven bytes, loses nothing (reserved bits and unknown command
      codes included) and yields a control header that agrees with the raw bytes. */
  lemma ParseKeepsEveryByte(b: Buffer)
    ensures Parse(b).Ok? <==> |b| >= 7
    ensures Parse(b).Ok? ==> Parse(b).value.Encode() == b && Parse(b).value.Coherent()
  {
    if |b| >= 7 {
      TransportEncodeDecode(b[..4]);
      assert b[..4][..4] == b[..4];
      assert b == b[..4] + b[4..];
      assert b[4..7] == b[4..][..3];
    }
  }

  /** A payload survives serialising and parsing exactly when its control header agrees with its bytes. */
  lemma CoherentIffReadBack(p: ControlPayload)
    ensures Parse(p.Encode()) == Ok(p) <==> p.Coherent()
  {
    var b := p.Encode();
    assert b[4..] == p.payload;
    if |p.payload| >= 3 {
      TransportDecodeEncode(p.hdr, []);
      assert b[..4] == p.hdr.Encode() + [];
      assert b[4..7] == p.payload[..3];
    }
  }

  /** The agreement is kept by building a message and by building the response to any parsed one from a
      body and its own control header, as every arm of the responder does. */
  lemma BuiltPayloadsAreCoherent(hdr: TransportHeader, request: ControlPayload, m: Body)
    ensures Message(hdr, m).Coherent()
    ensures request.CreateResponsePayload(m.hdr, m.Encode()).Coherent()
  {
    ControlDecodeEncode(m.hdr, m.Fields());
  }

  /** Whatever bytes follow a built message, reading it as its own kind gives both headers and the body back. */
  lemma MessageReadBack(hdr: TransportHeader, m: Body, tail: Buffer)
    ensures TryToResponse(m.Kind(), Message(hdr, m).Encode() + tail)
         == Ok((ControlPayload(hdr, m.hdr, m.Encode() + tail), m))
  {
    var p := ControlPayload(hdr, m.hdr, m.Encode() + tail);
    assert Message(hdr, m).Encode() + tail == p.Encode();
    assert m.Encode() + tail == m.hdr.Encode() + (m.Fields() + tail);
    ControlDecodeEncode(m.hdr, m.Fields() + tail);
    CoherentIffReadBack(p);
    DecodeEncode(m, tail);
  }
}
