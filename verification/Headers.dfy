/** The two packed headers: the transport header (section 8.1 of DSP0236) and the control message
    header. A header is the record of its bit fields; `Encode` places the fields in their bytes. */
module Headers {
  import opened Bytes
  import opened Enums

  const SUPPORTED_HDR_VERSION: Bits4 := 0x1
  const TRANSPORT_HDR_SIZE: nat := 4
  const CONTROL_HDR_SIZE: nat := 3

  datatype TransportHeader = TransportHeader(
    headerVersion: Bits4, rsvd: Bits4,
    destinationEid: Byte, sourceEid: Byte,
    msgTag: Bits3, tagOwner: bool, packetSeq: Bits2, eom: bool, som: bool)
  {
    /** Setting a bit field keeps the low bits of the value. */
    function SetMsgTag(v: Byte): TransportHeader { this.(msgTag := v % 8) }

    static function New(srcEid: Byte, dstEid: Byte, msgTag: Byte, tagOwner: bool, som: bool, eom: bool): TransportHeader
    {
      TransportHeader(0, 0, dstEid, srcEid, 0, false, 0, false, false)
        .(headerVersion := SUPPORTED_HDR_VERSION)
        .SetMsgTag(msgTag)
        .(tagOwner := tagOwner)
        .(som := som)
        .(eom := eom)
    }

    function CreateResponse(): TransportHeader {
      New(destinationEid, sourceEid, msgTag, !tagOwner, true, true)
    }

    function VersionByte(): Byte { headerVersion + 16 * rsvd }

    function TagByte(): Byte { msgTag + 8 * Bit(tagOwner) + 16 * packetSeq + 64 * Bit(eom) + 128 * Bit(som) }

    function Encode(): Buffer {
      [VersionByte(), destinationEid, sourceEid, TagByte()]
    }
  }

  function ReadTransportHeader(b: Buffer): TransportHeader
    requires |b| >= TRANSPORT_HDR_SIZE
  {
    TransportHeader(b[0] % 16, b[0] / 16, b[1], b[2],
                    b[3] % 8, b[3] / 8 % 2 == 1, b[3] / 16 % 4, b[3] / 64 % 2 == 1, b[3] / 128 % 2 == 1)
  }

  /** Fails only on a short buffer; bytes past the fourth are ignored. */
  function DecodeTransportHeader(b: Buffer): Result<TransportHeader> {
    if |b| < TRANSPORT_HDR_SIZE then Err else Ok(ReadTransportHeader(b))
  }

  /** A transport header is read back from its bytes, whatever follows them. */
  lemma TransportDecodeEncode(h: TransportHeader, tail: Buffer)
    ensures DecodeTransportHeader(h.Encode() + tail) == Ok(h)
  {
    Unpack31211(h.msgTag, h.tagOwner, h.packetSeq, h.eom, h.som);
  }

  /** The four bytes are restored from the header, reserved bits included. */
  lemma TransportEncodeDecode(b: Buffer)
    requires |b| >= TRANSPORT_HDR_SIZE
    ensures ReadTransportHeader(b).Encode() == b[..4]
  {
    TagBits(b[3]);
  }

  lemma TagBits(b: Byte)
    ensures b == b % 8 + 8 * Bit(b / 8 % 2 == 1) + 16 * (b / 16 % 4)
              + 64 * Bit(b / 64 % 2 == 1) + 128 * Bit(b / 128 % 2 == 1)
  {
  }

  /** A constructed header byte by byte: version 1, destination, source, then the start (128), end (64) and
      owner (8) bits with three tag bits. */
  lemma NewHeaderBytes(srcEid: Byte, dstEid: Byte, msgTag: Byte, tagOwner: bool, som: bool, eom: bool)
    ensures TransportHeader.New(srcEid, dstEid, msgTag, tagOwner, som, eom).Encode()
        == [1, dstEid, srcEid,
            (if som then 128 else 0) + (if eom then 64 else 0) + (if tagOwner then 8 else 0) + msgTag % 8]
  {
  }

  /** Where the fields stand on the wire: the version in the low half of its byte, the tag in the low three
      bits of the last one, above it the owner bit (8), the sequence (16), the end (64) and the start (128). */
  lemma TransportFieldPositions(h: TransportHeader)
    ensures h.Encode()[0] == h.headerVersion + 16 * h.rsvd && h.Encode()[1..3] == [h.destinationEid, h.sourceEid]
    ensures h.Encode()[3] == h.msgTag + 16 * h.packetSeq + (if h.tagOwner then 8 else 0)
                           + (if h.eom then 64 else 0) + (if h.som then 128 else 0)
  {
  }

  datatype ControlMsgHeader = ControlMsgHeader(
    msgType: Bits7, integrityCheck: bool,
    instanceId: Bits5, rsvd: bool, dBit: bool, rq: bool,
    command: CommandCode)
  {
    /** Setting a bit field keeps the low bits of the value. */
    function SetInstanceId(v: Byte): ControlMsgHeader { this.(instanceId := v % 32) }

    function ClearRq(): ControlMsgHeader { this.(rq := false) }

    static function New(command: CommandCode, instanceId: Byte, integrityCheck: bool,
                        request: bool, datagram: bool): ControlMsgHeader
    {
      ControlMsgHeader(0, false, 0, false, false, false, Unknown)
        .(rq := request)
        .SetInstanceId(instanceId)
        .(integrityCheck := integrityCheck)
        .(dBit := datagram)
        .(command := command)
    }

    function TypeByte(): Byte { msgType + 128 * Bit(integrityCheck) }

    function FlagsByte(): Byte { instanceId + 32 * Bit(rsvd) + 64 * Bit(dBit) + 128 * Bit(rq) }

    function Encode(): Buffer {
      [TypeByte(), FlagsByte(), command.ToByte()]
    }
  }

  /** A constructed control header byte by byte: integrity bit (128) over message type 0, the request (128)
      and datagram (64) bits with five instance bits, the command. */
  lemma NewControlBytes(command: CommandCode, instanceId: Byte, integrityCheck: bool, request: bool, datagram: bool)
    ensures ControlMsgHeader.New(command, instanceId, integrityCheck, request, datagram).Encode()
        == [if integrityCheck then 128 else 0,
            (if request then 128 else 0) + (if datagram then 64 else 0) + instanceId % 32, command.ToByte()]
  {
  }

  /** Where the fields stand on the wire: the message type below the integrity bit (128); the instance id in
      the low five bits, above it the reserved (32), datagram (64) and request (128) bits. */
  lemma ControlFieldPositions(h: ControlMsgHeader)
    ensures h.Encode()[0] == h.msgType + (if h.integrityCheck then 128 else 0)
    ensures h.Encode()[1] == h.instanceId + (if h.rsvd then 32 else 0) + (if h.dBit then 64 else 0)
                           + (if h.rq then 128 else 0)
    ensures h.Encode()[2] == h.command.ToByte()
  {
  }

  function ReadControlHeader(b: Buffer): ControlMsgHeader
    requires |b| >= CONTROL_HDR_SIZE
  {
    ControlMsgHeader(b[0] % 128, b[0] / 128 == 1,
                     b[1] % 32, b[1] / 32 % 2 == 1, b[1] / 64 % 2 == 1, b[1] / 128 % 2 == 1,
                     CommandCodeFromByte(b[2]))
  }

  function DecodeControlHeader(b: Buffer): Result<ControlMsgHeader> {
    if |b| < CONTROL_HDR_SIZE then Err else Ok(ReadControlHeader(b))
  }

  /** A control header is read back from its bytes, whatever follows them. */
  lemma ControlDecodeEncode(h: ControlMsgHeader, tail: Buffer)
    ensures DecodeControlHeader(h.Encode() + tail) == Ok(h)
  {
    Unpack5111(h.instanceId, h.rsvd, h.dBit, h.rq);
    CommandCodeRoundTrips(h.command, 0);
  }

  /** The three bytes are restored except that an unnamed command byte comes back as 0xFF. */
  lemma ControlEncodeDecode(b: Buffer)
    requires |b| >= CONTROL_HDR_SIZE
    ensures ReadControlHeader(b).Encode() == [b[0], b[1], if IsCommandByte(b[2]) then b[2] else 0xFF]
  {
    FlagBits(b[1]);
    CommandCodeRoundTrips(Unknown, b[2]);
  }

  lemma FlagBits(b: Byte)
    ensures b == b % 32 + 32 * Bit(b / 32 % 2 == 1) + 64 * Bit(b / 64 % 2 == 1) + 128 * Bit(b / 128 % 2 == 1)
  {
  }

  lemma LowFlagBits(b: Byte)
    ensures b % 128 == b % 32 + 32 * Bit(b / 32 % 2 == 1) + 64 * Bit(b / 64 % 2 == 1)
  {
    FlagBits(b);
  }

  /** Clearing the request bit subtracts its weight from the flags byte and nothing more. */
  lemma ClearRqBytes(b: Buffer)
    requires |b| >= CONTROL_HDR_SIZE && IsCommandByte(b[2])
    ensures ReadControlHeader(b).ClearRq().Encode() == [b[0], b[1] % 128, b[2]]
  {
    ControlEncodeDecode(b);
    LowFlagBits(b[1]);
    assert ReadControlHeader(b).ClearRq().Encode()[0] == ReadControlHeader(b).Encode()[0];
  }
}
