/** SMBus framing: the address check, the physical header and the two frame builders. The PEC
    checksum is a function parameter: its polynomial belongs to a library outside the repository. */
module Smbus {
  import opened Bytes
  import opened Headers
  import opened Bodies
  import opened ControlPayloads

  const COMMAND_CODE_MCTP: Byte := 0x0f

  // The fixed addresses of the bus owner example
  const SMBUS_ADDR_7BIT: Byte := 0x10
  const DEST_SMBUS_ADDR_7BIT: Byte := 0x30

  type Checksum = Buffer -> Byte

  predicate ValidateSmbusAddress(addr: nat) {
    !(addr < 8 || addr / 8 == 0xF || addr > 0x7F)
  }

  /** The accepted addresses are one interval: both reserved blocks lie outside it. */
  lemma ValidAddresses(addr: nat)
    ensures ValidateSmbusAddress(addr) <==> 0x08 <= addr <= 0x77
  {
  }

  /** The mask of seven bits changes no accepted address. */
  lemma SevenBits(addr: nat)
    ensures ValidateSmbusAddress(addr) <==> 0x08 <= addr <= 0x77
    ensures ValidateSmbusAddress(addr) ==> addr % 0x80 == addr
  {
    ValidAddresses(addr);
  }

  /** `<< 1` on a `u8` drops the top bit. */
  function ShiftLeft1(b: Byte): Byte { b * 2 % 0x100 }

  datatype SmbusHeader = SmbusHeader(destAddr: Byte, commandCode: Byte, byteCount: Byte, srcAddr: Byte) {
    static function New(destAddr7: Byte, srcAddr7: Byte, byteCount: Byte): SmbusHeader {
      SmbusHeader(ShiftLeft1(destAddr7), COMMAND_CODE_MCTP, byteCount, ShiftLeft1(srcAddr7) + 1)
    }

    function Encode(): Buffer {
      [destAddr, commandCode, byteCount, srcAddr]
    }
  }

  function DecodeSmbusHeader(b: Buffer): Result<SmbusHeader> {
    if |b| < 4 then Err else Ok(SmbusHeader(b[0], b[1], b[2], b[3]))
  }

  /** The frame of the SMBus binding: the count and the PEC cover the message alone. */
  function BindingFrame(destAddr7: Byte, srcAddr7: Byte, msg: Buffer, pec: Checksum): Buffer {
    SmbusHeader.New(destAddr7, srcAddr7, |msg| % 0x100).Encode() + msg + [pec(msg)]
  }

  /** The frame of the bus owner example: the count includes the source address byte and the PEC covers
      everything before it. `None` is the panic of a checked build on `buf.len() as u8 + 1`. */
  function BusOwnerFrame(build: Build, msg: Buffer, pec: Checksum): Option<Buffer> {
    match Add8(build, |msg| % 0x100, 1)
    case None => None
    case Some(count) =>
      var covered := SmbusHeader(0x60, COMMAND_CODE_MCTP, count, 0x21).Encode() + msg;
      Some(covered + [pec(covered)])
  }

  datatype Transmission = InvalidAddress | NeedsFragmenting | Framed(frame: Buffer)

  class SmbusNetDevBinding {
    var address: Byte

    /** An address that is refused leaves the binding at address 0 without an error. */
    constructor (address: Byte)
      ensures this.address == if ValidateSmbusAddress(address) then address else 0
    {
      this.address := 0;
      new;
      var _ := SetAddress(address);
    }

    method SetAddress(address: Byte) returns (ok: bool)
      modifies this`address
      ensures ok <==> 0x08 <= address <= 0x77
      ensures this.address == if ok then address else old(this.address)
    {
      ValidAddresses(address);
      if !ValidateSmbusAddress(address) {
        return false;
      }
      this.address := address;
      return true;
    }

    /** Builds the frame of `transmit`; the socket calls that follow are not modelled. */
    method BuildFrame(msg: Buffer, phyAddr: nat, pec: Checksum) returns (r: Transmission)
      ensures r.InvalidAddress? <==> !(0x08 <= phyAddr <= 0x77)
      ensures r.NeedsFragmenting? <==> 0x08 <= phyAddr <= 0x77 && |msg| >= 256
      ensures r.Framed? ==> phyAddr < 0x80 && r.frame == BindingFrame(phyAddr, address, msg, pec)
    {
      ValidAddresses(phyAddr);
      if !ValidateSmbusAddress(phyAddr) {
        return InvalidAddress;
      }
      if |msg| >= 256 {
        return NeedsFragmenting;
      }
      var destAddr: Byte := phyAddr % 0x80;
      var msgLength: Byte := |msg| % 0x100;
      var txBuf: Buffer := [];
      txBuf := txBuf + SmbusHeader.New(destAddr, address, msgLength).Encode();
      txBuf := txBuf + msg;
      txBuf := txBuf + [pec(msg)];
      return Framed(txBuf);
    }
  }

  /** From the binding's frame the receiver recovers both addresses and, after the four-byte slice,
      the message with the PEC byte still attached. The byte count would allow to strip it. */
  lemma BindingFrameReadBack(destAddr7: Byte, srcAddr7: Byte, msg: Buffer, pec: Checksum)
    requires destAddr7 < 0x80 && srcAddr7 < 0x80 && |msg| <= 255
    ensures var frame := BindingFrame(destAddr7, srcAddr7, msg, pec);
            && DecodeSmbusHeader(frame).Ok?
            && var hdr := DecodeSmbusHeader(frame).value;
            && hdr.commandCode == 0x0F
            && hdr.destAddr / 2 == destAddr7 && hdr.destAddr % 2 == 0
            && hdr.srcAddr / 2 == srcAddr7 && hdr.srcAddr % 2 == 1
            && frame[4..] == msg + [pec(msg)]
            && frame[4..4 + hdr.byteCount] == msg
  {
    var frame := BindingFrame(destAddr7, srcAddr7, msg, pec);
    assert frame[4..] == msg + [pec(msg)];
    assert frame[4..4 + |msg|] == msg;
  }

  /** The example's frame byte by byte: its fixed addresses, the MCTP command, the count with the source
      address in it, the message, and a PEC over everything before it. */
  lemma BusOwnerFrameReadBack(build: Build, msg: Buffer, pec: Checksum)
    ensures BusOwnerFrame(build, msg, pec).None? <==> build.Checked? && |msg| % 256 == 255
    ensures BusOwnerFrame(build, msg, pec).Some? ==>
              && var frame := BusOwnerFrame(build, msg, pec).value;
              && |frame| == |msg| + 5
              && frame[..4] == [0x60, 0x0F, (|msg| + 1) % 256, 0x21]
              && frame[4..] == msg + [frame[|msg| + 4]]
              && frame[|msg| + 4] == pec(frame[..|msg| + 4])
  {
    if BusOwnerFrame(build, msg, pec).Some? {
      var frame := BusOwnerFrame(build, msg, pec).value;
      assert frame[4..] == msg + [frame[|msg| + 4]];
      BusOwnerPec(build, msg, pec);
    }
  }

  lemma BusOwnerPec(build: Build, msg: Buffer, pec: Checksum)
    requires BusOwnerFrame(build, msg, pec).Some?
    ensures var frame := BusOwnerFrame(build, msg, pec).value;
            |frame| == |msg| + 5 && frame[|msg| + 4] == pec(frame[..|msg| + 4])
  {
    var covered := SmbusHeader(0x60, COMMAND_CODE_MCTP, Add8(build, |msg| % 0x100, 1).value, 0x21).Encode() + msg;
    assert BusOwnerFrame(build, msg, pec).value[..|msg| + 4] == covered;
  }

  lemma BindingWirePath(destAddr7: Byte, srcAddr7: Byte, hdr: TransportHeader, m: Body, pec: Checksum)
    requires destAddr7 < 0x80 && srcAddr7 < 0x80
    ensures var frame := BindingFrame(destAddr7, srcAddr7, Message(hdr, m).Encode(), pec);
            && DecodeSmbusHeader(frame).Ok?
            && DecodeSmbusHeader(frame).value.destAddr / 2 == destAddr7
            && DecodeSmbusHeader(frame).value.srcAddr / 2 == srcAddr7
            && ReadsAs(frame[4..], hdr, m)
  {
    var msg := Message(hdr, m).Encode();
    DecodeEncode(m, []);
    BindingFrameReadBack(destAddr7, srcAddr7, msg, pec);
    MessageReadBack(hdr, m, [pec(msg)]);
  }

  lemma BusOwnerWirePath(hdr: TransportHeader, m: Body, build: Build, pec: Checksum)
    ensures BusOwnerFrame(build, Message(hdr, m).Encode(), pec).Some?
    ensures ReadsAs(BusOwnerFrame(build, Message(hdr, m).Encode(), pec).value[4..], hdr, m)
  {
    var msg := Message(hdr, m).Encode();
    DecodeEncode(m, []);
    BusOwnerFrameReadBack(build, msg, pec);
    MessageReadBack(hdr, m, [BusOwnerFrame(build, msg, pec).value[|msg| + 4]]);
  }

  /** Full wire path of both framers: a control message with a typed body is read back from the
      sliced frame with its headers and body, because no decoder looks at the PEC byte. */
  lemma WirePath(destAddr7: Byte, srcAddr7: Byte, hdr: TransportHeader, m: Body, build: Build, pec: Checksum)
    requires ValidateSmbusAddress(destAddr7) && ValidateSmbusAddress(srcAddr7)
    ensures var frame := BindingFrame(destAddr7, srcAddr7, Message(hdr, m).Encode(), pec);
            && DecodeSmbusHeader(frame).Ok?
            && DecodeSmbusHeader(frame).value.destAddr / 2 == destAddr7
            && DecodeSmbusHeader(frame).value.srcAddr / 2 == srcAddr7
            && ReadsAs(frame[4..], hdr, m)
    ensures var framed := BusOwnerFrame(build, Message(hdr, m).Encode(), pec);
            && framed.Some? && DecodeSmbusHeader(framed.value).Ok?
            && DecodeSmbusHeader(framed.value).value.destAddr / 2 == 0x30
            && DecodeSmbusHeader(framed.value).value.srcAddr / 2 == 0x10
            && ReadsAs(framed.value[4..], hdr, m)
  {
    ValidAddresses(destAddr7);
    ValidAddresses(srcAddr7);
    BindingWirePath(destAddr7, srcAddr7, hdr, m, pec);
    BusOwnerWirePath(hdr, m, build, pec);
    BusOwnerFrameReadBack(build, Message(hdr, m).Encode(), pec);
  }

  predicate ReadsAs(b: Buffer, hdr: TransportHeader, m: Body) {
    var r := TryToResponse(m.Kind(), b);
    r.Ok? && r.value.0.hdr == hdr && r.value.0.controlHdr == m.hdr && r.value.1 == m
  }

  /** The two framers never agree: on the same addresses and message their byte counts differ by one, and
      the PEC covers the message alone in the one and all bytes before it in the other. */
  lemma FramersDiffer(build: Build, msg: Buffer, pec: Checksum)
    requires BusOwnerFrame(build, msg, pec).Some?
    ensures var theirs := BusOwnerFrame(build, msg, pec).value;
            var ours := BindingFrame(DEST_SMBUS_ADDR_7BIT, SMBUS_ADDR_7BIT, msg, pec);
            && |ours| == |theirs| == |msg| + 5 && ours[2] != theirs[2]
            && (forall i :: 0 <= i < |msg| + 4 && i != 2 ==> ours[i] == theirs[i])
            && ours[|msg| + 4] == pec(msg) && theirs[|msg| + 4] == pec(theirs[..|msg| + 4])
  {
    BusOwnerPec(build, msg, pec);
  }
}
