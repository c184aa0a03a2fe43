/**
 * HCI command objects (bluetool/command.py): the opcode of section 5.4.1 of
 * the Bluetooth Core Specification, Volume 4, Part E, the parameter bytes
 * each command serialises, and the size of a command packet read from its
 * header. The command classes become one datatype with a constructor per
 * class; the base class HCICommand(ogf, ocf) is Generic.
 */
module Command {
  import opened Wire
  import opened Utils

  /** Opcode group and command fields, with the values pybluez gives them. */
  const OGF_LINK_CTL: int := 0x01
  const OCF_INQUIRY: int := 0x0001
  const OGF_HOST_CTL: int := 0x03
  const OCF_READ_INQUIRY_MODE: int := 0x0044
  const OCF_WRITE_INQUIRY_MODE: int := 0x0045

  datatype HciCommand =
    | Generic(ogf: int, ocf: int)
    | ReadInquiryMode
    | WriteInquiryMode(mode: int)
    | Inquiry(lap: int, inquiryLen: int, numResponses: int)

  /** The opcode group field the command was constructed with. */
  function Ogf(c: HciCommand): (ogf: int)
    ensures !c.Generic? ==> 0 <= ogf < 0x40
  {
    match c
    case Generic(ogf, _) => ogf
    case ReadInquiryMode => OGF_HOST_CTL
    case WriteInquiryMode(_) => OGF_HOST_CTL
    case Inquiry(_, _, _) => OGF_LINK_CTL
  }

  /** The opcode command field the command was constructed with. */
  function Ocf(c: HciCommand): (ocf: int)
    ensures !c.Generic? ==> 0 <= ocf < 0x400
  {
    match c
    case Generic(_, ocf) => ocf
    case ReadInquiryMode => OCF_READ_INQUIRY_MODE
    case WriteInquiryMode(_) => OCF_WRITE_INQUIRY_MODE
    case Inquiry(_, _, _) => OCF_INQUIRY
  }

  /** cmd_opcode_ogf: the group field of an opcode, its bits 10-15. */
  function OpcodeOgf(opcode: int): int
  {
    opcode / 0x400
  }

  /** cmd_opcode_ocf: the command field of an opcode, its bits 0-9. */
  function OpcodeOcf(opcode: int): int
  {
    opcode % 0x400
  }

  /**
   * The opcode property, cmd_opcode_pack(ogf, ocf): the command field in
   * bits 0-9 and the group field in bits 10-15 of a 16-bit word. pybluez
   * takes both as unsigned shorts and BlueZ computes
   * (uint16_t)((ocf & 0x03ff) | (ogf << 10)), so bits of ogf above the
   * sixth are lost; neither definition is part of this model.
   */
  function Opcode(c: HciCommand): (opcode: int)
    ensures 0 <= opcode < 0x1_0000
    ensures OpcodeOgf(opcode) == Ogf(c) % 0x40
    ensures OpcodeOcf(opcode) == Ocf(c) % 0x400
  {
    Ocf(c) % 0x400 + 0x400 * (Ogf(c) % 0x40)
  }

  /** Every 16-bit opcode is the packing of the group and command fields it decodes to. */
  lemma OpcodeDecodeEncode(opcode: int)
    requires 0 <= opcode < 0x1_0000
    ensures Opcode(Generic(OpcodeOgf(opcode), OpcodeOcf(opcode))) == opcode
  {
    assert 0 <= OpcodeOgf(opcode) < 0x40;
  }

  /** struct.pack('<B', v): one byte, or struct.error when v is not 0..255. */
  function PackU8(v: int): (r: Result<seq<byte>>)
    ensures r.Ok? <==> 0 <= v < 0x100
    ensures r.Ok? ==> |r.value| == 1 && Letoh8(r.value, 0) == Ok(v)
    ensures r.Err? ==> r.error == StructError
  {
    if 0 <= v < 0x100 then Ok([v]) else Err(StructError)
  }

  /** struct.pack('<I', v): four bytes little-endian, or struct.error when v is not 0..2^32-1. */
  function PackU32(v: int): (r: Result<seq<byte>>)
    ensures r.Ok? <==> 0 <= v < 0x1_0000_0000
    ensures r.Ok? ==> |r.value| == 4 && Letoh24(r.value, 0) == Ok(v % 0x100_0000) && r.value[3] == v / 0x100_0000
    ensures r.Err? ==> r.error == StructError
  {
    if 0 <= v < 0x1_0000_0000 then
      var bytes := [v % 0x100, (v / 0x100) % 0x100, (v / 0x1_0000) % 0x100, v / 0x100_0000];
      LowBytes(v);
      assert Letoh16(bytes, 0).value == v % 0x1_0000;
      Ok(bytes)
    else
      Err(StructError)
  }

  /** The low two and three bytes of a 32-bit value, as base-256 digits. */
  lemma LowBytes(v: int)
    requires 0 <= v < 0x1_0000_0000
    ensures v % 0x1_0000 == v % 0x100 + 0x100 * ((v / 0x100) % 0x100)
    ensures v % 0x100_0000 == v % 0x1_0000 + 0x1_0000 * ((v / 0x1_0000) % 0x100)
    ensures v / 0x1_0000 < 0x1_0000 && v / 0x100_0000 < 0x100
  {
  }

  /**
   * pack_param: the command's parameter bytes. The base class and Read
   * Inquiry Mode return None; Write Inquiry Mode packs its mode as one
   * byte; Inquiry packs the low three bytes of the LAP little-endian, then
   * the inquiry length and the number of responses. A value that does not
   * fit its struct field makes struct.pack raise.
   */
  function PackParam(c: HciCommand): (r: Result<Option<seq<byte>>>)
    ensures c.Generic? || c.ReadInquiryMode? ==> r == Ok(None)
    ensures c.WriteInquiryMode? ==> (r.Ok? <==> 0 <= c.mode < 0x100)
    ensures c.WriteInquiryMode? && r.Ok? ==> r.value == Some([c.mode])
    ensures c.Inquiry? ==>
              (r.Ok? <==> 0 <= c.lap < 0x1_0000_0000 && 0 <= c.inquiryLen < 0x100 && 0 <= c.numResponses < 0x100)
    ensures c.Inquiry? && r.Ok? ==>
              && r.value.Some?
              && |r.value.value| == 5
              && Letoh24(r.value.value, 0) == Ok(c.lap % 0x100_0000)
              && r.value.value[3] == c.inquiryLen
              && r.value.value[4] == c.numResponses
    ensures r.Err? ==> r.error == StructError
  {
    match c
    case Generic(_, _) => Ok(None)
    case ReadInquiryMode => Ok(None)
    case WriteInquiryMode(mode) =>
      var param :- PackU8(mode);
      Ok(Some(param))
    case Inquiry(lap, inquiryLen, numResponses) =>
      var lapBytes :- PackU32(lap);
      var lenByte :- PackU8(inquiryLen);
      var numByte :- PackU8(numResponses);
      var param := lapBytes[..3] + lenByte + numByte;
      assert param[..3] == lapBytes[..3];
      Ok(Some(param))
  }

  /**
   * get_pkt_size: a command packet is its 3-byte header (opcode, parameter
   * length) plus the parameter length byte at offset + 2; indexing past the
   * end of the buffer raises IndexError.
   */
  function CmdPktSize(buf: seq<byte>, offset: nat): (r: Result<int>)
    ensures r.Ok? <==> offset + 3 <= |buf|
    ensures r.Ok? ==> 3 <= r.value < 3 + 0x100
    ensures r.Err? ==> r.error == IndexError
  {
    if offset + 2 < |buf| then Ok(3 + buf[offset + 2] as int) else Err(IndexError)
  }

  /**
   * A command packet after its type byte, as section 5.4.1 lays it out:
   * the opcode little-endian, the parameter length, the parameters.
   */
  function CommandPacket(opcode: uint16, params: seq<byte>): (pkt: seq<byte>)
    requires |params| < 0x100
  {
    [opcode % 0x100, opcode / 0x100, |params|] + params
  }

  /**
   * The size get_pkt_size reads from a command packet, followed by
   * anything, is that packet's length, and the opcode reads back from its
   * first two bytes.
   */
  lemma CmdPktSizeOfPacket(opcode: uint16, params: seq<byte>, rest: seq<byte>)
    requires |params| < 0x100
    ensures CmdPktSize(CommandPacket(opcode, params) + rest, 0) == Ok(|CommandPacket(opcode, params)|)
    ensures CmdPktSize(CommandPacket(opcode, params) + rest, 0) == Ok(3 + |params|)
    ensures Letoh16(CommandPacket(opcode, params) + rest, 0) == Ok(opcode)
  {
  }

  /**
   * The three command classes have the opcodes their Command Complete
   * events are dispatched on: Read Inquiry Mode 0x0C44, Write Inquiry Mode
   * 0x0C45, Inquiry 0x0401; Read Inquiry Mode has no parameters.
   */
  lemma KnownOpcodes(mode: int, lap: int, inquiryLen: int, numResponses: int)
    ensures Opcode(ReadInquiryMode) == 0x0C44 && PackParam(ReadInquiryMode) == Ok(None)
    ensures Opcode(WriteInquiryMode(mode)) == 0x0C45
    ensures Opcode(Inquiry(lap, inquiryLen, numResponses)) == 0x0401
  {
  }
}
