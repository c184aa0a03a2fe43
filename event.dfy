/**
 * HCI event parsing (bluetool/event.py): the Command Complete event of
 * section 7.7.14 of the Bluetooth Core Specification, Volume 4, Part E.
 * Its parameters are a one-byte command credit count, the little-endian
 * opcode of the command that completed, then return parameters whose
 * layout depends on that opcode.
 *
 * The Python event object gains its attributes one assignment at a time,
 * and a parser that raises leaves the ones already assigned in place; the
 * event is a class whose attributes are Option fields (None: not yet
 * assigned). Unpacked is the specification of unpack_param on the
 * attribute values.
 */
module Event {
  import opened Wire
  import opened Utils
  import Command

  /** EVT_CMD_COMPLETE, the Command Complete event code. */
  const EVT_CMD_COMPLETE: int := 0x0E

  /** The return-parameter parsers of a Command Complete event. */
  datatype ReturnParser = StatusParser | ReadInquiryModeParser

  /**
   * ret_param_parser: Read Inquiry Mode (0x0C44) returns a status and the
   * inquiry mode, Write Inquiry Mode (0x0C45) only a status; any other
   * opcode is missing.
   */
  function RetParamParser(opcode: int): (p: Option<ReturnParser>)
    ensures p == Some(ReadInquiryModeParser) <==>
              Command.OpcodeOgf(opcode) == Command.OGF_HOST_CTL && Command.OpcodeOcf(opcode) == Command.OCF_READ_INQUIRY_MODE
    ensures p == Some(StatusParser) <==>
              Command.OpcodeOgf(opcode) == Command.OGF_HOST_CTL && Command.OpcodeOcf(opcode) == Command.OCF_WRITE_INQUIRY_MODE
  {
    if opcode == 0x0C44 then Some(ReadInquiryModeParser)
    else if opcode == 0x0C45 then Some(StatusParser)
    else None
  }

  /** The event classes of _evt_table. */
  datatype EventClass = CommandCompleteEventClass

  /** _evt_table: only the Command Complete event code has a class. */
  function EvtTable(code: int): (c: Option<EventClass>)
    ensures c.Some? <==> code == EVT_CMD_COMPLETE
  {
    if code == EVT_CMD_COMPLETE then Some(CommandCompleteEventClass) else None
  }

  /** The attributes of a Command Complete event object; None where not assigned. */
  datatype Attributes = Attributes(numHciCmdPkt: Option<int>,
                                   cmdOpcode: Option<int>,
                                   status: Option<int>,
                                   inquiryMode: Option<int>)

  /** A freshly constructed event has none of them. */
  const Unassigned := Attributes(None, None, None, None)

  /** How a parse step ends: normally, or with the exception it raises. */
  datatype Outcome = Done | Raised(error: Error)

  /** The attributes after a parse step, and how it ended. */
  datatype Step = Step(attrs: Attributes, outcome: Outcome)

  /** The opcode field of the parameters at offset: the '<H' after the count byte. */
  function OpcodeAt(buf: seq<byte>, offset: nat): (opcode: int)
    requires offset + 3 <= |buf|
    ensures 0 <= opcode < 0x1_0000
    ensures opcode % 0x100 == buf[offset + 1] && opcode / 0x100 == buf[offset + 2]
  {
    Letoh16(buf, offset + 1).value
  }

  /**
   * unpack_param on attributes a: '<BH' at offset assigns the credit count
   * and the opcode (or raises, assigning nothing), then the opcode's
   * return-parameter parser reads from offset + 3 (or the lookup raises
   * KeyError, with the count and opcode already assigned).
   */
  function Unpacked(a: Attributes, buf: seq<byte>, offset: nat): (s: Step)
    ensures offset + 3 > |buf| ==> s == Step(a, Raised(StructError))
    ensures offset + 3 <= |buf| ==>
              && s.attrs.numHciCmdPkt == Some(buf[offset])
              && s.attrs.cmdOpcode == Some(OpcodeAt(buf, offset))
    ensures s.outcome == Done <==>
              && offset + 3 <= |buf|
              && ((OpcodeAt(buf, offset) == 0x0C44 && offset + 5 <= |buf|)
               || (OpcodeAt(buf, offset) == 0x0C45 && offset + 4 <= |buf|))
    ensures offset + 3 <= |buf| && RetParamParser(OpcodeAt(buf, offset)).None? ==>
              && s.outcome == Raised(KeyError(OpcodeAt(buf, offset)))
              && s.attrs.status == a.status && s.attrs.inquiryMode == a.inquiryMode
    ensures s.outcome == Done && OpcodeAt(buf, offset) == 0x0C44 ==>
              s.attrs.status == Some(buf[offset + 3]) && s.attrs.inquiryMode == Some(buf[offset + 4])
    ensures s.outcome == Done && OpcodeAt(buf, offset) == 0x0C45 ==>
              s.attrs.status == Some(buf[offset + 3]) && s.attrs.inquiryMode == a.inquiryMode
    ensures offset + 3 <= |buf| && RetParamParser(OpcodeAt(buf, offset)).Some? && s.outcome != Done ==>
              && s.outcome == Raised(StructError)
              && s.attrs.status == a.status && s.attrs.inquiryMode == a.inquiryMode
    ensures s.outcome.Raised? ==> s.outcome.error == StructError || s.outcome.error.KeyError?
  {
    if offset + 3 > |buf| then
      Step(a, Raised(StructError))
    else
      var opcode := Letoh16(buf, offset + 1).value;
      var header := a.(numHciCmdPkt := Some(buf[offset]), cmdOpcode := Some(opcode));
      var params := offset + 3;
      match RetParamParser(opcode)
      case None => Step(header, Raised(KeyError(opcode)))
      case Some(StatusParser) =>
        if params + 1 <= |buf| then Step(header.(status := Some(buf[params])), Done)
        else Step(header, Raised(StructError))
      case Some(ReadInquiryModeParser) =>
        if params + 2 <= |buf| then Step(header.(status := Some(buf[params]), inquiryMode := Some(buf[params + 1])), Done)
        else Step(header, Raised(StructError))
  }

  /** HCICommandCompleteEvent: an HCIEvent with code EVT_CMD_COMPLETE. */
  class CommandCompleteEvent {
    const code: int
    var numHciCmdPkt: Option<int>
    var cmdOpcode: Option<int>
    var status: Option<int>
    var inquiryMode: Option<int>

    /** The attribute values of this object. */
    function Attrs(): Attributes
      reads this
    {
      Attributes(numHciCmdPkt, cmdOpcode, status, inquiryMode)
    }

    constructor ()
      ensures code == EVT_CMD_COMPLETE
      ensures Attrs() == Unassigned
    {
      code := EVT_CMD_COMPLETE;
      numHciCmdPkt, cmdOpcode, status, inquiryMode := None, None, None, None;
    }

    /** unpack_param: assigns the attributes in place, as Unpacked says. */
    method UnpackParam(buf: seq<byte>, offset: nat) returns (outcome: Outcome)
      modifies this
      ensures Step(Attrs(), outcome) == Unpacked(old(Attrs()), buf, offset)
    {
      if offset + 3 > |buf| {
        return Raised(StructError);
      }
      var opcode := Letoh16(buf, offset + 1).value;
      numHciCmdPkt, cmdOpcode := Some(buf[offset]), Some(opcode);
      match RetParamParser(opcode)
      case None =>
        outcome := Raised(KeyError(opcode));
      case Some(StatusParser) =>
        outcome := ParseStatus(this, buf, offset + 3);
      case Some(ReadInquiryModeParser) =>
        outcome := ParseReadInquiryMode(this, buf, offset + 3);
    }
  }

  /** _parse_hci_cmd_complt_evt_param_status: one status byte at offset. */
  method ParseStatus(evt: CommandCompleteEvent, buf: seq<byte>, offset: nat) returns (outcome: Outcome)
    modifies evt
    ensures outcome == Done <==> offset < |buf|
    ensures outcome == Done ==> evt.Attrs() == old(evt.Attrs()).(status := Some(buf[offset]))
    ensures outcome != Done ==> outcome == Raised(StructError) && evt.Attrs() == old(evt.Attrs())
  {
    if offset + 1 > |buf| {
      return Raised(StructError);
    }
    evt.status := Some(buf[offset]);
    outcome := Done;
  }

  /**
   * _parse_hci_cmd_complt_evt_param_read_inquiry_mode: the status and the
   * inquiry mode, two consecutive bytes at offset, assigned together.
   */
  method ParseReadInquiryMode(evt: CommandCompleteEvent, buf: seq<byte>, offset: nat) returns (outcome: Outcome)
    modifies evt
    ensures outcome == Done <==> offset + 2 <= |buf|
    ensures outcome == Done ==>
              evt.Attrs() == old(evt.Attrs()).(status := Some(buf[offset]), inquiryMode := Some(buf[offset + 1]))
    ensures outcome != Done ==> outcome == Raised(StructError) && evt.Attrs() == old(evt.Attrs())
  {
    if offset + 2 > |buf| {
      return Raised(StructError);
    }
    evt.status, evt.inquiryMode := Some(buf[offset]), Some(buf[offset + 1]);
    outcome := Done;
  }

  /**
   * parse_hci_event: looks the event code up in _evt_table (KeyError if it
   * is not Command Complete), constructs the event and unpacks its
   * parameters from offset; the event is returned only if nothing raised.
   */
  method ParseHciEvent(evtCode: int, buf: seq<byte>, offset: nat) returns (r: Result<CommandCompleteEvent>)
    ensures evtCode != EVT_CMD_COMPLETE ==> r == Err(KeyError(evtCode))
    ensures evtCode == EVT_CMD_COMPLETE ==>
              (r.Ok? <==> Unpacked(Unassigned, buf, offset).outcome == Done)
    ensures evtCode == EVT_CMD_COMPLETE && r.Err? ==>
              Unpacked(Unassigned, buf, offset).outcome == Raised(r.error)
    ensures r.Ok? ==>
              && fresh(r.value)
              && r.value.code == EVT_CMD_COMPLETE
              && r.value.Attrs() == Unpacked(Unassigned, buf, offset).attrs
  {
    match EvtTable(evtCode)
    case None =>
      r := Err(KeyError(evtCode));
    case Some(CommandCompleteEventClass) =>
      var evt := new CommandCompleteEvent();
      var outcome := evt.UnpackParam(buf, offset);
      if outcome.Raised? {
        r := Err(outcome.error);
      } else {
        r := Ok(evt);
      }
  }

  /**
   * The event step of HCIWorker.recv_hci_evt, given the bytes the socket
   * returned: '<BBB' reads the packet type, the event code and the
   * parameter length, then the event is parsed from offset 3.
   */
  method RecvHciEvt(buf: seq<byte>) returns (r: Result<CommandCompleteEvent>)
    ensures |buf| < 3 ==> r == Err(StructError)
    ensures |buf| >= 3 && buf[1] != EVT_CMD_COMPLETE ==> r == Err(KeyError(buf[1]))
    ensures |buf| >= 3 && buf[1] == EVT_CMD_COMPLETE ==>
              (r.Ok? <==> Unpacked(Unassigned, buf, 3).outcome == Done)
    ensures |buf| >= 3 && buf[1] == EVT_CMD_COMPLETE && r.Err? ==>
              Unpacked(Unassigned, buf, 3).outcome == Raised(r.error)
    ensures r.Ok? ==>
              && fresh(r.value)
              && r.value.code == EVT_CMD_COMPLETE
              && r.value.Attrs() == Unpacked(Unassigned, buf, 3).attrs
  {
    if |buf| < 3 {
      return Err(StructError);
    }
    var evtCode := buf[1];
    r := ParseHciEvent(evtCode, buf, 3);
  }

  /**
   * A Command Complete event for the Read Inquiry Mode command carries its
   * status and inquiry mode; one for Write Inquiry Mode carries a status
   * and leaves the inquiry mode unassigned; one for Inquiry has no parser.
   */
  lemma CommandCompleteForCommands(n: byte, status: byte, mode: byte, lap: int, inquiryLen: int, numResponses: int,
                                   rest: seq<byte>)
    ensures (var op := Command.Opcode(Command.ReadInquiryMode);
             Unpacked(Unassigned, [n, op % 0x100, op / 0x100, status, mode] + rest, 0)
             == Step(Attributes(Some(n), Some(op), Some(status), Some(mode)), Done))
    ensures (var op := Command.Opcode(Command.WriteInquiryMode(mode));
             Unpacked(Unassigned, [n, op % 0x100, op / 0x100, status] + rest, 0)
             == Step(Attributes(Some(n), Some(op), Some(status), None), Done))
    ensures (var op := Command.Opcode(Command.Inquiry(lap, inquiryLen, numResponses));
             Unpacked(Unassigned, [n, op % 0x100, op / 0x100] + rest, 0).outcome == Raised(KeyError(op)))
  {
  }
}
