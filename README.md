# bluetool HCI wire format, in Dafny

A verified model of the packet layer of bluetool, a Bluetooth HCI test tool:
the code that builds and parses Host Controller Interface packets laid out
in Volume 4, Part E of the Bluetooth Core Specification.

- `wire.dfy` (module `Wire`): bytes, `uint16`, `Option`, and `Result` with
  the exceptions the Python code raises.
- `utils.dfy` (module `Utils`): the little-endian readers `letoh8`,
  `letohs8`, `letoh16` and `letoh24`.
- `data.dfy` (module `Data`): the ACL data packet parser (section 5.4.2)
  and the synchronous data packet parser (section 5.4.3), with their
  packet-size rules.
- `bluez_ext.dfy` (module `BluezExt`): the C extension's ACL transmitter.
  It packs the 12-bit handle and the two 2-bit flags into the header word
  and lays out the type byte `0x02`, the 4-byte little-endian header and the
  payload as two or three write segments. It calls `writev` until a call
  does not fail with `EAGAIN` or `EINTR`. The module also models the Python
  entry point's argument handling.
- `command.dfy` (module `Command`): command opcodes (section 5.4.1), the
  parameter bytes of Read Inquiry Mode, Write Inquiry Mode and Inquiry
  (section 7.1.1), and the command packet-size rule.
- `event.dfy` (module `Event`): the Command Complete event (section 7.7.14).
  The event is an object whose attributes the parsers assign in place. The
  module also covers the table dispatch on event code and on command opcode.

The socket is not modelled. `writev` is a parameter: the sequence of
results that successive calls return. The transmit methods return the list
of segment lists that were handed to `writev`, one per call. Received bytes
are a parameter too.

Points where the code behaves differently from what one might expect:

- Flag values above 3 are not rejected: the `B` argument format takes any
  value modulo 256, and `acl_flag_pack` ors `pb` and `bc << 2` together
  unchecked. `BluezExt.AclHandleWord` computes the word for every input.
  Its contract and `BluezExt.AclRoundTrip` state what happens for flags of
  at most 3.
- The Python data length is an `int` narrowed to `uint16_t` when it is
  passed to `hci_send_acl`, so a payload of 65536 bytes or more is sent
  with its length taken modulo 65536 (`BluezExt.BindingDlen`).
- `bluetool/bluez_ext.c` has no command-sending routine and
  `bluetool/command.py` defines no `send`, so only the command serialisers
  are modelled.
- `bluetool/data.py` imports `letoh8` from `bluetool/utils.py`, which does
  not define it. As written, that import raises ImportError, so
  `bluetool.data` cannot be imported and neither data parser can be
  reached. Here the model does not follow the code: `Utils.Letoh8` supplies
  the unsigned one-byte read that the callers expect.

The definitions of `acl_handle_pack` (BlueZ) and `cmd_opcode_pack` (pybluez
over BlueZ) lie outside the bluetool source. The model uses the section
5.4.2 and 5.4.1 layouts for them, with the `uint16_t` cast of BlueZ's
macros. The constants
(`HCI_ACLDATA_PKT = 0x02`, `OGF_HOST_CTL = 0x03`, `OCF_READ_INQUIRY_MODE =
0x0044`, `OCF_WRITE_INQUIRY_MODE = 0x0045`, `OGF_LINK_CTL = 0x01`,
`OCF_INQUIRY = 0x0001`, `EVT_CMD_COMPLETE = 0x0E`, Linux `EINTR = 4` and
`EAGAIN = 11`) are those of BlueZ, pybluez and Linux.

## Model

| member | source | states |
|---|---|---|
| Utils.Letoh8 | bluetool/data.py:4 | succeeds exactly when a byte exists at the offset, and gives that byte (0..255); otherwise struct.error |
| Utils.Letohs8 | bluetool/utils.py:5-9 | succeeds exactly when a byte exists at the offset; the value lies in -128..127, is congruent to the byte modulo 256, and is negative exactly when the byte's top bit is set |
| Utils.Letoh16 | bluetool/utils.py:11-12 | succeeds exactly when two bytes exist at the offset; the value lies in 0..65535, with the first byte as its low digit and the second as its high digit |
| Utils.Letoh24 | bluetool/utils.py:14-17 | succeeds exactly when three bytes exist; struct.error with fewer than two, IndexError with exactly two; the value is below 2^24, its low 16 bits equal letoh16 at the same offset, and its top byte is the third byte |
| Data.AclPktSize | bluetool/data.py:10-12 | succeeds exactly when the 4 header bytes exist, with a size of 4 plus a 16-bit length |
| Data.AclParse | bluetool/data.py:15-29 | struct.error exactly when the 4 header bytes are missing; HCIParseError exactly when fewer bytes remain than the packet size; on success the handle, pb and bc fields fit 12, 2 and 2 bits and recombine into the header word, and the data is the data-length bytes after the header, with trailing bytes ignored |
| Data.ScoPktSize | bluetool/data.py:35-37 | succeeds exactly when the 3 header bytes exist, with a size of 3 plus the length byte |
| Data.ScoParse | bluetool/data.py:39-53 | struct.error exactly when the 3 header bytes are missing; HCIParseError exactly when fewer bytes remain than the packet size; on success the handle and status fit 12 and 2 bits and recombine into the header word without bits 14-15, and the data is the data-length bytes after the header |
| Data.HeaderBitFields | bluetool/data.py:25-27 | on every 16-bit word, the `%`/`/` forms used by the model equal the source's `& 0x0fff`, `(>> 12) & 0x3` and `(>> 14) & 0x3` |
| Data.ScoParseRoundTrip | bluetool/data.py:39-53 | a synchronous data packet laid out as in section 5.4.3, followed by any bytes, has its own length as its packet size and parses back to its handle, status flag and data |
| BluezExt.AclFlagPack | bluetool/bluez_ext.c:6 | the flag nibble is at most 10 bits wide; for flags of at most 3, pb is its low two bits and bc the two above |
| BluezExt.AclHandlePack | bluetool/bluez_ext.c:15 | the packed word's low 12 bits are the handle's low 12 bits, and its top 4 bits are the low 4 bits of the flag value |
| BluezExt.AclHandleWord | bluetool/bluez_ext.c:15 | the word's low 12 bits are the handle's low 12 bits and its top 4 bits are the low 4 bits of the flag nibble; for flags of at most 3, pb is in bits 12-13 and bc in bits 14-15 |
| BluezExt.AclHandleWordFields | bluetool/bluez_ext.c:15 | for a 12-bit handle and 2-bit flags, the three fields data.py extracts from the handle word are the handle, pb and bc that went in |
| BluezExt.HtobsBytes | bluetool/bluez_ext.c:15-16 | the two bytes of a htobs-converted field read back through letoh16 as the original value, whatever the host's byte order |
| BluezExt.AclHeader | bluetool/bluez_ext.c:15-21 | the header is HCI_ACL_HDR_SIZE (4) bytes; the handle word reads back little-endian from bytes 0-1 and dlen from bytes 2-3 |
| BluezExt.AclSegments | bluetool/bluez_ext.c:18-29 | 2 segments when dlen is 0, else 3; the first is the type byte 0x02, the second the 4-byte header with the handle word and dlen little-endian, the third the first dlen payload bytes |
| BluezExt.AclSegmentsLayout | bluetool/bluez_ext.c:18-29 | 2 segments when dlen is 0, else 3 with the first dlen payload bytes as the third; the bytes written are 0x02, the little-endian handle word, the little-endian dlen and the payload bytes, 5 + dlen in all |
| BluezExt.AclParseWire | bluetool/data.py:15-29 | a header of two little-endian words followed by the payload it announces parses to the word's fields and exactly that payload, and its packet size is 4 plus the payload length |
| BluezExt.AclRoundTrip | bluetool/data.py:15-29 | what hci_send_acl writes after the type byte, followed by any bytes, parses back to the original handle, pb, bc and payload, for a handle of at most 0xFFF and flags of at most 3, and its packet size is 4 + dlen |
| BluezExt.FirstSettled | bluetool/bluez_ext.c:31-36 | picks the first writev result that is not an EAGAIN/EINTR failure; every result before it is one |
| BluezExt.HciSendAcl | bluetool/bluez_ext.c:8-38 | with K retried failures first, writev is called exactly K + 1 times, every time with the same segments (AclSegments); the result is 0 exactly when the last call wrote any byte count, short or not, and otherwise -1 with that call's errno |
| BluezExt.BindingDlen | bluetool/bluez_ext.c:46-57 | without data the length is 0; with data it is at most the data's length and congruent to it modulo 65536, so equal to it below 65536 bytes |
| BluezExt.BtHciSendAcl | bluetool/bluez_ext.c:40-62 | the handle and flags are taken modulo 2^16 and 2^8; without data only the two header segments are sent on every call; it returns 0 exactly when hci_send_acl succeeds, and otherwise a socket error carrying the failing call's errno |
| Command.Ogf | bluetool/command.py:12-14 | the group field the command was built with; the three command classes pass group constants that fit the 6-bit opcode field |
| Command.Ocf | bluetool/command.py:12-14 | the command field the command was built with; the three command classes pass command constants that fit the 10-bit opcode field |
| Command.Opcode | bluetool/command.py:16-18 | the opcode is a 16-bit value whose bits 10-15 decode to the group field (mod 64) and bits 0-9 to the command field (mod 1024), so in-range (ogf, ocf) round-trip |
| Command.OpcodeDecodeEncode | bluetool/command.py:16-18 | every 16-bit opcode is the packing of the group and command fields it decodes to |
| Command.PackU8 | bluetool/command.py:37 | struct '<B' packing gives one byte that reads back as the value, and fails exactly outside 0..255 |
| Command.PackU32 | bluetool/command.py:55 | struct '<I' packing gives four bytes whose first three read back through letoh24 as the value mod 2^24, and fails exactly outside 0..2^32-1 |
| Command.PackParam | bluetool/command.py:20-57 | the base command and Read Inquiry Mode give no parameters; Write Inquiry Mode gives exactly the byte mode and fails exactly when mode is not 0..255; Inquiry gives exactly 5 bytes: the LAP's low 24 bits little-endian, the inquiry length and the number of responses; it fails exactly when a field does not fit its struct format |
| Command.CmdPktSize | bluetool/command.py:27-29 | succeeds exactly when the byte at offset + 2 exists, with a size of 3 plus that byte; IndexError otherwise |
| Command.CmdPktSizeOfPacket | bluetool/command.py:27-29 | for a command packet laid out as in section 5.4.1, followed by any bytes, the size read is 3 plus the parameter count, which is the packet's length, and the opcode reads back from its first two bytes |
| Command.KnownOpcodes | bluetool/command.py:31-49 | Read Inquiry Mode, Write Inquiry Mode and Inquiry have opcodes 0x0C44, 0x0C45 and 0x0401; Read Inquiry Mode has no parameters |
| Event.RetParamParser | bluetool/event.py:29-32 | the Read Inquiry Mode parser is chosen exactly for the opcode that decodes to OGF_HOST_CTL and OCF_READ_INQUIRY_MODE, the status parser exactly for OGF_HOST_CTL and OCF_WRITE_INQUIRY_MODE, and no parser for any other opcode |
| Event.EvtTable | bluetool/event.py:41-43 | an event class exists exactly for the event code EVT_CMD_COMPLETE |
| Event.OpcodeAt | bluetool/event.py:28 | the opcode field is a 16-bit value read little-endian from the two bytes after the count byte |
| Event.Unpacked | bluetool/event.py:21-39 | with fewer than 3 bytes, struct.error and nothing assigned; otherwise the count and opcode are assigned, even when the opcode lookup then raises KeyError (status and inquiry mode untouched); a known opcode with too few return bytes raises struct.error and leaves status and inquiry mode untouched; success exactly for opcode 0x0C44 with 2 return bytes (status and inquiry mode assigned) or 0x0C45 with 1 (status only) |
| Event.CommandCompleteEvent.constructor | bluetool/event.py:34-35 | a new event has code EVT_CMD_COMPLETE and no parameter attributes |
| Event.CommandCompleteEvent.UnpackParam | bluetool/event.py:37-39 | assigns the object's attributes in place and ends exactly as Unpacked says of the old attributes |
| Event.ParseStatus | bluetool/event.py:21-22 | assigns status from the byte at the offset and nothing else, or raises struct.error and assigns nothing |
| Event.ParseReadInquiryMode | bluetool/event.py:24-25 | assigns status and inquiry mode from two consecutive bytes and nothing else, or raises struct.error and assigns nothing |
| Event.ParseHciEvent | bluetool/event.py:45-52 | any event code but EVT_CMD_COMPLETE raises KeyError; otherwise a fresh event with code EVT_CMD_COMPLETE and the attributes Unpacked gives, returned exactly when unpacking does not raise |
| Event.RecvHciEvt | bluetool/core.py:46-51 | fewer than 3 received bytes raise struct.error; otherwise the event code is the second byte, any code but EVT_CMD_COMPLETE raises KeyError, and for Command Complete the event is returned exactly when unpacking from offset 3 succeeds, else the exception unpacking raises escapes |
| Event.CommandCompleteForCommands | bluetool/event.py:29-32 | a Command Complete event for Read Inquiry Mode yields its status and inquiry mode; one for Write Inquiry Mode yields only a status; one for Inquiry, whatever its parameters, fails the parser lookup |

## Left out

- Sockets and the system calls: `writev`, `errno`, `sock.recv`, and the HCI filter `getsockopt`/`setsockopt` in `bluetool/core.py`. `writev` is an oracle of results, and received bytes are a parameter.
- Python runtime glue in `bluetool/bluez_ext.c`: argument-type errors from `PyArg_ParseTuple`, releasing and reacquiring the interpreter lock, module initialisation and the module's error object. These are foreign runtime calls.
- BluezExt.HciSendAcl: requires that some `writev` call eventually returns something other than an EAGAIN/EINTR failure. Under endless transient failures the C loop never returns, and that is not modelled.
- BluezExt.HciSendAcl: the value of `errno` after a successful call is not stated.
- BluezExt.HciSendAcl: the payload is a value, so the model does not show that the C code references the caller's buffer from `iv[2]` without copying or changing it. The third segment equals the first `dlen` payload bytes.
- Utils.Letoh8: the source's import of `letoh8` fails, because `bluetool/utils.py` does not define it; the model supplies the unsigned '<B' read the callers expect.
- Offsets are natural numbers. Python's negative offsets, which count from the end of the buffer, are not modelled.
- Buffers are byte sequences. Python 2 `str` objects and exception messages are not modelled.
- The base `HCIEvent.unpack_param` raises `NotImplementedError`. It is not modelled, because `_evt_table` never constructs a bare `HCIEvent`.
- Command transmission: the code has no command-sending routine.
- `bluetool/bluez.py` is only a constant table, and `bluetool/error.py` only exception classes. They appear as constants and `Error` variants.
- The test scripts under `test/` drive several processes over pipes and live HCI sockets, which is concurrency and I/O.
