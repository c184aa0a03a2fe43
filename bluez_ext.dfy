/**
 * The ACL transmit path of the C extension (bluetool/bluez_ext.c): packing
 * the connection handle and flags into the ACL header of section 5.4.2 of
 * the Bluetooth Core Specification, Volume 4, Part E, laying out the packet
 * as two or three write segments, and writing them with writev, retrying
 * on EAGAIN and EINTR.
 *
 * The socket is not modelled. writev is an oracle: the sequence of results
 * that successive calls return. Each call receives the segment list, and
 * the methods return the list of segment lists that were handed to writev.
 */
module BluezExt {
  import opened Wire
  import opened Utils
  import opened Data

  /** HCI_ACLDATA_PKT, the H4 packet-type byte of an ACL data packet (BlueZ lib/hci.h). */
  const HCI_ACLDATA_PKT: byte := 0x02

  /** HCI_ACL_HDR_SIZE: the packed hci_acl_hdr is two uint16_t fields. */
  const HCI_ACL_HDR_SIZE: nat := 4

  /** Linux errno values of the two errors writev is retried on. */
  const EINTR: int := 4
  const EAGAIN: int := 11

  /**
   * acl_flag_pack(pb, bc): pb | (bc << 2), computed in C int from two
   * uint8_t arguments, so at most 10 bits wide. Nothing checks that the
   * flags fit their 2-bit fields.
   */
  function AclFlagPack(pb: bv8, bc: bv8): (f: bv16)
    ensures f < 0x400
    ensures pb <= 3 && bc <= 3 ==> f & 0x3 == pb as bv16 && f >> 2 == bc as bv16
  {
    (pb as bv16) | ((bc as bv16) << 2)
  }

  /**
   * BlueZ's acl_handle_pack(h, f), (uint16_t)((h & 0x0fff) | (f << 12)):
   * the handle in bits 0-11, the low four bits of the flag nibble in bits
   * 12-15. The macro's definition is not part of this model; this is its
   * section 5.4.2 layout with the uint16_t cast.
   */
  function AclHandlePack(h: bv16, f: bv16): (w: bv16)
    ensures w & 0x0fff == h & 0x0fff
    ensures w >> 12 == f & 0xf
  {
    (h & 0x0fff) | (f << 12)
  }

  /** The handle word hci_send_acl puts in the header, before byte-order conversion. */
  function AclHandleWord(handle: bv16, pb: bv8, bc: bv8): (w: bv16)
    ensures w & 0x0fff == handle & 0x0fff
    ensures w >> 12 == AclFlagPack(pb, bc) & 0xf
    ensures pb <= 3 && bc <= 3 ==> (w >> 12) & 0x3 == pb as bv16 && w >> 14 == bc as bv16
  {
    AclHandlePack(handle, AclFlagPack(pb, bc))
  }

  /**
   * The two bytes a uint16_t field holds after htobs: least significant
   * byte first, whatever the host's byte order.
   */
  function HtobsBytes(v: uint16): (b: seq<byte>)
    ensures |b| == 2
    ensures Letoh16(b, 0) == Ok(v)
  {
    [v % 0x100, v / 0x100]
  }

  /** The packed 4-byte hci_acl_hdr: handle word, then data length. */
  function AclHeader(handle: bv16, pb: bv8, bc: bv8, dlen: uint16): (h: seq<byte>)
    ensures |h| == HCI_ACL_HDR_SIZE
    ensures Letoh16(h, 0) == Ok(AclHandleWord(handle, pb, bc) as int)
    ensures Letoh16(h, 2) == Ok(dlen)
  {
    HtobsBytes(AclHandleWord(handle, pb, bc) as int) + HtobsBytes(dlen)
  }

  /**
   * The segments hci_send_acl hands to writev: the type byte, the header,
   * and the first dlen bytes of the payload buffer unless dlen is 0.
   */
  function AclSegments(handle: bv16, pb: bv8, bc: bv8, dlen: uint16, data: seq<byte>): (segments: seq<seq<byte>>)
    requires dlen <= |data|
    ensures |segments| == if dlen == 0 then 2 else 3
    ensures segments[0] == [HCI_ACLDATA_PKT]
    ensures |segments[1]| == HCI_ACL_HDR_SIZE
    ensures Letoh16(segments[1], 0) == Ok(AclHandleWord(handle, pb, bc) as int)
    ensures Letoh16(segments[1], 2) == Ok(dlen)
    ensures dlen != 0 ==> segments[2] == data[..dlen]
  {
    [[HCI_ACLDATA_PKT], AclHeader(handle, pb, bc, dlen)] + (if dlen == 0 then [] else [data[..dlen]])
  }

  /** The bytes a vectored write of the segments puts on the wire, in order. */
  function Flatten(segments: seq<seq<byte>>): seq<byte>
  {
    if segments == [] then [] else segments[0] + Flatten(segments[1..])
  }

  /**
   * Two segments without payload, three with it; on the wire, the type
   * byte, the little-endian handle word, the little-endian length and the
   * dlen payload bytes: 5 + dlen bytes in all.
   */
  lemma {:induction false} AclSegmentsLayout(handle: bv16, pb: bv8, bc: bv8, dlen: uint16, data: seq<byte>)
    requires dlen <= |data|
    ensures |AclSegments(handle, pb, bc, dlen, data)| == if dlen == 0 then 2 else 3
    ensures dlen != 0 ==> AclSegments(handle, pb, bc, dlen, data)[2] == data[..dlen]
    ensures Flatten(AclSegments(handle, pb, bc, dlen, data))
         == [HCI_ACLDATA_PKT] + HtobsBytes(AclHandleWord(handle, pb, bc) as int) + HtobsBytes(dlen) + data[..dlen]
    ensures |Flatten(AclSegments(handle, pb, bc, dlen, data))| == 5 + dlen
  {
    var segments := AclSegments(handle, pb, bc, dlen, data);
    var header := AclHeader(handle, pb, bc, dlen);
    var tail := if dlen == 0 then [] else [data[..dlen]];
    assert Flatten(tail) == data[..dlen] by {
      if dlen != 0 {
        assert Flatten(tail[1..]) == [];
      }
    }
    assert segments[1..] == [header] + tail;
    assert Flatten([header] + tail) == header + Flatten(tail) by {
      assert ([header] + tail)[1..] == tail;
    }
    assert segments[1..][1..] == tail;
  }

  /**
   * For a 12-bit handle and 2-bit flags, the fields data.py extracts from
   * the handle word (as the number it reads) are the handle and flags that
   * went in: pb lands in bits 12-13 and bc in bits 14-15.
   */
  lemma AclHandleWordFields(handle: bv16, pb: bv8, bc: bv8)
    requires handle <= 0x0fff && pb <= 3 && bc <= 3
    ensures (AclHandleWord(handle, pb, bc) as int) % 0x1000 == handle as int
    ensures ((AclHandleWord(handle, pb, bc) as int) / 0x1000) % 4 == pb as int
    ensures ((AclHandleWord(handle, pb, bc) as int) / 0x4000) % 4 == bc as int
  {
    var w := AclHandleWord(handle, pb, bc);
    HeaderBitFields(w);
    assert handle & 0x0fff == handle;
    assert ((pb as bv16) as int) == pb as int;
    assert ((bc as bv16) as int) == bc as int;
  }

  /**
   * Parsing what hci_send_acl writes after the type byte, followed by
   * anything, gives back the handle, both flags and the payload, for a
   * 12-bit handle and 2-bit flags; the packet size read from the header is
   * the size of that packet.
   */
  lemma AclRoundTrip(handle: bv16, pb: bv8, bc: bv8, dlen: uint16, data: seq<byte>, rest: seq<byte>)
    requires handle <= 0x0fff && pb <= 3 && bc <= 3 && dlen <= |data|
    ensures AclPktSize(Flatten(AclSegments(handle, pb, bc, dlen, data))[1..] + rest, 0) == Ok(4 + dlen)
    ensures AclParse(Flatten(AclSegments(handle, pb, bc, dlen, data))[1..] + rest, 0)
         == Ok(AclData(handle as int, pb as int, bc as int, data[..dlen]))
  {
    AclSegmentsLayout(handle, pb, bc, dlen, data);
    var w := AclHandleWord(handle, pb, bc) as int;
    assert Flatten(AclSegments(handle, pb, bc, dlen, data))[1..] == HtobsBytes(w) + HtobsBytes(dlen) + data[..dlen];
    AclParseWire(w, data[..dlen], rest);
    AclHandleWordFields(handle, pb, bc);
  }

  /** Parsing a header of two htobs words followed by the payload it announces. */
  lemma AclParseWire(word: uint16, payload: seq<byte>, rest: seq<byte>)
    requires |payload| < 0x1_0000
    ensures AclPktSize(HtobsBytes(word) + HtobsBytes(|payload|) + payload + rest, 0) == Ok(4 + |payload|)
    ensures AclParse(HtobsBytes(word) + HtobsBytes(|payload|) + payload + rest, 0)
         == Ok(AclData(word % 0x1000, (word / 0x1000) % 4, (word / 0x4000) % 4, payload))
  {
  }

  /** What one writev call returns: a byte count, or -1 with errno set. */
  datatype WritevResult = Wrote(count: nat) | Failed(errno: int)

  /** A failure hci_send_acl retries. */
  predicate Transient(w: WritevResult)
  {
    w.Failed? && (w.errno == EAGAIN || w.errno == EINTR)
  }

  /** Some writev call eventually returns something other than a retried failure. */
  predicate Settles(writev: seq<WritevResult>)
  {
    exists k :: 0 <= k < |writev| && !Transient(writev[k])
  }

  /** The index of the first writev result that is not a retried failure. */
  function FirstSettled(writev: seq<WritevResult>): (k: nat)
    requires Settles(writev)
    ensures k < |writev| && !Transient(writev[k])
    ensures forall j :: 0 <= j < k ==> Transient(writev[j])
  {
    if !Transient(writev[0]) then
      0
    else
      var k :| 0 <= k < |writev| && !Transient(writev[k]);
      assert !Transient(writev[1..][k - 1]);
      1 + FirstSettled(writev[1..])
  }

  /**
   * hci_send_acl: builds the segment array and calls writev until it
   * returns something other than -1 with EAGAIN or EINTR. With K retried
   * failures first, writev is called K + 1 times, every time with the same
   * segments; a byte count, short or not, is success (0), any other
   * failure is -1 with errno left as writev set it.
   */
  method HciSendAcl(writev: seq<WritevResult>, handle: bv16, pbFlag: bv8, bcFlag: bv8, dlen: uint16, data: seq<byte>)
    returns (ret: int, errno: int, calls: seq<seq<seq<byte>>>)
    requires dlen <= |data|
    requires Settles(writev)
    ensures |calls| == FirstSettled(writev) + 1
    ensures forall i :: 0 <= i < |calls| ==> calls[i] == AclSegments(handle, pbFlag, bcFlag, dlen, data)
    ensures ret == 0 || ret == -1
    ensures ret == 0 <==> writev[FirstSettled(writev)].Wrote?
    ensures ret == -1 ==> errno == writev[FirstSettled(writev)].errno
  {
    var typ: byte := HCI_ACLDATA_PKT;
    var ha := AclHeader(handle, pbFlag, bcFlag, dlen);
    var iv := new seq<byte>[3];
    iv[0] := [typ];
    iv[1] := ha;
    var ivn: nat;
    if dlen == 0 {
      ivn := 2;
    } else {
      iv[2] := data[..dlen];
      ivn := 3;
    }
    ghost var segments := AclSegments(handle, pbFlag, bcFlag, dlen, data);
    assert iv[..ivn] == segments;

    errno := 0;
    calls := [];
    var attempt := 0;
    while true
      invariant attempt <= FirstSettled(writev)
      invariant |calls| == attempt
      invariant forall i :: 0 <= i < |calls| ==> calls[i] == segments
      invariant ivn <= iv.Length && iv[..ivn] == segments
      decreases FirstSettled(writev) - attempt
    {
      var result := writev[attempt];
      calls := calls + [iv[..ivn]];
      if result.Wrote? {
        return 0, errno, calls;
      }
      errno := result.errno;
      if errno != EAGAIN && errno != EINTR {
        return -1, errno, calls;
      }
      attempt := attempt + 1;
    }
  }

  /** The data length the Python binding passes: the string's length, narrowed to uint16_t, or 0 if omitted. */
  function BindingDlen(data: Option<seq<byte>>): (dlen: uint16)
    ensures data.None? ==> dlen == 0
    ensures data.Some? && |data.value| < 0x1_0000 ==> dlen == |data.value|
    ensures data.Some? ==> dlen <= |data.value| && (|data.value| - dlen) % 0x1_0000 == 0
  {
    if data.None? then 0 else |data.value| % 0x1_0000
  }

  /** The payload bytes the binding hands over; none when data is omitted (a NULL pointer). */
  function BindingPayload(data: Option<seq<byte>>): seq<byte>
  {
    if data.None? then [] else data.value
  }

  /**
   * bt_hci_send_acl, the Python entry point hci_send_acl(sock, handle,
   * pb_flag, bc_flag[, data]): the handle is taken as an unsigned short
   * and the flags as unsigned chars, all without overflow checking; without
   * data the length is 0 and only the header is sent. A nonzero result of
   * hci_send_acl becomes a socket error carrying errno; otherwise 0 is
   * returned.
   */
  method BtHciSendAcl(writev: seq<WritevResult>, handle: int, pbFlag: int, bcFlag: int, data: Option<seq<byte>>)
    returns (r: Result<int>, calls: seq<seq<seq<byte>>>)
    requires Settles(writev)
    ensures |calls| == FirstSettled(writev) + 1
    ensures forall i :: 0 <= i < |calls| ==>
              calls[i] == AclSegments((handle % 0x1_0000) as bv16, (pbFlag % 0x100) as bv8, (bcFlag % 0x100) as bv8,
                                      BindingDlen(data), BindingPayload(data))
    ensures data.None? ==> forall i :: 0 <= i < |calls| ==> |calls[i]| == 2
    ensures r.Ok? <==> writev[FirstSettled(writev)].Wrote?
    ensures r.Ok? ==> r.value == 0
    ensures r.Err? ==> r.error == SocketError(writev[FirstSettled(writev)].errno)
  {
    var dlen := BindingDlen(data);
    var payload := BindingPayload(data);
    var h := (handle % 0x1_0000) as bv16;
    var pb := (pbFlag % 0x100) as bv8;
    var bc := (bcFlag % 0x100) as bv8;
    var err, errno;
    err, errno, calls := HciSendAcl(writev, h, pb, bc, dlen, payload);
    AclSegmentsLayout(h, pb, bc, dlen, payload);
    if err != 0 {
      r := Err(SocketError(errno));
    } else {
      r := Ok(err);
    }
  }
}
