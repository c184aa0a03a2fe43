/**
 * HCI ACL and synchronous (SCO) data packet parsers (bluetool/data.py),
 * after the layouts of sections 5.4.2 and 5.4.3 of the Bluetooth Core
 * Specification, Volume 4, Part E. The offset points at the packet header,
 * just past the H4 packet-type byte.
 *
 * The Python code extracts bit fields of the 16-bit header with `&` and
 * `>>`; on the non-negative header word those are `%` and `/` by powers of
 * two, which is how they are written here (HeaderBitFields proves it).
 */
module Data {
  import opened Wire
  import opened Utils

  /** A parsed ACL data packet (HCIACLData once parse has filled it). */
  datatype AclData = AclData(connHandle: int, pbFlag: int, bcFlag: int, data: seq<byte>)

  /** A parsed synchronous data packet (HCISCOData once parse has filled it). */
  datatype ScoData = ScoData(connHandle: int, pktStatusFlag: int, data: seq<byte>)

  /** ACL packet size: the 4-byte header plus the data length at offset + 2. */
  function AclPktSize(buf: seq<byte>, offset: nat): (r: Result<int>)
    ensures r.Ok? <==> offset + 4 <= |buf|
    ensures r.Ok? ==> 4 <= r.value < 4 + 0x1_0000
    ensures r.Err? ==> r.error == StructError
  {
    var dataLen :- Letoh16(buf, offset + 2);
    Ok(4 + dataLen)
  }

  /**
   * Parses an ACL data packet: the handle word and the data length, both
   * little-endian, then exactly data-length bytes of payload; any bytes
   * after them are ignored.
   */
  function AclParse(buf: seq<byte>, offset: nat): (r: Result<AclData>)
    ensures r == Err(StructError) <==> offset + 4 > |buf|
    ensures r == Err(ParseError) <==>
              offset + 4 <= |buf| && |buf| < offset + AclPktSize(buf, offset).value
    ensures r.Err? ==> r.error == StructError || r.error == ParseError
    ensures r.Ok? ==>
              var header := Letoh16(buf, offset).value;
              && 0 <= r.value.connHandle < 0x1000
              && 0 <= r.value.pbFlag < 4
              && 0 <= r.value.bcFlag < 4
              && r.value.connHandle + 0x1000 * r.value.pbFlag + 0x4000 * r.value.bcFlag == header
    ensures r.Ok? ==>
              && offset + AclPktSize(buf, offset).value <= |buf|
              && r.value.data == buf[offset + 4 .. offset + AclPktSize(buf, offset).value]
  {
    var availLen := |buf| - offset;
    var header :- Letoh16(buf, offset);
    var dataLen :- Letoh16(buf, offset + 2);
    if availLen < 4 + dataLen then
      Err(ParseError)
    else
      Ok(AclData(header % 0x1000,
                 (header / 0x1000) % 4,
                 (header / 0x4000) % 4,
                 buf[offset + 4 .. offset + 4 + dataLen]))
  }

  /** SCO packet size: the 3-byte header plus the data length byte at offset + 2. */
  function ScoPktSize(buf: seq<byte>, offset: nat): (r: Result<int>)
    ensures r.Ok? <==> offset + 3 <= |buf|
    ensures r.Ok? ==> 3 <= r.value < 3 + 0x100
    ensures r.Err? ==> r.error == StructError
  {
    var dataLen :- Letoh8(buf, offset + 2);
    Ok(3 + dataLen)
  }

  /**
   * Parses a synchronous data packet: the handle word (little-endian), a
   * one-byte data length, then the payload. Bits 14-15 of the handle word
   * are not kept.
   */
  function ScoParse(buf: seq<byte>, offset: nat): (r: Result<ScoData>)
    ensures r == Err(StructError) <==> offset + 3 > |buf|
    ensures r == Err(ParseError) <==>
              offset + 3 <= |buf| && |buf| < offset + ScoPktSize(buf, offset).value
    ensures r.Err? ==> r.error == StructError || r.error == ParseError
    ensures r.Ok? ==>
              var header := Letoh16(buf, offset).value;
              && 0 <= r.value.connHandle < 0x1000
              && 0 <= r.value.pktStatusFlag < 4
              && r.value.connHandle + 0x1000 * r.value.pktStatusFlag == header % 0x4000
    ensures r.Ok? ==>
              && offset + ScoPktSize(buf, offset).value <= |buf|
              && r.value.data == buf[offset + 3 .. offset + ScoPktSize(buf, offset).value]
  {
    var availLen := |buf| - offset;
    var header :- Letoh16(buf, offset);
    var dataLen :- Letoh8(buf, offset + 2);
    if availLen < 3 + dataLen then
      Err(ParseError)
    else
      Ok(ScoData(header % 0x1000,
                 (header / 0x1000) % 4,
                 buf[offset + 3 .. offset + 3 + dataLen]))
  }

  /**
   * The masks and shifts of the Python parsers are the `%` and `/` above:
   * on any 16-bit header word, `& 0x0fff`, `(>> 12) & 0x3` and
   * `(>> 14) & 0x3` give the same numbers.
   */
  lemma HeaderBitFields(x: bv16)
    ensures (x & 0x0fff) as int == (x as int) % 0x1000
    ensures ((x >> 12) & 0x3) as int == ((x as int) / 0x1000) % 4
    ensures ((x >> 14) & 0x3) as int == ((x as int) / 0x4000) % 4
  {
    HeaderWordSplit(x);
    assert (x >> 14) & 0x3 == x >> 14;
    HeaderFields(x as int, (x & 0x0fff) as int, ((x >> 12) & 0x3) as int, (x >> 14) as int);
  }

  /** The 12-, 2- and 2-bit fields of a number are recovered by `%` and `/`. */
  lemma HeaderFields(word: int, low: int, mid: int, high: int)
    requires 0 <= low < 0x1000 && 0 <= mid < 4 && 0 <= high < 4
    requires word == low + 0x1000 * mid + 0x4000 * high
    ensures word % 0x1000 == low
    ensures (word / 0x1000) % 4 == mid
    ensures (word / 0x4000) % 4 == high
  {
  }

  /** A 16-bit word as the sum of its 12-, 2- and 2-bit fields. */
  lemma HeaderWordSplit(x: bv16)
    ensures x as int == (x & 0x0fff) as int + 0x1000 * ((x >> 12) & 0x3) as int + 0x4000 * (x >> 14) as int
    ensures (x >> 14) as int < 4
  {
  }

  /**
   * The synchronous data packet header of section 5.4.3: the connection
   * handle in bits 0-11, the packet status flag in bits 12-13, two reserved
   * bits, then the one-byte data length and the data. A reference layout
   * for ScoParse; the model has no SCO transmitter.
   */
  function ScoFrame(handle: int, status: int, reserved: int, data: seq<byte>): (frame: seq<byte>)
    requires 0 <= handle < 0x1000 && 0 <= status < 4 && 0 <= reserved < 4 && |data| < 0x100
    ensures |frame| == 3 + |data|
  {
    var word := handle + 0x1000 * status + 0x4000 * reserved;
    [word % 0x100, word / 0x100, |data|] + data
  }

  /**
   * Parsing a synchronous data packet laid out as in section 5.4.3, followed
   * by anything, gives back its handle, status flag and data; the reserved
   * bits are dropped.
   */
  lemma ScoParseRoundTrip(handle: int, status: int, reserved: int, data: seq<byte>, rest: seq<byte>)
    requires 0 <= handle < 0x1000 && 0 <= status < 4 && 0 <= reserved < 4 && |data| < 0x100
    ensures ScoPktSize(ScoFrame(handle, status, reserved, data) + rest, 0) == Ok(3 + |data|)
    ensures ScoParse(ScoFrame(handle, status, reserved, data) + rest, 0) == Ok(ScoData(handle, status, data))
  {
  }
}
