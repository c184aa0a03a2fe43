/**
 * Little-endian integer readers (bluetool/utils.py). Each reads a fixed-width
 * field at an offset of a byte buffer; a buffer too short for the field makes
 * the Python code raise, which is the Err case here.
 */
module Utils {
  import opened Wire

  /**
   * Unsigned one-byte read, struct format '<B'. bluetool/data.py imports a
   * letoh8 that bluetool/utils.py does not define; this is the reader its
   * callers evidently expect.
   */
  function Letoh8(buf: seq<byte>, offset: nat): (r: Result<int>)
    ensures r.Ok? <==> offset < |buf|
    ensures r.Ok? ==> 0 <= r.value < 0x100 && r.value == buf[offset]
    ensures r.Err? ==> r.error == StructError
  {
    if offset + 1 <= |buf| then Ok(buf[offset]) else Err(StructError)
  }

  /** Signed one-byte read, struct format '<b': the two's-complement value of the byte. */
  function Letohs8(buf: seq<byte>, offset: nat): (r: Result<int>)
    ensures r.Ok? <==> offset < |buf|
    ensures r.Ok? ==> -0x80 <= r.value < 0x80 && r.value % 0x100 == buf[offset]
    ensures r.Ok? ==> (r.value < 0 <==> buf[offset] >= 0x80)
    ensures r.Err? ==> r.error == StructError
  {
    if offset + 1 <= |buf| then
      var b: int := buf[offset];
      Ok(if b < 0x80 then b else b - 0x100)
    else
      Err(StructError)
  }

  /** Unsigned 16-bit little-endian read, struct format '<H'. */
  function Letoh16(buf: seq<byte>, offset: nat): (r: Result<int>)
    ensures r.Ok? <==> offset + 2 <= |buf|
    ensures r.Ok? ==> 0 <= r.value < 0x1_0000
    ensures r.Ok? ==> r.value % 0x100 == buf[offset] && r.value / 0x100 == buf[offset + 1]
    ensures r.Err? ==> r.error == StructError
  {
    if offset + 2 <= |buf| then Ok(buf[offset] as int + 0x100 * buf[offset + 1] as int) else Err(StructError)
  }

  /**
   * Unsigned 24-bit little-endian read: a '<H' read, then the third byte
   * or-ed in at bit 16. The first read raises struct.error, the indexing
   * of the third byte raises IndexError.
   */
  function Letoh24(buf: seq<byte>, offset: nat): (r: Result<int>)
    ensures r.Ok? <==> offset + 3 <= |buf|
    ensures offset + 2 > |buf| ==> r == Err(StructError)
    ensures offset + 2 == |buf| ==> r == Err(IndexError)
    ensures r.Ok? ==> 0 <= r.value < 0x100_0000
    ensures r.Ok? ==> r.value % 0x1_0000 == Letoh16(buf, offset).value
    ensures r.Ok? ==> r.value / 0x1_0000 == buf[offset + 2]
  {
    var low := Letoh16(buf, offset);
    if low.Err? then
      Err(low.error)
    else if offset + 2 < |buf| then
      // the or-ed byte lands above the 16 bits of low, so | is +
      Ok(low.value + 0x1_0000 * buf[offset + 2] as int)
    else
      Err(IndexError)
  }
}
