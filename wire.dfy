/**
 * Types shared by every part of the HCI wire-format model: bytes, the
 * unsigned integer widths the C code uses, and the outcomes of the Python
 * readers and parsers (a value, or the exception they raise).
 */
module Wire {

  /** One octet on the wire, as Python's struct module and C's uint8_t see it. */
  type byte = b: int | 0 <= b < 0x100

  /** C's uint16_t. */
  type uint16 = x: int | 0 <= x < 0x1_0000

  /** Conventional optional value (Python's None, or a C pointer that may be NULL). */
  datatype Option<+T> = None | Some(value: T)

  /**
   * The exceptions the modelled Python code lets escape.
   * StructError: struct.unpack_from / struct.pack on a short buffer or an
   *   out-of-range value.
   * IndexError: indexing past the end of a buffer.
   * KeyError(key): a dictionary lookup on a missing key.
   * ParseError: bluetool's HCIParseError ("not enough data to parse").
   * SocketError(errno): the socket error the C extension raises from errno.
   */
  datatype Error =
    | StructError
    | IndexError
    | KeyError(key: int)
    | ParseError
    | SocketError(errno: int)

  /** A value, or the exception that escapes; usable with `:-` like a raise. */
  datatype Result<+T> = Ok(value: T) | Err(error: Error) {
    predicate IsFailure() {
      Err?
    }

    function PropagateFailure<U>(): Result<U>
      requires Err?
    {
      Err(error)
    }

    function Extract(): T
      requires Ok?
    {
      value
    }
  }
}
