/** Shared vocabulary of the raycaster model: bytes, results, ASCII text. */
module Common {

  /** An unsigned 8-bit value, as `u8` in the terminal and field code. */
  newtype byte = b: int | 0 <= b < 256

  /** The outcome of an operation that can fail, as `std::io::Result`. */
  datatype Result<+T, +E> = Ok(value: T) | Err(error: E)

  /** The byte of an ASCII character literal (`b'#'`). */
  function Byte(c: char): (b: byte)
    requires c as int < 256
    ensures b as int == c as int
  {
    c as int as byte
  }

  /** The bytes of an ASCII string literal (`b"..."`). */
  function Ascii(s: string): (bs: seq<byte>)
    requires forall i :: 0 <= i < |s| ==> s[i] as int < 256
    ensures |bs| == |s|
    ensures forall i :: 0 <= i < |s| ==> bs[i] as int == s[i] as int
  {
    seq(|s|, i requires 0 <= i < |s| => Byte(s[i]))
  }
}
