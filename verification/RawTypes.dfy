/** Bytes, machine integers and decoding outcomes of the raw serialization. */
module RawTypes {
  type Octet = x: int | 0 <= x < 256
  type Bytes = seq<Octet>
  type uint32 = x: int | 0 <= x < 0x1_0000_0000
  type int32 = x: int | -0x8000_0000 <= x < 0x8000_0000
  type int64 = x: int | -0x8000_0000_0000_0000 <= x < 0x8000_0000_0000_0000
  type uint64 = x: int | 0 <= x < 0x1_0000_0000_0000_0000

  datatype Error =
    | OutOfRange   // the stream ended
    | Overlong     // a varint whose shift has no defined meaning
    | TooLong      // a length at or over the allocation limit
    | BadTag
    | BadBool

  /** The outcome of decoding the front of a byte sequence: a value and what is left. */
  datatype Result<+T> = Ok(value: T, rest: Bytes) | Fail(error: Error)
}
