/** What several models share. */
module Common {

  const TWO_31 := 0x8000_0000
  const TWO_32 := 0x1_0000_0000

  type byte = x: int | 0 <= x < 256
  type Bytes = seq<byte>

  type uint8 = x: int | 0 <= x < 0x100
  type uint16 = x: int | 0 <= x < 0x1_0000
  type uint32 = x: int | 0 <= x < TWO_32
  type uint64 = x: int | 0 <= x < 0x1_0000_0000_0000_0000
  type int32 = x: int | -TWO_31 <= x < TWO_31

  datatype Option<T> = None | Some(value: T)

  /** Every connection reads into a buffer of this many bytes, and a message that is longer is
      cut off there. */
  const BUFFER_SIZE: nat := 32768

  function Cut(message: Bytes): (read: Bytes)
    ensures read <= message && |read| == if |message| <= 32768 then |message| else 32768
  {
    if |message| <= BUFFER_SIZE then message else message[..BUFFER_SIZE]
  }
}
