/** Small value types shared by every component. */
module Common {

  datatype Option<+T> = None | Some(value: T)

  /** A 32-bit register or command word. */
  type Word = x: int | 0 <= x < 0x1_0000_0000

  const ALL_ONES: Word := 0xFFFF_FFFF

  /** The C conversion (uint32_t)x of a signed integer. */
  function ToU32(x: int): Word {
    x % 0x1_0000_0000
  }
}
