/** Machine integers and the two result types shared by the other modules. */
module Machine {

  datatype Option<+T> = None | Some(value: T)

  datatype Result<+T, +E> = Ok(value: T) | Err(error: E)

  const TWO64: nat := 0x1_0000_0000_0000_0000
  const TWO32: nat := 0x1_0000_0000

  type U64 = x: int | 0 <= x < 0x1_0000_0000_0000_0000
  type U32 = x: int | 0 <= x < 0x1_0000_0000

  /** Go's uint64 addition: the carry out of bit 63 is dropped. */
  function Add64(a: U64, b: U64): U64 {
    if a + b < TWO64 then a + b else a + b - TWO64
  }

  /** Go's uint64 subtraction. */
  function Sub64(a: U64, b: U64): U64 {
    if b <= a then a - b else a - b + TWO64
  }
}
