/** Machine integers as ranges of mathematical ones. */
module Words {
  const U8: nat := 0x100
  const U32: nat := 0x1_0000_0000
  const U64: nat := 0x1_0000_0000_0000_0000
  const U160: nat := 0x1_0000_0000_0000_0000_0000_0000_0000_0000_0000_0000
  const U256: nat := 0x1_0000_0000_0000_0000_0000_0000_0000_0000_0000_0000_0000_0000_0000_0000_0000_0000
  const I63: int := 0x8000_0000_0000_0000

  type uint8 = n: nat | n < U8
  type uint32 = n: nat | n < U32
  type uint64 = n: nat | n < U64
  type uint256 = n: nat | n < U256
  type int64 = x: int | -I63 <= x < I63

  /** A 32-byte hash. */
  type Hash = uint256

  /** The signed 64-bit word with the same low bits. */
  function Wrap(x: int): int64 {
    (x + I63) % U64 - I63
  }
}
