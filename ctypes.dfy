/** Fixed-width C integer types used by the firmware, and the one conversion
    whose wrap-around is observable: an `int` passed where a `uint64_t` is
    expected. */
module CTypes {
  const UINT16_LIMIT: int := 0x1_0000
  const UINT32_LIMIT: int := 0x1_0000_0000
  const UINT64_LIMIT: int := 0x1_0000_0000_0000_0000

  type uint8 = x: int | 0 <= x < 0x100
  type uint16 = x: int | 0 <= x < UINT16_LIMIT
  type uint32 = x: int | 0 <= x < UINT32_LIMIT
  type uint64 = x: int | 0 <= x < UINT64_LIMIT

  /** The C conversion of a (possibly negative) integer to `uint64_t`:
      reduction modulo 2^64. */
  function ToUint64(x: int): (r: uint64)
    ensures 0 <= x < UINT64_LIMIT ==> r == x
    ensures -UINT64_LIMIT <= x < 0 ==> r == x + UINT64_LIMIT
  {
    x % UINT64_LIMIT
  }

  /** The C conversion of an unsigned value to `uint16_t`: keep the low 16 bits. */
  function ToUint16(x: nat): (r: uint16)
    ensures x < UINT16_LIMIT ==> r == x
  {
    x % UINT16_LIMIT
  }
}
