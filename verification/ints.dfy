/** The machine types of the engine's interfaces: fixed-width integers and raw pointers. */
module Ints {

  const TwoTo32: int := 0x1_0000_0000

  /** `uint32_t` / `UINT`. */
  newtype uint32 = x: int | 0 <= x < 0x1_0000_0000

  /** `int32_t` / `HRESULT`. */
  newtype int32 = x: int | -0x8000_0000 <= x < 0x8000_0000

  /** An address in host memory (`const void*`, `void*`): initial data, a window handle, bytecode. */
  type Address = nat

  /** `a * b` evaluated in `uint32_t`: the product is reduced modulo 2^32. */
  function MulUint32(a: uint32, b: uint32): uint32
  {
    ((a as int * b as int) % TwoTo32) as uint32
  }
}
