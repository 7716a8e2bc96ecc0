/** Shared vocabulary of the contracts crate: optional values, results,
    the fixed-width integers of Rust and ethers, and the outcome of a call
    into a collaborator whose internals are not part of this model. */
module Base {

  datatype Option<+T> = None | Some(value: T)

  /** Rust's `Result<T, E>`. */
  datatype Result<+T, +E> = Ok(value: T) | Err(error: E)

  const U32_MAX: nat := 0xFFFF_FFFF
  const U32_MODULUS: nat := 0x1_0000_0000

  type U32 = x: nat | x <= U32_MAX
  type U64 = x: nat | x < 0x1_0000_0000_0000_0000
  type U256 = x: nat | x < 0x1_0000_0000_0000_0000_0000_0000_0000_0000_0000_0000_0000_0000_0000_0000_0000_0000

  /** An ethers `Address` (H160) as the number its 20 bytes spell, big-endian. */
  type Address = a: nat | a < 0x1_0000_0000_0000_0000_0000_0000_0000_0000_0000_0000

  /** An ethers `H256` as the number its 32 bytes spell, big-endian. */
  type H256 = U256

  /** What a collaborator call (the exchange API, the signer, the admin
      check) reported: it either went through or failed with a message. */
  datatype Remote = Succeeded | Failed(reason: string)

  /** `u32::saturating_add`. */
  function SaturatingAddU32(a: U32, b: U32): (r: U32)
    ensures a + b <= U32_MAX ==> r == a + b
    ensures a + b > U32_MAX ==> r == U32_MAX
  {
    if a + b > U32_MAX then U32_MAX else a + b
  }

  /** `a += b` on a `u32` when overflow checks are off (Rust's release
      profile): the sum modulo 2^32. */
  function WrappingAddU32(a: U32, b: U32): (r: U32)
    ensures a + b <= U32_MAX ==> r == a + b
    ensures a + b > U32_MAX ==> r == a + b - U32_MODULUS
  {
    (a + b) % U32_MODULUS
  }

  function Min(a: int, b: int): (m: int)
    ensures m <= a && m <= b
    ensures m == a || m == b
  {
    if a <= b then a else b
  }
}
