/**
 Machine-width integers, byte strings, and the identifiers shared by the ledger modules.
 A fixed-width integer of the node is a subset of `int`, so every place that must not
 overflow is a proof obligation; a place that wraps or saturates says so explicitly.
 */
module Base {

  datatype Option<+T> = None | Some(value: T)

  datatype Result<+T, +E> = Ok(value: T) | Err(error: E)

  const U32_MAX: int := 0xFFFF_FFFF
  const U64_MAX: int := 0xFFFF_FFFF_FFFF_FFFF
  const I64_MAX: int := 0x7FFF_FFFF_FFFF_FFFF
  const I64_MIN: int := -0x8000_0000_0000_0000
  const TWO_64: int := 0x1_0000_0000_0000_0000

  type U32 = x: int | 0 <= x <= U32_MAX
  type U64 = x: int | 0 <= x <= U64_MAX
  type I64 = x: int | I64_MIN <= x <= I64_MAX

  type Byte = x: int | 0 <= x < 256

  /** A 28-byte hash; what it is a hash of never matters here. */
  type Hash28 = s: seq<Byte> | |s| == 28 witness seq(28, _ => 0)

  datatype NetworkId = Mainnet | Testnet

  datatype Credential = ScriptHash(hash: Hash28) | AddrKeyHash(hash: Hash28)

  datatype StakeAddress = StakeAddress(network: NetworkId, credential: Credential)

  datatype PoolId = PoolId(hash: Hash28)

  function Min(x: int, y: int): int {
    if x <= y then x else y
  }

  function Max(x: int, y: int): int {
    if x <= y then y else x
  }

  /** Reinterpretation of an unsigned word as a two's-complement one. */
  function AsI64(x: U64): I64 {
    if x <= I64_MAX then x else x - TWO_64
  }

  /** Wrapping negation: the most negative word is its own negation. */
  function NegI64(x: I64): I64 {
    if x == I64_MIN then I64_MIN else -x
  }

  /** Reduction to the word, as overflowing arithmetic does. */
  function Wrapping(x: int): (r: U64)
    ensures x > U64_MAX ==> r <= x - TWO_64
    decreases x < 0, if x < 0 then -x else x
  {
    if x < 0 then Wrapping(x + TWO_64) else if x > U64_MAX then Wrapping(x - TWO_64) else x
  }

  function SaturatingAdd(x: U64, y: U64): U64 {
    if x + y <= U64_MAX then x + y else U64_MAX
  }
}
