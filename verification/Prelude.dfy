/** Shared value types: options and results, machine widths, and the Ethereum log record. */
module Prelude {

  datatype Option<+T> = None | Some(value: T)

  datatype Result<+T, +E> = Ok(value: T) | Err(error: E)

  const TWO_32: nat := 0x1_0000_0000
  const TWO_64: nat := 0x1_0000_0000_0000_0000
  const TWO_128: nat := 0x1_0000_0000_0000_0000_0000_0000_0000_0000
  const TWO_256: nat := TWO_128 * TWO_128

  /** Hashes and addresses are only ever compared for equality, so their width plays no part. */
  type Hash = nat
  type Address = nat

  /** A log record as the EVM emits it. */
  datatype EvmLog = EvmLog(address: Address, topics: seq<Hash>, data: seq<nat>)

  function Min(a: nat, b: nat): nat { if a <= b then a else b }

  function Max(a: nat, b: nat): nat { if a <= b then b else a }

  lemma {:induction false} MulMonotone(p: nat, a: nat, b: nat)
    requires a <= b
    ensures p * a <= p * b && a * p <= b * p
  {
  }

  /** A number that fits 32 bits survives the cut. */
  lemma {:induction false} Fits32(n: nat)
    requires n < TWO_32
    ensures n % TWO_32 == n
  {
  }

  function Last<T>(s: seq<T>): T
    requires s != []
  {
    s[|s| - 1]
  }

  function Init<T>(s: seq<T>): seq<T>
    requires s != []
  {
    s[..|s| - 1]
  }
}
