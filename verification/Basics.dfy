/** Identifiers, bytes, and numbers written in bytes. */
module Basics {
  /** Block hashes are identifiers here; only their equality matters. */
  type Hash = nat

  type Byte = x: nat | x < 256
  type Bytes = seq<Byte>

  /** The number that bytes stand for, the lowest byte first. */
  function Magnitude(b: Bytes): nat {
    if b == [] then 0 else b[0] + 256 * Magnitude(b[1..])
  }

  /** 256 to the k. */
  function Pow256(k: nat): nat {
    if k == 0 then 1 else 256 * Pow256(k - 1)
  }
}
