/**
 * Bytes, the 160- and 256-bit hash values used as identifiers, and the one
 * hashing step both name hashers repeat: hash one name label, chain it under a
 * parent identifier unless that parent is null, and shorten the result to
 * 160 bits.  `Hash` (double SHA-256) and `Hash160` are not part of this
 * model; they are supplied as the functions of a `Hashes` value.
 */
module Hashing {

  type byte = b: int | 0 <= b < 256

  type Bytes = seq<byte>

  /** `uint160`: twenty bytes. */
  type U160 = b: Bytes | |b| == 20 witness seq(20, _ => 0)

  /** `uint256`: thirty-two bytes. */
  type U256 = b: Bytes | |b| == 32 witness seq(32, _ => 0)

  /** The value of a default-constructed `uint160`. */
  const NULL_ID: U160 := [0, 0, 0, 0, 0, 0, 0, 0, 0, 0, 0, 0, 0, 0, 0, 0, 0, 0, 0, 0]

  /** `uint160::IsNull`: every byte is zero, which holds of `NULL_ID` alone. */
  predicate IsNull(id: U160)
  {
    forall k :: 0 <= k < |id| ==> id[k] == 0
  }

  /** `Hash` over a byte range and `Hash160` over a byte range. */
  datatype Hashes = Hashes(hash: Bytes -> U256, hash160: Bytes -> U160)

  /**
   * One level of a name identifier: the digest of the label bytes `part`, prefixed by the
   * parent identifier and hashed again when the parent is not null, then
   * shortened with `Hash160`.
   */
  function IdStep(h: Hashes, parent: U160, part: Bytes): U160
  {
    var digest := h.hash(part);
    h.hash160(if IsNull(parent) then digest else h.hash(parent + digest))
  }
}
