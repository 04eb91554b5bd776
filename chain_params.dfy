/**
 * Chain-wide constants the name parsers use.  Their definitions live in
 * komodo_defs.h and the PBaaS chain setup, which are not part of this model.
 */
module ChainParams {

  /** `KOMODO_ASSETCHAIN_MAXLEN`: one more than the longest label kept, in bytes. */
  const KOMODO_ASSETCHAIN_MAXLEN: nat := 65

  /** The longest label the parsers keep, in bytes. */
  const MAX_LABEL_BYTES: nat := KOMODO_ASSETCHAIN_MAXLEN - 1

  /** `VERUS_CHAINNAME` on the Verus main chain. */
  const VERUS_CHAINNAME: string := "VRSC"
}
