/**
 * `CBasicKeyStore`: the in-memory key store of a wallet.  It holds
 * transparent keys by key identifier, redeem scripts by script identifier,
 * watch-only scripts, a write-once HD seed, the identities the wallet
 * follows with a short history each, and the Sprout and Sapling shielded
 * keys.  The Sapling maps form a chain from a payment address to its
 * incoming viewing key, from there to the full viewing key and on to the
 * spending key.
 *
 * Keys, addresses and note decryptors are opaque values; every derivation
 * between them is supplied as a function of a `Derivations` value.
 */
module KeyStore {
  import opened Hashing
  import opened Wrappers
  import opened IdentityNames
  import opened IdentityHistory

  /** A serialised script. */
  type Script = Bytes

  /** `MAX_SCRIPT_ELEMENT_SIZE`; script.h is not part of this model. */
  const MAX_SCRIPT_ELEMENT_SIZE: nat := 520

  /** `CKey`, `CPubKey` and the shielded key and address types. */
  type Key(==)
  type PubKey(==)
  type SproutSpendingKey(==)
  type SproutViewingKey(==)
  type SproutPaymentAddress(==)
  type NoteDecryption(==)
  type SaplingExtendedSpendingKey(==)
  type SaplingFullViewingKey(==)
  type SaplingIncomingViewingKey(==)
  type SaplingPaymentAddress(==)

  /** `HDSeed`: the raw seed bytes; a seed is null when it has no bytes. */
  datatype HDSeed = HDSeed(bytes: Bytes)
  {
    predicate IsNull()
    {
      |bytes| == 0
    }
  }

  /** The hashes, the script decoder and the key derivations the store calls. */
  datatype Derivations = Derivations(
    hashes: Hashes,
    /** The valid primary identity a script carries, if any. */
    identityIn: Script -> Option<Identity>,
    /** `CKey::GetPubKey` and `CPubKey::GetID`. */
    pubKeyOf: Key -> PubKey,
    keyIdOf: PubKey -> U160,
    /** `SproutSpendingKey::address` and the decryptor built from its receiving key. */
    spendingAddressOf: SproutSpendingKey -> SproutPaymentAddress,
    spendingDecryptorOf: SproutSpendingKey -> NoteDecryption,
    /** `SproutViewingKey::address` and the decryptor built from its `sk_enc`. */
    viewingAddressOf: SproutViewingKey -> SproutPaymentAddress,
    viewingDecryptorOf: SproutViewingKey -> NoteDecryption,
    /** `expsk.full_viewing_key()` and `SaplingFullViewingKey::in_viewing_key`. */
    fullViewingKeyOf: SaplingExtendedSpendingKey -> SaplingFullViewingKey,
    inViewingKeyOf: SaplingFullViewingKey -> SaplingIncomingViewingKey)

  class CBasicKeyStore {
    const env: Derivations
    var hdSeed: HDSeed
    var mapKeys: map<U160, Key>
    var mapScripts: map<U160, Script>
    var setWatchOnly: set<Script>
    var mapIdentities: map<U160, IdentityWithHistory>
    var mapSproutSpendingKeys: map<SproutPaymentAddress, SproutSpendingKey>
    var mapSproutViewingKeys: map<SproutPaymentAddress, SproutViewingKey>
    var mapNoteDecryptors: map<SproutPaymentAddress, NoteDecryption>
    var mapSaplingSpendingKeys: map<SaplingFullViewingKey, SaplingExtendedSpendingKey>
    var mapSaplingFullViewingKeys: map<SaplingIncomingViewingKey, SaplingFullViewingKey>
    var mapSaplingIncomingViewingKeys: map<SaplingPaymentAddress, SaplingIncomingViewingKey>

    /**
     * Shielded keys are filed under what they derive, every Sprout address
     * with a key has a note decryptor, every Sapling spending key's
     * incoming viewing key leads to a full viewing key, and every stored
     * identity history is valid and non-empty.
     */
    ghost predicate Valid()
      reads this
    {
      (forall a :: a in mapSproutSpendingKeys ==>
         env.spendingAddressOf(mapSproutSpendingKeys[a]) == a && a in mapNoteDecryptors) &&
      (forall a :: a in mapSproutViewingKeys ==>
         env.viewingAddressOf(mapSproutViewingKeys[a]) == a && a in mapNoteDecryptors) &&
      (forall fvk :: fvk in mapSaplingSpendingKeys ==>
         env.fullViewingKeyOf(mapSaplingSpendingKeys[fvk]) == fvk &&
         env.inViewingKeyOf(fvk) in mapSaplingFullViewingKeys) &&
      (forall ivk :: ivk in mapSaplingFullViewingKeys ==>
         env.inViewingKeyOf(mapSaplingFullViewingKeys[ivk]) == ivk) &&
      (forall id :: id in mapIdentities ==>
         mapIdentities[id].IsValid() && mapIdentities[id].ids != map[])
    }

    /** An empty store with a null seed. */
    constructor(env: Derivations)
      ensures Valid() && this.env == env
      ensures hdSeed.IsNull()
      ensures mapKeys == map[] && mapScripts == map[] && setWatchOnly == {} && mapIdentities == map[]
      ensures mapSproutSpendingKeys == map[] && mapSproutViewingKeys == map[] && mapNoteDecryptors == map[]
      ensures mapSaplingSpendingKeys == map[] && mapSaplingFullViewingKeys == map[]
      ensures mapSaplingIncomingViewingKeys == map[]
    {
      this.env := env;
      hdSeed := HDSeed([]);
      mapKeys := map[];
      mapScripts := map[];
      setWatchOnly := {};
      mapIdentities := map[];
      mapSproutSpendingKeys := map[];
      mapSproutViewingKeys := map[];
      mapNoteDecryptors := map[];
      mapSaplingSpendingKeys := map[];
      mapSaplingFullViewingKeys := map[];
      mapSaplingIncomingViewingKeys := map[];
    }

    /** The seed can be set only while it is null. */
    method SetHDSeed(seed: HDSeed) returns (ok: bool)
      requires Valid()
      modifies this
      ensures Valid()
      ensures ok <==> old(hdSeed).IsNull()
      ensures hdSeed == (if ok then seed else old(hdSeed))
      ensures !old(hdSeed).IsNull() ==> hdSeed == old(hdSeed)
      ensures mapKeys == old(mapKeys) && mapScripts == old(mapScripts) && setWatchOnly == old(setWatchOnly)
      ensures mapIdentities == old(mapIdentities)
      ensures mapSproutSpendingKeys == old(mapSproutSpendingKeys) && mapSproutViewingKeys == old(mapSproutViewingKeys)
      ensures mapNoteDecryptors == old(mapNoteDecryptors) && mapSaplingSpendingKeys == old(mapSaplingSpendingKeys)
      ensures mapSaplingFullViewingKeys == old(mapSaplingFullViewingKeys)
      ensures mapSaplingIncomingViewingKeys == old(mapSaplingIncomingViewingKeys)
    {
      if !hdSeed.IsNull() {
        ok := false;
      } else {
        hdSeed := seed;
        ok := true;
      }
    }

    method HaveHDSeed() returns (b: bool)
      ensures b <==> !hdSeed.IsNull()
    {
      b := !hdSeed.IsNull();
    }

    /** The seed, unless it is null. */
    method GetHDSeed() returns (r: Option<HDSeed>)
      ensures r.None? <==> hdSeed.IsNull()
      ensures r.Some? ==> r.value == hdSeed
    {
      if hdSeed.IsNull() {
        r := None;
      } else {
        r := Some(hdSeed);
      }
    }

    /** `GetKey`, a lookup in `mapKeys` (keystore.h is not part of this model). */
    method GetKey(address: U160) returns (r: Option<Key>)
      ensures r.Some? <==> address in mapKeys
      ensures r.Some? ==> r.value == mapKeys[address]
    {
      r := if address in mapKeys then Some(mapKeys[address]) else None;
    }

    /** `CKeyStore::GetPubKey`: the public key of the stored key, if there is one. */
    method GetPubKey(address: U160) returns (r: Option<PubKey>)
      ensures r.Some? <==> address in mapKeys
      ensures r.Some? ==> r.value == env.pubKeyOf(mapKeys[address])
    {
      var key := GetKey(address);
      if key.None? {
        r := None;
      } else {
        r := Some(env.pubKeyOf(key.value));
      }
    }

    /** Files `key` under the identifier of `pubkey`, replacing any key there. */
    method AddKeyPubKey(key: Key, pubkey: PubKey) returns (ok: bool)
      requires Valid()
      modifies this
      ensures Valid() && ok
      ensures mapKeys == old(mapKeys)[env.keyIdOf(pubkey) := key]
      ensures hdSeed == old(hdSeed) && mapScripts == old(mapScripts) && setWatchOnly == old(setWatchOnly)
      ensures mapIdentities == old(mapIdentities)
      ensures mapSproutSpendingKeys == old(mapSproutSpendingKeys) && mapSproutViewingKeys == old(mapSproutViewingKeys)
      ensures mapNoteDecryptors == old(mapNoteDecryptors) && mapSaplingSpendingKeys == old(mapSaplingSpendingKeys)
      ensures mapSaplingFullViewingKeys == old(mapSaplingFullViewingKeys)
      ensures mapSaplingIncomingViewingKeys == old(mapSaplingIncomingViewingKeys)
    {
      mapKeys := mapKeys[env.keyIdOf(pubkey) := key];
      ok := true;
    }

    /** `CKeyStore::AddKey`: files the key under its own public key's identifier. */
    method AddKey(key: Key) returns (ok: bool)
      requires Valid()
      modifies this
      ensures Valid() && ok
      ensures var id := env.keyIdOf(env.pubKeyOf(key));
              mapKeys == old(mapKeys)[id := key] && id in mapKeys &&
              env.pubKeyOf(mapKeys[id]) == env.pubKeyOf(key)
      ensures hdSeed == old(hdSeed) && mapScripts == old(mapScripts) && setWatchOnly == old(setWatchOnly)
      ensures mapIdentities == old(mapIdentities)
      ensures mapSproutSpendingKeys == old(mapSproutSpendingKeys) && mapSproutViewingKeys == old(mapSproutViewingKeys)
      ensures mapNoteDecryptors == old(mapNoteDecryptors) && mapSaplingSpendingKeys == old(mapSaplingSpendingKeys)
      ensures mapSaplingFullViewingKeys == old(mapSaplingFullViewingKeys)
      ensures mapSaplingIncomingViewingKeys == old(mapSaplingIncomingViewingKeys)
    {
      ok := AddKeyPubKey(key, env.pubKeyOf(key));
    }

    /**
     * Refuses a script longer than `MAX_SCRIPT_ELEMENT_SIZE`; otherwise files
     * it under its identity's name identifier when it carries one, else
     * under its own hash.
     */
    method AddCScript(script: Script) returns (ok: bool)
      requires Valid()
      modifies this
      ensures Valid()
      ensures ok <==> |script| <= MAX_SCRIPT_ELEMENT_SIZE
      ensures !ok ==> mapScripts == old(mapScripts)
      ensures ok ==> mapScripts == old(mapScripts)[ScriptOrIdentityID(env.hashes, env.identityIn, script) := script]
      ensures ok ==> ScriptOrIdentityID(env.hashes, env.identityIn, script) in mapScripts && mapScripts[ScriptOrIdentityID(env.hashes, env.identityIn, script)] == script
      ensures hdSeed == old(hdSeed) && mapKeys == old(mapKeys) && setWatchOnly == old(setWatchOnly)
      ensures mapIdentities == old(mapIdentities)
      ensures mapSproutSpendingKeys == old(mapSproutSpendingKeys) && mapSproutViewingKeys == old(mapSproutViewingKeys)
      ensures mapNoteDecryptors == old(mapNoteDecryptors) && mapSaplingSpendingKeys == old(mapSaplingSpendingKeys)
      ensures mapSaplingFullViewingKeys == old(mapSaplingFullViewingKeys)
      ensures mapSaplingIncomingViewingKeys == old(mapSaplingIncomingViewingKeys)
    {
      if |script| > MAX_SCRIPT_ELEMENT_SIZE {
        ok := false;
      } else {
        mapScripts := mapScripts[ScriptOrIdentityID(env.hashes, env.identityIn, script) := script];
        ok := true;
      }
    }

    method HaveCScript(hash: U160) returns (b: bool)
      ensures b <==> hash in mapScripts
    {
      b := hash in mapScripts;
    }

    method GetCScript(hash: U160) returns (r: Option<Script>)
      ensures r.Some? <==> hash in mapScripts
      ensures r.Some? ==> r.value == mapScripts[hash]
    {
      if hash in mapScripts {
        r := Some(mapScripts[hash]);
      } else {
        r := None;
      }
    }

    method HaveIdentity(idID: U160) returns (b: bool)
      ensures b <==> idID in mapIdentities
    {
      b := idID in mapIdentities;
    }

    /**
     * Updates the history filed under the identity's name identifier; fails
     * only when there is none, and succeeds whatever the history update
     * itself decided.
     */
    method UpdateIdentity(identity: Identity, height: Height) returns (ok: bool)
      requires Valid()
      modifies this
      ensures Valid()
      ensures var id := identity.NameID(env.hashes);
              (ok <==> id in old(mapIdentities)) &&
              (!ok ==> mapIdentities == old(mapIdentities)) &&
              (ok ==> mapIdentities == old(mapIdentities)[id := Updated(old(mapIdentities)[id], identity, height).1])
      ensures hdSeed == old(hdSeed) && mapKeys == old(mapKeys) && mapScripts == old(mapScripts)
      ensures setWatchOnly == old(setWatchOnly)
      ensures mapSproutSpendingKeys == old(mapSproutSpendingKeys) && mapSproutViewingKeys == old(mapSproutViewingKeys)
      ensures mapNoteDecryptors == old(mapNoteDecryptors) && mapSaplingSpendingKeys == old(mapSaplingSpendingKeys)
      ensures mapSaplingFullViewingKeys == old(mapSaplingFullViewingKeys)
      ensures mapSaplingIncomingViewingKeys == old(mapSaplingIncomingViewingKeys)
    {
      var id := identity.NameID(env.hashes);
      if id !in mapIdentities {
        ok := false;
      } else {
        var hist := mapIdentities[id];
        var _, updated := IdentityHistory.UpdateIdentity(hist, identity, height);
        UpdateRefusal(hist, identity, height);
        UpdateBounded(hist, identity, height);
        mapIdentities := mapIdentities[id := updated];
        ok := true;
      }
    }

    /** Starts a one-entry history under the identity's name identifier, unless one is filed there. */
    method AddIdentity(identity: Identity, height: Height) returns (ok: bool)
      requires Valid()
      modifies this
      ensures Valid()
      ensures var id := identity.NameID(env.hashes);
              (ok <==> id !in old(mapIdentities)) &&
              (!ok ==> mapIdentities == old(mapIdentities)) &&
              (ok ==> mapIdentities == old(mapIdentities)[id := IdentityWithHistory(true, map[height := identity])])
      ensures hdSeed == old(hdSeed) && mapKeys == old(mapKeys) && mapScripts == old(mapScripts)
      ensures setWatchOnly == old(setWatchOnly)
      ensures mapSproutSpendingKeys == old(mapSproutSpendingKeys) && mapSproutViewingKeys == old(mapSproutViewingKeys)
      ensures mapNoteDecryptors == old(mapNoteDecryptors) && mapSaplingSpendingKeys == old(mapSaplingSpendingKeys)
      ensures mapSaplingFullViewingKeys == old(mapSaplingFullViewingKeys)
      ensures mapSaplingIncomingViewingKeys == old(mapSaplingIncomingViewingKeys)
    {
      var id := identity.NameID(env.hashes);
      if id in mapIdentities {
        ok := false;
      } else {
        var single: map<Height, Identity> := map[height := identity];
        assert height in single;
        mapIdentities := mapIdentities[id := IdentityWithHistory(true, single)];
        ok := true;
      }
    }

    /** Forgets the history filed under `idID`; removing twice is the same as removing once. */
    method RemoveIdentity(idID: U160) returns (ok: bool)
      requires Valid()
      modifies this
      ensures Valid() && ok
      ensures mapIdentities == old(mapIdentities) - {idID} && idID !in mapIdentities
      ensures hdSeed == old(hdSeed) && mapKeys == old(mapKeys) && mapScripts == old(mapScripts)
      ensures setWatchOnly == old(setWatchOnly)
      ensures mapSproutSpendingKeys == old(mapSproutSpendingKeys) && mapSproutViewingKeys == old(mapSproutViewingKeys)
      ensures mapNoteDecryptors == old(mapNoteDecryptors) && mapSaplingSpendingKeys == old(mapSaplingSpendingKeys)
      ensures mapSaplingFullViewingKeys == old(mapSaplingFullViewingKeys)
      ensures mapSaplingIncomingViewingKeys == old(mapSaplingIncomingViewingKeys)
    {
      mapIdentities := mapIdentities - {idID};
      ok := true;
    }

    method GetIdentityAndHistory(idID: U160) returns (r: Option<IdentityWithHistory>)
      ensures r.Some? <==> idID in mapIdentities
      ensures r.Some? ==> r.value == mapIdentities[idID]
    {
      if idID !in mapIdentities {
        r := None;
      } else {
        r := Some(mapIdentities[idID]);
      }
    }

    /**
     * Files a whole history, replacing any there, under the name identifier
     * of its lowest-height version; a history that is invalid or empty is
     * ignored.  Always reports success.
     */
    method AddUpdateIdentityAndHistory(hist: IdentityWithHistory) returns (ok: bool)
      requires Valid()
      modifies this
      ensures Valid() && ok
      ensures !(hist.IsValid() && hist.ids != map[]) ==> mapIdentities == old(mapIdentities)
      ensures hist.IsValid() && hist.ids != map[] ==>
                mapIdentities == old(mapIdentities)[hist.ids[MinKey(hist.ids)].NameID(env.hashes) := hist]
      ensures hdSeed == old(hdSeed) && mapKeys == old(mapKeys) && mapScripts == old(mapScripts)
      ensures setWatchOnly == old(setWatchOnly)
      ensures mapSproutSpendingKeys == old(mapSproutSpendingKeys) && mapSproutViewingKeys == old(mapSproutViewingKeys)
      ensures mapNoteDecryptors == old(mapNoteDecryptors) && mapSaplingSpendingKeys == old(mapSaplingSpendingKeys)
      ensures mapSaplingFullViewingKeys == old(mapSaplingFullViewingKeys)
      ensures mapSaplingIncomingViewingKeys == old(mapSaplingIncomingViewingKeys)
    {
      if hist.IsValid() && hist.ids != map[] {
        mapIdentities := mapIdentities[hist.ids[MinKey(hist.ids)].NameID(env.hashes) := hist];
      }
      ok := true;
    }

    method AddWatchOnly(dest: Script) returns (ok: bool)
      requires Valid()
      modifies this
      ensures Valid() && ok
      ensures setWatchOnly == old(setWatchOnly) + {dest}
      ensures hdSeed == old(hdSeed) && mapKeys == old(mapKeys) && mapScripts == old(mapScripts)
      ensures mapIdentities == old(mapIdentities)
      ensures mapSproutSpendingKeys == old(mapSproutSpendingKeys) && mapSproutViewingKeys == old(mapSproutViewingKeys)
      ensures mapNoteDecryptors == old(mapNoteDecryptors) && mapSaplingSpendingKeys == old(mapSaplingSpendingKeys)
      ensures mapSaplingFullViewingKeys == old(mapSaplingFullViewingKeys)
      ensures mapSaplingIncomingViewingKeys == old(mapSaplingIncomingViewingKeys)
    {
      setWatchOnly := setWatchOnly + {dest};
      ok := true;
    }

    method RemoveWatchOnly(dest: Script) returns (ok: bool)
      requires Valid()
      modifies this
      ensures Valid() && ok
      ensures setWatchOnly == old(setWatchOnly) - {dest}
      ensures hdSeed == old(hdSeed) && mapKeys == old(mapKeys) && mapScripts == old(mapScripts)
      ensures mapIdentities == old(mapIdentities)
      ensures mapSproutSpendingKeys == old(mapSproutSpendingKeys) && mapSproutViewingKeys == old(mapSproutViewingKeys)
      ensures mapNoteDecryptors == old(mapNoteDecryptors) && mapSaplingSpendingKeys == old(mapSaplingSpendingKeys)
      ensures mapSaplingFullViewingKeys == old(mapSaplingFullViewingKeys)
      ensures mapSaplingIncomingViewingKeys == old(mapSaplingIncomingViewingKeys)
    {
      setWatchOnly := setWatchOnly - {dest};
      ok := true;
    }

    method HaveWatchOnly(dest: Script) returns (b: bool)
      ensures b <==> dest in setWatchOnly
    {
      b := dest in setWatchOnly;
    }

    /** `HaveWatchOnly()` without an argument: whether any script is watched. */
    method HaveAnyWatchOnly() returns (b: bool)
      ensures b <==> setWatchOnly != {}
    {
      b := setWatchOnly != {};
    }

    /** Files a Sprout spending key under its address and adds a decryptor for that address unless one is there. */
    method AddSproutSpendingKey(sk: SproutSpendingKey) returns (ok: bool)
      requires Valid()
      modifies this
      ensures Valid() && ok
      ensures var a := env.spendingAddressOf(sk);
              mapSproutSpendingKeys == old(mapSproutSpendingKeys)[a := sk] &&
              mapNoteDecryptors == InsertAbsent(old(mapNoteDecryptors), a, env.spendingDecryptorOf(sk))
      ensures hdSeed == old(hdSeed) && mapKeys == old(mapKeys) && mapScripts == old(mapScripts)
      ensures setWatchOnly == old(setWatchOnly) && mapIdentities == old(mapIdentities)
      ensures mapSproutViewingKeys == old(mapSproutViewingKeys) && mapSaplingSpendingKeys == old(mapSaplingSpendingKeys)
      ensures mapSaplingFullViewingKeys == old(mapSaplingFullViewingKeys)
      ensures mapSaplingIncomingViewingKeys == old(mapSaplingIncomingViewingKeys)
    {
      var address := env.spendingAddressOf(sk);
      mapSproutSpendingKeys := mapSproutSpendingKeys[address := sk];
      mapNoteDecryptors := InsertAbsent(mapNoteDecryptors, address, env.spendingDecryptorOf(sk));
      ok := true;
    }

    /** Files a Sprout viewing key under its address and adds a decryptor for that address unless one is there. */
    method AddSproutViewingKey(vk: SproutViewingKey) returns (ok: bool)
      requires Valid()
      modifies this
      ensures Valid() && ok
      ensures var a := env.viewingAddressOf(vk);
              mapSproutViewingKeys == old(mapSproutViewingKeys)[a := vk] &&
              mapNoteDecryptors == InsertAbsent(old(mapNoteDecryptors), a, env.viewingDecryptorOf(vk))
      ensures hdSeed == old(hdSeed) && mapKeys == old(mapKeys) && mapScripts == old(mapScripts)
      ensures setWatchOnly == old(setWatchOnly) && mapIdentities == old(mapIdentities)
      ensures mapSproutSpendingKeys == old(mapSproutSpendingKeys) && mapSaplingSpendingKeys == old(mapSaplingSpendingKeys)
      ensures mapSaplingFullViewingKeys == old(mapSaplingFullViewingKeys)
      ensures mapSaplingIncomingViewingKeys == old(mapSaplingIncomingViewingKeys)
    {
      var address := env.viewingAddressOf(vk);
      mapSproutViewingKeys := mapSproutViewingKeys[address := vk];
      mapNoteDecryptors := InsertAbsent(mapNoteDecryptors, address, env.viewingDecryptorOf(vk));
      ok := true;
    }

    /** Forgets the viewing key filed under `vk`'s address; note decryptors stay. */
    method RemoveSproutViewingKey(vk: SproutViewingKey) returns (ok: bool)
      requires Valid()
      modifies this
      ensures Valid() && ok
      ensures mapSproutViewingKeys == old(mapSproutViewingKeys) - {env.viewingAddressOf(vk)}
      ensures mapNoteDecryptors == old(mapNoteDecryptors)
      ensures hdSeed == old(hdSeed) && mapKeys == old(mapKeys) && mapScripts == old(mapScripts)
      ensures setWatchOnly == old(setWatchOnly) && mapIdentities == old(mapIdentities)
      ensures mapSproutSpendingKeys == old(mapSproutSpendingKeys) && mapSaplingSpendingKeys == old(mapSaplingSpendingKeys)
      ensures mapSaplingFullViewingKeys == old(mapSaplingFullViewingKeys)
      ensures mapSaplingIncomingViewingKeys == old(mapSaplingIncomingViewingKeys)
    {
      mapSproutViewingKeys := mapSproutViewingKeys - {env.viewingAddressOf(vk)};
      ok := true;
    }

    method HaveSproutViewingKey(address: SproutPaymentAddress) returns (b: bool)
      ensures b <==> address in mapSproutViewingKeys
    {
      b := address in mapSproutViewingKeys;
    }

    method GetSproutViewingKey(address: SproutPaymentAddress) returns (r: Option<SproutViewingKey>)
      ensures r.Some? <==> address in mapSproutViewingKeys
      ensures r.Some? ==> r.value == mapSproutViewingKeys[address]
    {
      if address in mapSproutViewingKeys {
        r := Some(mapSproutViewingKeys[address]);
      } else {
        r := None;
      }
    }

    /** Maps `addr` to `ivk`, replacing any key it had. */
    method AddSaplingIncomingViewingKey(ivk: SaplingIncomingViewingKey, addr: SaplingPaymentAddress)
      returns (ok: bool)
      requires Valid()
      modifies this
      ensures Valid() && ok
      ensures mapSaplingIncomingViewingKeys == old(mapSaplingIncomingViewingKeys)[addr := ivk]
      ensures hdSeed == old(hdSeed) && mapKeys == old(mapKeys) && mapScripts == old(mapScripts)
      ensures setWatchOnly == old(setWatchOnly) && mapIdentities == old(mapIdentities)
      ensures mapSproutSpendingKeys == old(mapSproutSpendingKeys) && mapSproutViewingKeys == old(mapSproutViewingKeys)
      ensures mapNoteDecryptors == old(mapNoteDecryptors) && mapSaplingSpendingKeys == old(mapSaplingSpendingKeys)
      ensures mapSaplingFullViewingKeys == old(mapSaplingFullViewingKeys)
    {
      mapSaplingIncomingViewingKeys := mapSaplingIncomingViewingKeys[addr := ivk];
      ok := true;
    }

    /** Files `fvk` under its incoming viewing key and maps `defaultAddr` to that key. */
    method AddSaplingFullViewingKey(fvk: SaplingFullViewingKey, defaultAddr: SaplingPaymentAddress)
      returns (ok: bool)
      requires Valid()
      modifies this
      ensures Valid() && ok
      ensures var ivk := env.inViewingKeyOf(fvk);
              mapSaplingFullViewingKeys == old(mapSaplingFullViewingKeys)[ivk := fvk] &&
              mapSaplingIncomingViewingKeys == old(mapSaplingIncomingViewingKeys)[defaultAddr := ivk]
      ensures hdSeed == old(hdSeed) && mapKeys == old(mapKeys) && mapScripts == old(mapScripts)
      ensures setWatchOnly == old(setWatchOnly) && mapIdentities == old(mapIdentities)
      ensures mapSproutSpendingKeys == old(mapSproutSpendingKeys) && mapSproutViewingKeys == old(mapSproutViewingKeys)
      ensures mapNoteDecryptors == old(mapNoteDecryptors) && mapSaplingSpendingKeys == old(mapSaplingSpendingKeys)
    {
      var ivk := env.inViewingKeyOf(fvk);
      mapSaplingFullViewingKeys := mapSaplingFullViewingKeys[ivk := fvk];
      ok := AddSaplingIncomingViewingKey(ivk, defaultAddr);
    }

    /**
     * Files the full viewing key of `sk` (and maps `defaultAddr` to its
     * incoming viewing key), then files `sk` under that full viewing key.
     */
    method AddSaplingSpendingKey(sk: SaplingExtendedSpendingKey, defaultAddr: SaplingPaymentAddress)
      returns (ok: bool)
      requires Valid()
      modifies this
      ensures Valid() && ok
      ensures var fvk := env.fullViewingKeyOf(sk);
              var ivk := env.inViewingKeyOf(fvk);
              mapSaplingSpendingKeys == old(mapSaplingSpendingKeys)[fvk := sk] &&
              mapSaplingFullViewingKeys == old(mapSaplingFullViewingKeys)[ivk := fvk] &&
              mapSaplingIncomingViewingKeys == old(mapSaplingIncomingViewingKeys)[defaultAddr := ivk]
      ensures SaplingKeyFor(defaultAddr) == Some(sk)
      ensures hdSeed == old(hdSeed) && mapKeys == old(mapKeys) && mapScripts == old(mapScripts)
      ensures setWatchOnly == old(setWatchOnly) && mapIdentities == old(mapIdentities)
      ensures mapSproutSpendingKeys == old(mapSproutSpendingKeys) && mapSproutViewingKeys == old(mapSproutViewingKeys)
      ensures mapNoteDecryptors == old(mapNoteDecryptors)
    {
      var fvk := env.fullViewingKeyOf(sk);
      ok := AddSaplingFullViewingKey(fvk, defaultAddr);
      if ok {
        mapSaplingSpendingKeys := mapSaplingSpendingKeys[fvk := sk];
      }
    }

    method HaveSaplingFullViewingKey(ivk: SaplingIncomingViewingKey) returns (b: bool)
      ensures b <==> ivk in mapSaplingFullViewingKeys
    {
      b := ivk in mapSaplingFullViewingKeys;
    }

    method HaveSaplingIncomingViewingKey(addr: SaplingPaymentAddress) returns (b: bool)
      ensures b <==> addr in mapSaplingIncomingViewingKeys
    {
      b := addr in mapSaplingIncomingViewingKeys;
    }

    method GetSaplingFullViewingKey(ivk: SaplingIncomingViewingKey) returns (r: Option<SaplingFullViewingKey>)
      ensures r.Some? <==> ivk in mapSaplingFullViewingKeys
      ensures r.Some? ==> r.value == mapSaplingFullViewingKeys[ivk]
    {
      if ivk in mapSaplingFullViewingKeys {
        r := Some(mapSaplingFullViewingKeys[ivk]);
      } else {
        r := None;
      }
    }

    method GetSaplingIncomingViewingKey(addr: SaplingPaymentAddress) returns (r: Option<SaplingIncomingViewingKey>)
      ensures r.Some? <==> addr in mapSaplingIncomingViewingKeys
      ensures r.Some? ==> r.value == mapSaplingIncomingViewingKeys[addr]
    {
      if addr in mapSaplingIncomingViewingKeys {
        r := Some(mapSaplingIncomingViewingKeys[addr]);
      } else {
        r := None;
      }
    }

    /** `GetSaplingSpendingKey`, a lookup in `mapSaplingSpendingKeys` (keystore.h is not part of this model). */
    method GetSaplingSpendingKey(fvk: SaplingFullViewingKey) returns (r: Option<SaplingExtendedSpendingKey>)
      ensures r.Some? <==> fvk in mapSaplingSpendingKeys
      ensures r.Some? ==> r.value == mapSaplingSpendingKeys[fvk]
    {
      if fvk in mapSaplingSpendingKeys {
        r := Some(mapSaplingSpendingKeys[fvk]);
      } else {
        r := None;
      }
    }

    /** The spending key reached from `addr` through its incoming and full viewing keys, if the chain is complete. */
    function SaplingKeyFor(addr: SaplingPaymentAddress): Option<SaplingExtendedSpendingKey>
      reads this
    {
      if addr !in mapSaplingIncomingViewingKeys then None
      else
        var ivk := mapSaplingIncomingViewingKeys[addr];
        if ivk !in mapSaplingFullViewingKeys then None
        else
          var fvk := mapSaplingFullViewingKeys[ivk];
          if fvk !in mapSaplingSpendingKeys then None
          else Some(mapSaplingSpendingKeys[fvk])
    }

    /** Follows the chain address, incoming viewing key, full viewing key, spending key. */
    method GetSaplingExtendedSpendingKey(addr: SaplingPaymentAddress) returns (r: Option<SaplingExtendedSpendingKey>)
      requires Valid()
      ensures r == SaplingKeyFor(addr)
      ensures r.Some? ==> env.fullViewingKeyOf(r.value) in mapSaplingSpendingKeys
    {
      var ivk := GetSaplingIncomingViewingKey(addr);
      if ivk.None? {
        r := None;
      } else {
        var fvk := GetSaplingFullViewingKey(ivk.value);
        if fvk.None? {
          r := None;
        } else {
          r := GetSaplingSpendingKey(fvk.value);
        }
      }
    }
  }
}
