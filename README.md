# Key store and VDXF names

A Dafny model of two parts of a Verus wallet node:

- **The basic key store** (`src/keystore.cpp`). It covers:
  - the multipart identity names it files identities under: splitting, sanitising and truncating labels, and folding parent labels into a parent identifier;
  - the name identifier of an identity;
  - the identifier a script is filed under;
  - the two-entry history kept for each identity;
  - every map accessor of `CBasicKeyStore`: transparent keys, scripts, watch-only scripts, the HD seed, identities, and Sprout and Sapling keys.
- **The VDXF name code** (`src/pbaas/vdxf.cpp`). It covers:
  - the byte-trimming helpers;
  - `TrimSpaces`, which finds misplaced spaces and invalid characters in a UTF-8 name;
  - `CVDXF::ParseSubNames`, which splits `leaf.parent@chain` into validated labels and adds the implicit Verus root;
  - `CVDXF::CleanName` and the two `CVDXF::GetID` overloads, which turn a name into a 160-bit identifier;
  - `CVDXF::GetDataKey`, which resolves `namespace::key` names.

The key store is a class whose methods update its maps in place. The name parsers and the trimming helpers are methods with the source's loops. Each is proved against a specification function, and lemmas relate those functions: round trips, refusals, bounds, case insensitivity and the parent chain of identifiers.

The module layout follows the sources:

| file | contents |
|---|---|
| `strings.dfy` | `boost::split` and the sequence facts both parsers need |
| `hashing.dfy` | bytes, `uint160`/`uint256`, and one hashing step |
| `utf8.dfy` | UTF-8 byte lengths and byte cuts |
| `chain_params.dfy` | the chain constants |
| `identity_names.dfy` | keystore.cpp names and script identifiers |
| `identity_history.dfy` | `CIdentityWithHistory` |
| `keystore.dfy` | `CBasicKeyStore` |
| `vdxf_trim.dfy` | the vdxf.cpp trimming helpers |
| `vdxf.dfy` | the `CVDXF` name functions |

Hashing (`Hash`, `Hash160`), key derivations, the script decoder and `DecodeCurrencyName` are parameters of the model. They are fields of function type in `Hashes`, `Derivations` and `VdxfEnv`.

keystore.cpp treats names as bytes, and they are modelled as bytes. vdxf.cpp reads names as UTF-8, so they are modelled as code points. Byte lengths and byte cuts there go through an explicit UTF-8 encoder (section 3 of RFC 3629).

## Model

| member | source | states |
|---|---|---|
| Strings.SplitCount | src/keystore.cpp:28 | Splitting on a set of separators without token compression gives exactly one more piece than the input has separators. |
| Strings.SplitPieces | src/keystore.cpp:28 | Every character of every piece occurs in the input and is not a separator. |
| Strings.SplitSnoc | src/pbaas/vdxf.cpp:201 | Appending a separator opens a new empty piece; appending any other character extends the last piece. |
| Strings.SplitLastEmpty | src/pbaas/vdxf.cpp:203 | The last piece is empty exactly when the input is empty or ends with a separator. |
| Strings.SplitFirst | src/pbaas/vdxf.cpp:187 | The first piece of a split on `@` is the text before the first `@`. |
| Strings.SplitThenJoin | src/pbaas/vdxf.cpp:187 | Joining the pieces of a one-separator split with that separator gives the input back. |
| Strings.JoinThenSplit | src/pbaas/vdxf.cpp:201 | Separator-free pieces joined with a separator split back into the same pieces. |
| Utf8.TruncateKeepsPrefix | src/pbaas/vdxf.cpp:245-248 | A 64-byte cut that is valid UTF-8 is a prefix of the label of exactly min(64, byte length) bytes. |
| Utf8.TruncateMalformed | src/pbaas/vdxf.cpp:245-248 | The cut is invalid UTF-8 exactly when the cut point falls strictly inside a character. |
| Utf8.TruncateShort | src/pbaas/vdxf.cpp:245 | A label of at most 64 bytes is kept whole. |
| IdentityNames.ParseSubNames | src/keystore.cpp:16-39 | The in-place sanitising loop and truncating loop compute `SubNames`. Invalid bytes become `_`, the name is split at `.` and `@`, and every label longer than 64 bytes is cut to 64. |
| IdentityNames.SubNamesCount | src/keystore.cpp:16-39 | There is one label more than the name has `.` and `@` characters; sanitising moves no separator. |
| IdentityNames.SubNamesAreClean | src/keystore.cpp:16-39 | Every label is at most 64 bytes, with no invalid byte and no separator. |
| IdentityNames.SubNamesOfJoin | src/keystore.cpp:16-39 | Clean labels joined with `.` parse back to the same labels. |
| IdentityNames.SanitizedFree | src/keystore.cpp:20-26 | A name without invalid bytes is left unchanged by sanitising. |
| IdentityNames.CleanName | src/keystore.cpp:43-70 | Returns the first label. The parent is updated by chaining the labels from the last down to the second, each lower-cased and read as a C string, under the previous parent. The empty-parse branch at keystore.cpp:47-50 cannot be taken, because a split always yields at least one piece (`SubNamesCount`). |
| IdentityNames.CleanNameOfChild | src/keystore.cpp:43-90 | A single clean label cleans to itself under an unchanged parent. `child.label` cleans to `child` under `GetNameID(label, parent)`, so the parent of a sub-identity is its parent identity's identifier. |
| IdentityNames.GetNameID | src/keystore.cpp:72-90 | The identifier depends only on the lower-cased name, as a C string. Under a null parent it is `Hash160` of that name's hash. Under any other parent it is `Hash160` of the hash of the parent's bytes followed by the name's hash. |
| IdentityNames.NameIDCaseInsensitive | src/keystore.cpp:72-115 | Names equal up to ASCII case have the same name identifier under the same parent. |
| IdentityNames.Identity.NameIDOf | src/keystore.cpp:92-110 | The member overload repeats the static one's code with the identity's own parent, and gives the same identifier as `GetNameID(Name, parent)`. |
| IdentityNames.Identity.NameID | src/keystore.cpp:112-115 | An identity's name identifier is its own name's `GetNameID` under its parent. |
| IdentityNames.ScriptOrIdentityID | src/keystore.cpp:159-171 | A script that carries a valid identity is filed under that identity's name identifier, and any other script under its own `Hash160`. |
| IdentityNames.SameIdentitySameScriptID | src/keystore.cpp:159-171 | Scripts carrying identities with the same parent and the same name up to case are filed under the same identifier, so a newer identity script replaces the older one. |
| IdentityHistory.MinKey | src/keystore.cpp:214 | `ids.begin()->first` is a stored height no greater than any other. |
| IdentityHistory.MaxKey | src/keystore.cpp:222 | `ids.rbegin()->first` is a stored height no smaller than any other. |
| IdentityHistory.UpdateIdentity | src/keystore.cpp:208-233 | Returns the verdict and the new history of `Updated`. A one-entry history gains a new height. Otherwise, a height above the lowest replaces the lowest entry unless it equals the highest. A lower height is refused. |
| IdentityHistory.UpdateRefusal | src/keystore.cpp:208-233 | An update is refused exactly when the history does not have one entry and the height is not above the lowest. A refused update changes nothing, and validity is never changed. |
| IdentityHistory.UpdateBounded | src/keystore.cpp:208-233 | The history never becomes empty. A history of one or two entries keeps at most two, and a longer one does not grow. |
| IdentityHistory.UpdateMovesForward | src/keystore.cpp:208-233 | No stored version is overwritten and only the lowest height can disappear. An accepted height is stored afterwards, and the highest height never decreases. |
| IdentityHistory.HistoryStaysBounded | src/keystore.cpp:208-233 | After any sequence of updates, a history started with one or two entries holds one or two. |
| IdentityHistory.ForwardOnlyExample | src/keystore.cpp:208-233 | Versions at heights 100, 105 and 110 leave 105 and 110, and a later version at 103 is refused. |
| KeyStore.CBasicKeyStore.SetHDSeed | src/keystore.cpp:130-140 | The seed is set exactly when it was null. A non-null seed is never replaced, and nothing else changes. |
| KeyStore.CBasicKeyStore.HaveHDSeed | src/keystore.cpp:142-146 | Reports whether the seed is not null. |
| KeyStore.CBasicKeyStore.GetHDSeed | src/keystore.cpp:148-157 | Gives the seed exactly when it is not null. |
| KeyStore.CBasicKeyStore.GetPubKey | src/keystore.cpp:117-124 | Succeeds exactly when a key is stored under the identifier, and gives that key's public key. |
| KeyStore.CBasicKeyStore.AddKeyPubKey | src/keystore.cpp:173-178 | Files the key under the public key's identifier, replacing any key there. Nothing else changes. |
| KeyStore.CBasicKeyStore.AddKey | src/keystore.cpp:126-128 | Files the key under its own public key's identifier; a later lookup gives back a key with the same public key. |
| KeyStore.CBasicKeyStore.AddCScript | src/keystore.cpp:180-188 | Refuses a script over 520 bytes and changes nothing. Otherwise it files the script under `ScriptOrIdentityID` of the script. |
| KeyStore.CBasicKeyStore.HaveCScript | src/keystore.cpp:190-194 | Reports whether a script is filed under the identifier. |
| KeyStore.CBasicKeyStore.GetCScript | src/keystore.cpp:196-206 | Gives the script filed under the identifier exactly when there is one. |
| KeyStore.CBasicKeyStore.HaveIdentity | src/keystore.cpp:235-238 | Reports whether a history is filed under the identifier. |
| KeyStore.CBasicKeyStore.UpdateIdentity | src/keystore.cpp:240-250 | Fails, changing nothing, exactly when no history is filed under the identity's name identifier. Otherwise it replaces that history with its update, whatever the update's verdict. The store stays valid. |
| KeyStore.CBasicKeyStore.AddIdentity | src/keystore.cpp:252-263 | Fails when a history is already filed under the name identifier. Otherwise it files a valid one-entry history there. |
| KeyStore.CBasicKeyStore.RemoveIdentity | src/keystore.cpp:265-269 | The identifier has no history afterwards, and all other entries stay. |
| KeyStore.CBasicKeyStore.GetIdentityAndHistory | src/keystore.cpp:271-280 | Gives the history filed under the identifier exactly when there is one. |
| KeyStore.CBasicKeyStore.AddUpdateIdentityAndHistory | src/keystore.cpp:282-289 | A valid, non-empty history is filed under the name identifier of its lowest-height version. Anything else is ignored, and the call always succeeds. |
| KeyStore.CBasicKeyStore.AddWatchOnly | src/keystore.cpp:291-296 | Adds the script to the watch-only set. |
| KeyStore.CBasicKeyStore.RemoveWatchOnly | src/keystore.cpp:298-303 | Removes the script from the watch-only set. |
| KeyStore.CBasicKeyStore.HaveWatchOnly | src/keystore.cpp:305-309 | Reports whether the script is watched. |
| KeyStore.CBasicKeyStore.HaveAnyWatchOnly | src/keystore.cpp:311-315 | Reports whether any script is watched. |
| KeyStore.CBasicKeyStore.AddSproutSpendingKey | src/keystore.cpp:317-324 | Files the key under its address and adds a note decryptor for that address unless one is there. |
| KeyStore.CBasicKeyStore.AddSaplingSpendingKey | src/keystore.cpp:327-342 | Files the full viewing key, maps the default address to the incoming viewing key, and files the spending key. Looking up the default address afterwards gives this spending key. |
| KeyStore.CBasicKeyStore.AddSproutViewingKey | src/keystore.cpp:344-351 | Files the viewing key under its address and adds a note decryptor unless one is there. |
| KeyStore.CBasicKeyStore.AddSaplingFullViewingKey | src/keystore.cpp:353-362 | Files the key under its incoming viewing key and maps the default address to that key. |
| KeyStore.CBasicKeyStore.AddSaplingIncomingViewingKey | src/keystore.cpp:367-377 | Maps the address to the incoming viewing key, replacing any key it had. |
| KeyStore.CBasicKeyStore.RemoveSproutViewingKey | src/keystore.cpp:379-384 | Forgets the viewing key filed under the key's address; note decryptors stay. |
| KeyStore.CBasicKeyStore.HaveSproutViewingKey | src/keystore.cpp:386-390 | Reports whether a viewing key is filed under the address. |
| KeyStore.CBasicKeyStore.HaveSaplingFullViewingKey | src/keystore.cpp:392-396 | Reports whether a full viewing key is filed under the incoming viewing key. |
| KeyStore.CBasicKeyStore.HaveSaplingIncomingViewingKey | src/keystore.cpp:398-402 | Reports whether the address has an incoming viewing key. |
| KeyStore.CBasicKeyStore.GetSproutViewingKey | src/keystore.cpp:404-415 | Gives the viewing key filed under the address exactly when there is one. |
| KeyStore.CBasicKeyStore.GetSaplingFullViewingKey | src/keystore.cpp:417-427 | Gives the full viewing key filed under the incoming viewing key exactly when there is one. |
| KeyStore.CBasicKeyStore.GetSaplingIncomingViewingKey | src/keystore.cpp:429-439 | Gives the address's incoming viewing key exactly when there is one. |
| KeyStore.CBasicKeyStore.GetSaplingExtendedSpendingKey | src/keystore.cpp:441-449 | Follows address to incoming viewing key, to full viewing key, to spending key, and fails at the first missing link. A spending key found this way derives a full viewing key under which a spending key is filed. |
| VdxfTrim.TrimLeading | src/pbaas/vdxf.cpp:22-38 | The result is a suffix of the name. Every byte removed matches `ch`, and the result does not start with a matching byte. A byte at or above 0x80 never matches, because a signed `char` is compared with an `unsigned char`. |
| VdxfTrim.TrimTrailing | src/pbaas/vdxf.cpp:40-53 | The result is a prefix of the name. Every byte removed matches `ch`, and the result does not end with a matching byte. |
| VdxfTrim.LeadingTrimmedUnique | src/pbaas/vdxf.cpp:22-38 | Those three properties determine the result of `TrimLeading` uniquely. |
| VdxfTrim.TrailingTrimmedUnique | src/pbaas/vdxf.cpp:40-53 | Those three properties determine the result of `TrimTrailing` uniquely. |
| VdxfTrim.LeadingTrimmedIdempotent | src/pbaas/vdxf.cpp:22-38 | Trimming leading bytes twice is trimming once. |
| VdxfTrim.TrailingTrimmedIdempotent | src/pbaas/vdxf.cpp:40-53 | Trimming trailing bytes twice is trimming once. |
| VdxfTrim.AllMatchingTrimsToEmpty | src/pbaas/vdxf.cpp:22-53 | A string made only of `ch` trims to nothing at either end. |
| VdxfTrim.MarkForRemoval | src/pbaas/vdxf.cpp:57-122 | Every marked position is in range. Nothing is marked exactly when `NothingToTrim` holds. That means no code point is an invalid character, and no space is first or last or, when removing duals, follows another space. |
| VdxfTrim.FillDualRun | src/pbaas/vdxf.cpp:102-120 | The back-fill only inserts positions of earlier spaces and invalid characters, and never drops a mark. Because `nextDual` stays 0, the loop never stops early, so every recorded space or invalid position ends up marked. |
| VdxfTrim.RemoveMarkedAsWritten | src/pbaas/vdxf.cpp:124-148 | The rebuild loop as written computes `RebuiltAsWritten`, whose index moves on twice per pass while marks remain. Its output is a subsequence of the code points and strictly shorter. |
| VdxfTrim.RebuildAsWrittenLosesCode | src/pbaas/vdxf.cpp:136 | For `" a"` with only position 0 marked, the loop as written gives `""`, while the intended rebuild gives `"a"`. |
| VdxfTrim.RemoveMarked | src/pbaas/vdxf.cpp:124-148 | The corrected rebuild loop computes `Rebuilt`. Its output is a subsequence of the code points and strictly shorter, because the first mark is always dropped. |
| VdxfTrim.RebuiltDropsExactlyMarked | src/pbaas/vdxf.cpp:124-148 | With strictly increasing marks inside the name, the corrected rebuild keeps exactly the code points at unmarked positions, in order (`KeptFrom`). It removes one code point per mark. |
| VdxfTrim.TrimSpaces | src/pbaas/vdxf.cpp:55-154 | Invalid UTF-8 gives `""`. Otherwise the result is a subsequence of the name. It equals the name exactly when nothing is to trim, and is strictly shorter than the name's C-string part when something is. |
| Vdxf.ParseSubNames | src/pbaas/vdxf.cpp:182-256 | Computes `SubNames`. More than one `@`, or a chain part `TrimSpaces` would change, gives no labels and leaves the chain name alone. A non-empty chain part becomes the chain name. The rooted labels before `@` are validated. |
| Vdxf.RootLabels | src/pbaas/vdxf.cpp:200-241 | Computes `Rooted`. A trailing empty label is dropped and turns the root off. Otherwise the lower-cased Verus chain name is appended unless the last label already is it. |
| Vdxf.ValidateLabels | src/pbaas/vdxf.cpp:243-255 | Computes `Validated`: every label is cut to 64 bytes; all are kept when each is valid UTF-8, non-empty and has nothing to trim, and none otherwise. |
| Vdxf.SubNamesRejects | src/pbaas/vdxf.cpp:187-191 | More than one `@`, or a chain part with something to trim, gives no labels and leaves the chain name alone. |
| Vdxf.SubNamesChain | src/pbaas/vdxf.cpp:193-198 | With one acceptable `@`, the chain name becomes the text after it when that is not empty, and is kept otherwise. |
| Vdxf.LabelTextPrefix | src/pbaas/vdxf.cpp:245-248 | A cut label that is valid UTF-8 is a prefix of the label and at most 64 bytes. |
| Vdxf.ValidatedElement | src/pbaas/vdxf.cpp:243-255 | When validation keeps the labels, it keeps all of them and each is the accepted cut of the label given. |
| Vdxf.SubNamesAreLabels | src/pbaas/vdxf.cpp:182-256 | Every returned label is non-empty and at most 64 bytes. It holds no `.` and no `@`, and has nothing to trim. |
| Vdxf.RootedEndsInVerus | src/pbaas/vdxf.cpp:232-240 | With the root on and a name part that does not end in `.`, the rooted labels end in a label that lower-cases to `vrsc`. |
| Vdxf.SubNamesRooted | src/pbaas/vdxf.cpp:182-256 | With the root on and a name part that does not end in `.`, a non-empty result always ends in the Verus chain name. |
| Vdxf.HasExplicitParent | src/pbaas/vdxf.cpp:156-178 | A name has an explicit parent exactly when it has at most one `@` and the part before the `@` is empty or ends in `.`. |
| Vdxf.EmptyLocalPartNoLabels | src/pbaas/vdxf.cpp:200-208 | A name whose part before `@` is empty parses to no labels, because its single empty label is dropped as a trailing one. |
| Vdxf.ExplicitParentHasNoRoot | src/pbaas/vdxf.cpp:200-208 | A name with an explicit parent parses the same whether or not the root is requested. |
| Vdxf.SubNamesOfFullName | src/pbaas/vdxf.cpp:182-256 | Labels joined with `.` and closed with `.` parse back to exactly those labels, and the chain name is kept. |
| Vdxf.EncodeBeforeNul | src/pbaas/vdxf.cpp:283-290 | The bytes `strlen` reads of a name's encoding are the encoding of the name before its first U+0000. |
| Vdxf.CleanName | src/pbaas/vdxf.cpp:260-296 | Computes `CleanNameOf`. No labels give `""` and an unchanged parent. Under a non-null parent, a trailing Verus label of a multipart name is dropped. The labels from the last down to the second are chained into the parent, and the first label is returned. |
| Vdxf.FoldParentLabels | src/pbaas/vdxf.cpp:277-294 | The loop chains the labels from the last down to the second into the parent. All bytes are hashed under a null parent; under any other parent only those before the first zero byte. |
| Vdxf.GetID | src/pbaas/vdxf.cpp:324-349 | Computes `IdOf`. `"::"` is hashed as it is, and any other name is cleaned first. An empty clean name gives the null identifier; otherwise the lower-cased clean name is chained under the updated parent. |
| Vdxf.GetTopLevelID | src/pbaas/vdxf.cpp:298-322 | Computes `TopLevelIdOf`: the name is cleaned under a null parent and hashed like the two-argument form. |
| Vdxf.TopLevelIdIsNullParent | src/pbaas/vdxf.cpp:298-349 | For every name but `"::"`, the one-argument `GetID` equals the two-argument one under a null parent. For `"::"` the one-argument form gives the null identifier, while the two-argument one hashes it. |
| Vdxf.SeparatorRefused | src/pbaas/vdxf.cpp:188 | `"::"` alone parses to no labels, because `:` is an invalid character. |
| Vdxf.HierarchicalId | src/pbaas/vdxf.cpp:260-349 | For two labels `leaf` and `parent`, the identifier of `leaf.parent.` under `p` is the identifier of `leaf.` under the identifier of `parent.` under `p`. This needs two conditions, because the source breaks the hierarchy otherwise. First, `parent` holds no U+0000: under a null `p`, vdxf.cpp:285 hashes all `size()` bytes of a parent label, while `GetID` hashes only its `strlen` bytes. Second, when `p` is not null, `parent` is not `vrsc` in any case: vdxf.cpp:270-275 then drops it, so `leaf.vrsc.` is `leaf` hashed directly under `p`. |
| Vdxf.GetDataKey | src/pbaas/vdxf.cpp:353-382 | Computes `DataKeyOf`. A leading `ns::` sets the namespace to the decoded `ns`, closed with `.`, unless that decodes to null. A null namespace becomes `VERUS_CHAINID`. The rest of the key is hashed under the identifier of `"::"` under the namespace. |
| Vdxf.RejoinKey | src/pbaas/vdxf.cpp:368-373 | The parts after `ns::` are joined back together with `:`. |
| Vdxf.HasNamespaceMeaning | src/pbaas/vdxf.cpp:363 | The namespace part that is read is non-empty exactly when the key name does not start with `::`. |
| Vdxf.ExplicitNamespace | src/pbaas/vdxf.cpp:353-382 | `ns::key` gives the same data key as `key` with the namespace's identifier passed in, provided `ns` decodes to a non-null identifier. With a null decoding, the namespace passed in is used. |

## Left out

- Locking (`LOCK(cs_KeyStore)`, `LOCK(cs_SpendingKeyStore)`), `LogPrintf` and `error()` messages are not modelled; the model is single-threaded.
- `Hash`, `Hash160`, `CKey::GetPubKey`, `CPubKey::GetID`, the Sprout and Sapling key derivations, the crypto-condition script decoder and `DecodeCurrencyName` are outside this model. They are parameters, and nothing is assumed of them.
- keystore.h, vdxf.h, script.h, komodo_defs.h and the identity classes are not part of this model. The following are taken from them:
  - `GetKey` and `GetSaplingSpendingKey` are modelled as plain map lookups.
  - `MAX_SCRIPT_ELEMENT_SIZE` is 520.
  - `KOMODO_ASSETCHAIN_MAXLEN` is 65, so a label keeps at most 64 bytes.
  - `VERUS_CHAINNAME` is `VRSC`.
  - `VERUS_CHAINID` is a parameter.
  - The defaults are `TrimSpaces(name, removeDuals = false, invalidChars = "\/:*?"<>|")` and `ParseSubNames(…, displayfilter = false, addVerus = true)`.
- `CIdentityWithHistory` is a value held in the identity map. Its version field is not modelled, and its validity flag is a boolean.
- IdentityHistory.UpdateIdentity: the transaction identifier is left out, because the source never reads it.
- The `HDSeed` bytes are modelled as a byte string; a seed is null when it is empty.
- IdentityNames.CleanName, IdentityNames.GetNameID: keystore.cpp:54, 77 and 97 read a pointer into a temporary lower-cased copy after that copy is destroyed. The model hashes the lower-cased name, which is what the code evidently means.
- IdentityNames.GetNameID: the source's `CleanName` call before hashing has a result that is never used, so it is not modelled.
- Vdxf.ParseSubNames: the block at vdxf.cpp:216-230 builds `chainOutNames` and never uses it, so it is not modelled. `nameCopy.pop_back()` at line 207 changes a string that is not read again, so it is not modelled either. When the part before `@` is empty (names such as `""`, `"@"` and `"@chain"`), `nameCopy` is empty there, and `pop_back` on an empty string is undefined behaviour. The model carries on as if the call did nothing: the empty label is dropped, so such a name parses to no labels (`EmptyLocalPartNoLabels`), `CleanName` gives `""` and `GetID` gives the null identifier.
- Vdxf.RootLabels: the `lastRetName == ""` branch at vdxf.cpp:237-240 cannot be taken, because a trailing empty label has already been dropped and the root turned off. It is therefore not modelled.
- Vdxf.GetDataKey: vdxf.cpp:363 reads the last character of an empty namespace part when the key name starts with `::`, which is undefined behaviour. The model requires `HasNamespace`, and `HasNamespaceMeaning` states exactly which key names that excludes.
- Vdxf.TopLevelIdIsNullParent: the one-argument `GetID` has no `"::"` case, so the two overloads differ on `"::"`. The lemma states the equality for every other name and both values for `"::"`.
- VdxfTrim.TrimSpaces: names are modelled as sequences of code points. Invalid UTF-8 is represented only as a whole (`Text.Malformed`), so which bytes of an invalid name would be read is not modelled. The contract states that the result is a subsequence, when it is the name itself, and that it is shorter otherwise. It does not state which code points are kept. The rebuild loop is modelled as written (`RemoveMarkedAsWritten`, see Findings), and in general it does not keep exactly the unmarked code points. The order of the marks is not stated either (see `MarkForRemoval`).
- VdxfTrim.MarkForRemoval: the order of `toRemove` and the exact positions the back-fill loop inserts are not stated, only their range and whether any exist. Those are all the rest of the code uses.
- Vdxf.SubNames, Vdxf.ParseSubNames, Vdxf.CleanName, Vdxf.GetID, Vdxf.GetTopLevelID, Vdxf.GetDataKey: these take a name as a sequence of code points, so a name that is not valid UTF-8 cannot be given to them. The source takes such a name and refuses it in `ParseSubNames`: `TrimSpaces` gives `""` for invalid UTF-8 (vdxf.cpp:62-65), so an invalid label is refused at vdxf.cpp:250 and an invalid chain part is refused too, so the name parses to no labels, `CleanName` gives `""` and `GetID` gives the null identifier. Those inputs are outside this model. Only `TrimSpaces` and the 64-byte cut see invalid UTF-8 (`Text.Malformed`).
- Vdxf.ValidateLabels: a label that holds U+0000 before a 64-byte cut that splits a character is refused here. The source's UTF-8 check stops at the zero byte and would accept it. The result would not be a sequence of code points.
- VdxfTrim.TrimLeading, VdxfTrim.TrimTrailing: the comparison of a signed `char` with an `unsigned char` is modelled for a platform where `char` is signed. With an unsigned `char`, bytes at or above 0x80 would match too.
- `uni_get_*`, `DeserializeVDXFData`, `SerializeVDXFData` and the static VDXF keys in vdxf.cpp are serialisation and JSON helpers outside this model.

## Findings

| source | as written | input that shows it | evidently intended | confidence | as-written member | corrected member |
|---|---|---|---|---|---|---|
| src/pbaas/vdxf.cpp:136 | The rebuild loop compares `i++ == toRemove[toRemoveIdx]`, so while marks remain `i` is advanced twice per code point read. The loop can stop before it has read the whole name, and later marks are compared with the wrong positions. | `TrimSpaces(" a")`: only position 0 is marked. The loop stops after one pass and gives `""`. | `i == toRemove[toRemoveIdx]`: drop exactly the marked code points, giving `"a"`. | high, not executed | VdxfTrim.RebuildAsWrittenLosesCode | VdxfTrim.RebuiltDropsExactlyMarked |
