# Password vault controller — a Dafny model

This project models the core of the PasswordManager browser extension and proves properties of that model. The core is the background script's vault controller (`background.js`) and the helpers it calls (`utils.js`).

The controller holds a few things in memory:
- the AES-GCM vault key derived from the master password;
- the RSA-OAEP private key used for "blind" saving;
- a 30-second inactivity timer;
- one pending save candidate.

It also keeps two stores:
- a durable store (`chrome.storage.local`): the verification hash, the salt, the `locked` flag, the credential list, and the RSA key pair, whose private half is encrypted under the vault key;
- a session store (`chrome.storage.session`), which carries both keys across a restart of the service worker.

The controller answers twelve request types, counting the fallback for unknown ones.

The model is organised as follows.
- `Background.Vault` is a class. Its fields are exactly that state, and it has one method per request type. Each handler that can change state states its answer and its whole new state, through the snapshot `State()`, as a twostate predicate named after it (`UnlockVaultDone`, `ConfirmSaveDone`, …). `CheckPendingSave` changes nothing, and its contract says so directly. The dispatcher `HandleMessage` forwards these, request by request. Lock-related methods also say whether they preserve `LockInvariant`: a key in memory always has an armed timer, and a vault marked locked holds no vault key.
- `Credentials` holds the three list operations as functions, with lemmas:
  - the upsert of `CONFIRM_SAVE`;
  - the site filter of `GET_CREDENTIALS`;
  - the re-encryption of `CHANGE_MASTER_PASSWORD`.
  The rotation is also the imperative loop `ReencryptAll`, proved equal to the function `Rotated`.
- `Utils` holds the envelope format. That covers `encrypt`, `decrypt`, `encryptAsym` and `decryptAsym`, with their failure contracts, plus `hashPassword`. `hashPassword` fills an array in place, as the source's `Uint8Array.set` does.
- `Base64` is `btoa`, and `atob` as the forgiving-base64 decode of the WHATWG Infra standard, which the HTML standard's `atob` calls. This gives the lemma `Atob(Btoa(b)) == Some(b)`. `Text` models `split`, `toLowerCase`, `includes` and `Number.prototype.toString`.
- `Primitives` treats the Web Crypto algorithms and the text and JSON codecs as a `Suite` of uninterpreted functions:
  - PBKDF2 (section 5.2 of RFC 8018), with SHA-256 and 100000 iterations;
  - SHA-256;
  - AES-GCM;
  - RSA-OAEP (section 7.1 of RFC 8017), with a 2048-bit modulus and exponent 65537;
  - UTF-8;
  - JSON of a JWK.

  `OaepMaxMessage` (190 bytes, from section 7.1.1 of RFC 8017) is the longest message RSA-OAEP accepts; `EncryptAsym` fails on a longer one, as `crypto.subtle.encrypt` does. `Lawful(suite)` lists the laws that results depend on: each round trip holds, and a wrong key is rejected. `StandInIsLawful` exhibits a suite that obeys all the laws, so the laws are consistent.
- `Scenarios` contains request sequences from a fresh install, with what each one is proved to observe. One of them sends its requests through the dispatcher `HandleMessage`.

Randomness and the clock are inputs. The salt, the IVs, the generated key pair, the OAEP seed and `Date.now()` are parameters, gathered in `Background.Entropy` for the dispatcher. The timer is the flag `timerArmed`, and `FireTimer` is the moment it runs `lockVault`.

## Model

| member | source | states |
|---|---|---|
| Base64.Btoa | utils.js:71-72 | output length is 4·⌈n/3⌉; every character is a base64 digit or `=`. In particular `:` never appears, so it can separate the envelope parts |
| Base64.DecodeSextets | utils.js:79-80 | six bits per digit, whole bytes only: the leftover bits of a short final group are dropped |
| Base64.Atob | utils.js:79-80 | after whitespace and padding are removed, `atob` throws exactly when one character in four would be left over or a character is not a base64 digit; otherwise it yields six bits per digit, whole bytes only |
| Base64.AtobBtoa | utils.js:79-80 | `atob` undoes `btoa`: stored salts and envelope parts read back to the same bytes |
| Base64.DecodeEncodeSextets | utils.js:79-80 | decoding the digits of any byte string gives back that byte string |
| Base64.SextetsOf | utils.js:79 | a string has digit values exactly when every character is a base64 digit, and those values spell the string |
| Base64.SextetsOfInjective | utils.js:79 | the digits that spell a string are the only digits read back from it |
| Base64.AtobOfUndefined | background.js:156 | `atob(undefined)`, which reads the text "undefined", throws; so does a missing salt in `CHANGE_MASTER_PASSWORD` |
| Text.Split | utils.js:78 | `split` yields at least one piece, and no piece contains the separator |
| Text.JoinSplit | utils.js:78 | joining the pieces with the separator gives back the input |
| Text.SplitPair | utils.js:73-78 | `a ":" b` with no `:` in either part splits into exactly `[a, b]` |
| Text.SplitAfterPrefix | utils.js:78 | a first piece without the separator splits off intact |
| Text.SplitWithoutSeparator | utils.js:78 | a string without the separator is one piece |
| Text.Lower | background.js:198 | lower-casing keeps the length and maps every character on its own |
| Text.LowerIdempotent | background.js:270 | lower-casing twice is lower-casing once |
| Text.Includes | background.js:198 | the empty string is included in every string |
| Text.IncludesIff | background.js:198 | `includes` holds exactly when the substring occurs at some index |
| Text.DecimalString | background.js:260 | an id is a non-empty string of decimal digits |
| Text.DecimalStringValue | background.js:260 | an id reads back as the `Date.now()` value it was made from |
| Primitives.StandInTextRoundTrip | utils.js:63 | the stand-in text codec decodes what it encodes |
| Primitives.StandInIsLawful | utils.js:25-146 | some suite obeys every law the model assumes of the primitives |
| Utils.DeriveKey | utils.js:25-47 | no contract: the definition is PBKDF2 with SHA-256 and 100000 iterations over the password's UTF-8 bytes and the salt, giving a 256-bit key |
| Utils.PasswordHash | utils.js:50-59 | the verification hash is the 44-character base64 of a SHA-256 digest |
| Utils.CopyInto | utils.js:54-55 | `set(source, offset)` writes `source` at `offset` and leaves the rest of the array as it was |
| Utils.HashPassword | utils.js:50-59 | digests exactly the password's UTF-8 bytes followed by the salt bytes, laid out in one buffer of their combined length |
| Utils.Decrypt | utils.js:76-93 | a `{type, payload}` object yields `null`, because a non-string package cannot be split |
| Utils.Encrypt | utils.js:61-74 | splitting the package at `:` gives back exactly the base64 of the IV and the base64 of the ciphertext |
| Utils.Unpack | utils.js:78 | there are two pieces exactly when the package holds a `:`; both are free of `:`, and joined by `:` they begin the package |
| Utils.DecryptEncrypt | utils.js:61-93 | `decrypt` under the same key returns the text `encrypt` sealed |
| Utils.DecryptWrongKey | utils.js:82-91 | `decrypt` under any other key returns `null` |
| Utils.DecryptWithoutSeparator | utils.js:78-79 | a package without `:` returns `null`: its second part is missing |
| Utils.DecryptBadIv | utils.js:79 | a package whose IV part is not base64 returns `null` |
| Utils.DecryptAsym | utils.js:133-146 | malformed base64 returns `null` |
| Utils.EncryptAsym | utils.js:123-131 | `encryptAsym` throws exactly when the UTF-8 text is longer than RSA-OAEP allows; otherwise it returns base64 without `:` |
| Utils.DecryptAsymEncryptAsym | utils.js:123-146 | the private key of the pair opens whatever was sealed under its public key |
| Utils.DecryptAsymWrongKey | utils.js:136-144 | a private key of another pair returns `null` |
| Credentials.FindIndex | background.js:270 | `-1` exactly when no record holds the account (site ignoring case, username exactly); otherwise the first index that holds it |
| Credentials.FirstMatchIsFound | background.js:270 | the lookup reports the first index of the account whenever there is one |
| Credentials.NewEntry | background.js:259-265 | the new record holds the account, and its id reads back as the save time |
| Credentials.Upsert | background.js:267-275 | with a first matching index, only that record changes: it gets the new envelope and an `updated` time keeping id, site, username and `created`; otherwise exactly one record is appended |
| Credentials.UpsertKeepsAccountsUnique | background.js:269-275 | the upsert never creates a second record for an account |
| Credentials.UpsertThenFind | background.js:269-275 | after an upsert, looking up the account finds the record holding the new envelope |
| Credentials.UpsertTwiceKeepsLength | background.js:269-275 | saving the same account again does not grow the list |
| Credentials.MatchingCredentials | background.js:198 | matches are the records whose lower-cased site includes the lower-cased domain, and no others; never more than the whole list |
| Credentials.MatchingConcat | background.js:198 | filtering a concatenation filters each part, so stored order is kept |
| Credentials.MatchingHead | background.js:198-205 | the first match, the one decrypted for autofill, is the earliest matching record |
| Credentials.Payload | background.js:225 | a raw string is passed on as it is; a tagged object passes its `payload` |
| Credentials.RotateEntry | background.js:171-179 | only the `password` field can change, and only to a raw package |
| Credentials.RotateEntryReencrypts | background.js:171-174 | a record the old key reads as non-empty text reads as the same text under the new key |
| Credentials.RotateEntryKeepsUnreadable | background.js:175-179 | a record the old key cannot read, or reads as empty text, is kept verbatim |
| Credentials.RotationStrandsTaggedEntries | background.js:169-180 | an `'aes'` record from `CONFIRM_SAVE` is kept under the old key; its payload no longer opens under the new key |
| Credentials.Rotated | background.js:169-180 | same length as the input; each record is the rotation of the input record at the same index, with its own IV |
| Credentials.RotatedKeepsRecords | background.js:169-180 | rotation keeps length, order and every field except `password` |
| Credentials.RotatedReencrypts | background.js:169-180 | every record readable under the old key stays readable under the new key, with the same text |
| Credentials.RotatedStep | background.js:170-179 | one more pass of the loop extends the list by the rotation of the next record |
| Credentials.ReencryptAll | background.js:169-180 | the `for` loop that pushes onto `updatedPasswords` builds `Rotated` |
| Background.PrivateKeyLoad | background.js:110-131 | loading the private key changes only the private key, its session slot and the two stored key-pair fields; a stored encrypted key leaves the durable store as it was |
| Background.StoredSalt | background.js:154-156 | a missing salt is read as `atob(undefined)`, which throws; a stored one is decoded by `atob` |
| Background.Vault.constructor | background.js:5-23 | a fresh service worker starts with every in-memory variable `null` over the existing stores |
| Background.Vault.AvailableVaultKey | background.js:36-49 | a key is available exactly when one is cached or in the session slot; without a session store, only the cache |
| Background.Vault.AvailablePrivateKey | background.js:25-33 | the same for the private key |
| Background.Vault.SessionVaultKey | utils.js:13-16 | the session slot, or `null` when there is no session store |
| Background.Vault.SessionPrivateKey | utils.js:13-16 | the session slot, or `null` when there is no session store |
| Background.Vault.SessionSetVaultKey | utils.js:17-20 | writes the session slot, or nothing when there is no session store |
| Background.Vault.SessionSetPrivateKey | utils.js:17-20 | writes the session slot, or nothing when there is no session store |
| Background.Vault.ResetLockTimer | background.js:16-19 | the timer is armed and nothing else changes |
| Background.Vault.FireTimer | background.js:9-14 | auto-lock drops only the vault key (memory and session) and sets `locked`; the private key, the pending candidate and the credentials survive; preserves the lock invariant |
| Background.Vault.GetAsymPrivateKey | background.js:25-33 | returns the cached key, else the session one (now cached), else `null`; the timer is not touched |
| Background.Vault.GetVaultKey | background.js:36-49 | returns the cached key, else the session one (now cached), else `null`; a key found re-arms the timer |
| Background.Vault.CheckLockState | background.js:55-59 | `setup` is whether a non-empty hash is stored; `unlocked` is whether a vault key is available, which is then cached with the timer armed |
| Background.Vault.SetMasterPassword | background.js:61-92 | stores the hash, the base64 salt and the public key; stores the private key encrypted under the derived key; caches and session-stores both keys; clears `locked`; arms the timer; credentials untouched |
| Background.Vault.LoadPrivateKey | background.js:110-131 | matches `PrivateKeyLoad`: generates a pair when none is stored, restores the stored key, skips it, or throws on a key that does not parse |
| Background.Vault.UnlockVault | background.js:94-139 | `'Not setup'` without hash or salt; throws on a bad salt; `'Incorrect password'` with nothing written; otherwise writes the session key and `locked = false`, loads the private key, caches the derived key and arms the timer |
| Background.Vault.LockVault | background.js:141-149 | disarms the timer, drops both keys from memory and the session, sets `locked`; the pending candidate survives; establishes the lock invariant |
| Background.Vault.ChangeMasterPassword | background.js:151-191 | throws on a missing or bad salt; a wrong old password fails with nothing written; on success the list is `Rotated` and hash, salt and both copies of the vault key are replaced; key pair, `locked` and timer untouched |
| Background.Vault.GetCredentials | background.js:195-212 | `matches` is the ordered filter; `success` holds iff there is a match; only the first match is decrypted, and only when a vault key is available |
| Background.Vault.DecryptPassword | background.js:215-229 | an `'rsa'` envelope needs the private key, any other needs the vault key (a tagged object through its payload); `'Locked'` otherwise; `success` iff the plaintext is non-empty |
| Background.Vault.SaveCandidate | background.js:232-235 | the slot is replaced whatever it held |
| Background.Vault.CheckPendingSave | background.js:238-240 | returns the slot; nothing changes |
| Background.Vault.ClearCandidate | background.js:283-286 | the slot is emptied |
| Background.Vault.ConfirmSave | background.js:243-280 | `'aes'` with a vault key, else `'rsa'` under the stored public key, upserted; with neither, `'Vault not initialized'` and nothing changes; a password too long for RSA-OAEP throws with nothing written; only a save empties the slot |
| Background.Vault.HandleLockRequest | background.js:55-191 | each of the five lock-state requests is answered exactly as its handler's contract states (`CheckLockStateDone`, `SetMasterPasswordDone`, `UnlockVaultDone`, `LockVaultDone`, `ChangeMasterPasswordDone`), with the salt, IVs and key pair drawn from `Entropy` |
| Background.Vault.HandleCredentialRequest | background.js:195-286 | each of the six credential requests is answered exactly as its handler's contract states (`GetCredentialsDone`, `DecryptPasswordDone`, `SaveCandidateDone`, `ConfirmSaveDone`, `ClearCandidateDone`, and the pending slot for `CHECK_PENDING_SAVE`), with the IV, seed and clock drawn from `Entropy` |
| Background.Vault.HandleMessage | background.js:53-289 | an unknown type returns `{error}` and changes nothing; every known request is routed to its handler and answered as that handler's contract states; every request except `CHANGE_MASTER_PASSWORD` keeps the lock invariant |
| Scenarios.SetUp | background.js:61-92 | the state of a fresh install right after setup |
| Scenarios.StoredSecretsReadBack | background.js:61-131 | the stored salt reads back, and the stored private key opens under the vault key |
| Scenarios.LockUnlockCycle | background.js:55-149 | after setup and a lock, the lock state reads locked; after unlocking with the same password it reads unlocked; the restored private key is the one generated at setup |
| Scenarios.WrongPasswordRefused | background.js:94-139 | a wrong password is refused and the vault stays locked |
| Scenarios.RestartKeepsSessionKey | background.js:36-49 | after a service-worker restart the vault is unlocked exactly when a session store exists |
| Scenarios.SaveTwiceKeepsOneRecord | background.js:243-280 | saving one account twice (site in another case the second time) leaves one record, which opens to the second password |
| Scenarios.BlindSaveAfterAutoLock | background.js:9-14 | after auto-lock a blind save is sealed with RSA, and it opens while the vault reads locked |
| Scenarios.BlindSaveAfterLock | background.js:243-257 | after an explicit lock a blind save is sealed with RSA and reads `'Locked'` |
| Scenarios.LockThenSaveBlind | background.js:243-257 | the whole state after setup, a lock and a confirmed save: no key in memory or session, no timer, an empty slot, and one `'rsa'` record sealed under the stored public key |
| Scenarios.BlindSavedOpensAfterUnlock | background.js:110-131 | the next unlock restores the private key, and the `'rsa'` record that `CONFIRM_SAVE` stored while locked opens to the saved password |
| Scenarios.BlindSaveTooLong | background.js:243-257 | through the dispatcher, a locked save of a password too long for RSA-OAEP sends no reply, stores nothing and leaves the candidate pending |
| Scenarios.RotationKeepsRawRecord | background.js:169-180 | a raw-package record opens to the same text after a change of master password |
| Scenarios.RotationRefusesOldPassword | background.js:151-191 | after a change, the old password is refused |
| Scenarios.RotationStrandsSavedRecord | background.js:169-180 | after a change, an `'aes'` record saved earlier no longer opens |
| Scenarios.RotationStrandsPrivateKey | background.js:151-191 | after a change, a lock and an unlock with the new password, no private key is restored |
| Scenarios.RotationWhileLocked | background.js:151-191 | a change of master password after a lock succeeds; it leaves a vault marked locked that holds an unguarded key, breaking the lock invariant |

## Left out

- popup.js and content.js are not part of this model. They are DOM views, form heuristics and a `Math.random` password generator. They matter here only as the senders of the requests.
- Real cryptography is not modelled: PBKDF2, SHA-256, AES-GCM, RSA-OAEP and JWK import/export. These are the uninterpreted `Suite`, constrained only by the laws in `Lawful`. Exporting a key to a JWK and importing it back is the identity. `JSON.parse` combined with `importKey` of the private key is `parseJwk`.
- `deriveKey` is a function of the password and the salt, because PBKDF2 is one. Its parameters are the constant `Pbkdf2Iterations` and the `Key` type (256 bits).
- The asynchronous message channel and the timer are simplified:
  - every handler runs atomically, so a timer firing in the middle of a handler is not modelled;
  - elapsed time is not modelled, only the "armed" flag and the firing event;
  - the 30-second delay appears only in the doc comment of `timerArmed`.
- `Background.Vault.ConfirmSave` reads the clock once. The source calls `Date.now()` separately for `id` and for `created`, and again for `updated` when it overwrites a record. The model also does not say whether ids are unique, because the code does not guarantee it.
- Requests are typed values. A request with missing or ill-typed fields is not modelled. Examples are a `DECRYPT_PASSWORD` whose `encryptedData` is `null` or a number, a tagged object without `payload`, and `UnknownMsg` carrying one of the known type names.
- `Primitives.Lawful`: strings are sequences of Unicode scalar values, so a JavaScript string holding a lone UTF-16 surrogate is outside the model. For such text `TextEncoder` writes U+FFFD, and the source's round trip through `encrypt` and `decrypt` returns U+FFFD in its place. The round-trip lemmas (`Utils.DecryptEncrypt`, `Credentials.RotatedReencrypts` and the scenarios built on them) hold for every string the model can express.
- `Text.Lower`: only ASCII letters are lower-cased. JavaScript's `toLowerCase` is full Unicode.
- `Base64.Btoa` is applied to bytes. `String.fromCharCode(...bytes)` and its limit on argument count are not modelled.
- `Utils.Decrypt`: an IV of the wrong length is handed to `aesGcmDecrypt` like any other. Web Crypto's own rejection of such IVs is subsumed in that function returning `None`.
- `Background.Vault.ConfirmSave`: the `importKey` of the stored public key is taken to succeed, because only `SET_MASTER_PASSWORD` and `UNLOCK_VAULT` write that key, and both write a key exported from a generated pair.
- Storage failures and quota errors are not modelled. The logging `console.log` and `console.error` calls have no modelled effect.

## Observations

These are behaviours of the code worth knowing. The model follows the code, and the lemmas and scenarios named below show each one.

- `SET_MASTER_PASSWORD` does not check whether a vault already exists. It overwrites the hash, the salt and the key pair, and leaves the old credentials encrypted under the old key (`Background.Vault.SetMasterPassword`).
- `getAsymPrivateKey` does not re-arm the inactivity timer. Only `getVaultKey` does (`Background.Vault.GetAsymPrivateKey`).
- The two lock paths differ. Auto-lock keeps the private key both in memory and in the session, so a blind-saved password still opens while the vault reads locked (`Scenarios.BlindSaveAfterAutoLock`). An explicit lock drops it (`Scenarios.BlindSaveAfterLock`). Neither path clears the pending candidate.
- Rotation does not re-encrypt tagged `{type, payload}` records, and every record `CONFIRM_SAVE` writes is such an object. `decrypt` cannot split an object, so rotation keeps an `'aes'` record under the old key, and it no longer opens (`Credentials.RotationStrandsTaggedEntries`, `Scenarios.RotationStrandsSavedRecord`). Only raw-package records are carried over (`Scenarios.RotationKeepsRawRecord`).
- Rotation does not re-encrypt the stored private key either. After the next lock and an unlock with the new password, no private key is restored, and RSA records cannot be opened (`Scenarios.RotationStrandsPrivateKey`).
- `CHANGE_MASTER_PASSWORD` does not require an unlocked vault. It caches the new key without arming the timer and without clearing `locked`. Run after a lock, it leaves a vault marked locked that holds a key, with no timer armed until the next `getVaultKey` (`Scenarios.RotationWhileLocked`).
- `GET_CREDENTIALS` decrypts the first match with `decrypt`. For every record `CONFIRM_SAVE` wrote, that returns `null` (`Utils.Decrypt`). Autofill of such records depends on a separate `DECRYPT_PASSWORD`.
