/**
 * Request sequences from a fresh install, as the popup and the content
 * script send them, with what each one is proved to observe.
 */
module Scenarios {
  import opened Wrappers
  import opened Binary
  import opened Base64
  import opened Text
  import opened Primitives
  import opened Utils
  import opened Credentials
  import opened Background

  /** A fresh install that has just handled `SET_MASTER_PASSWORD`. */
  method SetUp(suite: Suite, sessionAvailable: bool, password: string, salt: Salt, iv: Iv, keyPair: RsaPrivateKey)
    returns (v: Vault)
    ensures fresh(v) && v.suite == suite && v.sessionAvailable == sessionAvailable
    ensures var key := DeriveKey(suite, password, salt);
      v.State() == VaultState(
        Some(key), Some(keyPair), true, None,
        LocalStore(
          Some(PasswordHash(suite, password, salt)), Some(Btoa(salt)), Some(false), None,
          Some(keyPair.publicKey), Some(Encrypt(suite, suite.stringifyJwk(keyPair), key, iv))),
        if sessionAvailable then SessionStore(Some(key), Some(keyPair)) else EmptySession)
    ensures v.LockInvariant()
  {
    v := new Vault(suite, sessionAvailable, EmptyLocal, EmptySession);
    var _ := v.SetMasterPassword(password, salt, iv, keyPair);
  }

  /** The stored salt reads back, and the stored private key opens under the vault key. */
  lemma StoredSecretsReadBack(suite: Suite, password: string, salt: Salt, iv: Iv, keyPair: RsaPrivateKey)
    requires Lawful(suite)
    ensures StoredSalt(LocalStore(None, Some(Btoa(salt)), None, None, None, None)) == Some(salt)
    ensures var key := DeriveKey(suite, password, salt);
      Decrypt(suite, Raw(Encrypt(suite, suite.stringifyJwk(keyPair), key, iv)), key) == Some(suite.stringifyJwk(keyPair))
  {
    AtobBtoa(salt);
    DecryptEncrypt(suite, suite.stringifyJwk(keyPair), DeriveKey(suite, password, salt), iv);
  }

  /**
   * Set up, lock, unlock with the same password: the lock state reads locked
   * and then unlocked again, and the private key generated at setup is the
   * one restored (the pair offered for a migration is not used).
   */
  method LockUnlockCycle(suite: Suite, sessionAvailable: bool, password: string, salt: Salt, iv: Iv,
                         keyPair: RsaPrivateKey, otherIv: Iv, otherPair: RsaPrivateKey)
    returns (whileLocked: Response, unlock: Response, afterUnlock: Response, privateKey: Option<RsaPrivateKey>)
    requires Lawful(suite)
    ensures whileLocked == LockState(true, false)
    ensures unlock == Outcome(true, None)
    ensures afterUnlock == LockState(true, true)
    ensures privateKey == Some(keyPair)
  {
    var v := SetUp(suite, sessionAvailable, password, salt, iv, keyPair);
    var _ := v.LockVault();
    whileLocked := v.CheckLockState();
    StoredSecretsReadBack(suite, password, salt, iv, keyPair);
    unlock := v.UnlockVault(password, otherIv, otherPair);
    afterUnlock := v.CheckLockState();
    privateKey := v.asymPrivateKey;
  }

  /** A wrong password is refused and leaves the vault locked. */
  method WrongPasswordRefused(suite: Suite, sessionAvailable: bool, password: string, guess: string, salt: Salt,
                              iv: Iv, keyPair: RsaPrivateKey)
    returns (unlock: Response, afterUnlock: Response)
    requires Lawful(suite)
    requires PasswordHash(suite, guess, salt) != PasswordHash(suite, password, salt)
    ensures unlock == Outcome(false, Some(IncorrectPassword))
    ensures afterUnlock == LockState(true, false)
  {
    var v := SetUp(suite, sessionAvailable, password, salt, iv, keyPair);
    var _ := v.LockVault();
    StoredSecretsReadBack(suite, password, salt, iv, keyPair);
    unlock := v.UnlockVault(guess, iv, keyPair);
    afterUnlock := v.CheckLockState();
  }

  /**
   * A restarted service worker starts with an empty key cache: the vault is
   * still unlocked when the session store carried the key over, and locked
   * when there is no session store.
   */
  method RestartKeepsSessionKey(suite: Suite, sessionAvailable: bool, password: string, salt: Salt, iv: Iv,
                                keyPair: RsaPrivateKey)
    returns (afterRestart: Response)
    ensures afterRestart == LockState(true, sessionAvailable)
  {
    var v := SetUp(suite, sessionAvailable, password, salt, iv, keyPair);
    var w := new Vault(suite, sessionAvailable, v.local, v.session);
    afterRestart := w.CheckLockState();
  }

  /**
   * Saving the same account twice, the second time with the site in another
   * case, leaves one record, which opens to the second password.
   */
  method SaveTwiceKeepsOneRecord(suite: Suite, sessionAvailable: bool, password: string, salt: Salt, iv: Iv,
                                 keyPair: RsaPrivateKey, first: Candidate, second: Candidate,
                                 iv1: Iv, iv2: Iv, seed: Bytes, now1: nat, now2: nat)
    returns (stored: seq<Credential>, shown: Response)
    requires Lawful(suite)
    requires Lower(first.site) == Lower(second.site) && first.username == second.username
    requires second.password != ""
    ensures |stored| == 1
    ensures stored[0].site == first.site && stored[0].created == now1 && stored[0].updated == Some(now2)
    ensures shown == Plaintext(true, Some(second.password))
  {
    var v := SetUp(suite, sessionAvailable, password, salt, iv, keyPair);
    var _ := v.ConfirmSave(first, iv1, seed, now1);
    var _ := v.ConfirmSave(second, iv2, seed, now2);
    stored := v.local.passwords.value;
    assert IsFirstMatch(stored, second.site, second.username, 0);
    DecryptEncrypt(suite, second.password, DeriveKey(suite, password, salt), iv2);
    shown := v.DecryptPassword(stored[0].password);
  }

  /**
   * The auto-lock keeps the private key: a password saved blind after the
   * timer fired is sealed under the public key and still opens, while the
   * vault reads locked.
   */
  method BlindSaveAfterAutoLock(suite: Suite, password: string, salt: Salt, iv: Iv, keyPair: RsaPrivateKey,
                                candidate: Candidate, saveIv: Iv, seed: Bytes, now: nat)
    returns (lockState: Response, stored: seq<Credential>, shown: Response)
    requires Lawful(suite)
    requires candidate.password != "" && |suite.utf8Encode(candidate.password)| <= OaepMaxMessage
    ensures lockState == LockState(true, false)
    ensures |stored| == 1 && stored[0].password.Tagged? && stored[0].password.tag == "rsa"
    ensures shown == Plaintext(true, Some(candidate.password))
  {
    var v := SetUp(suite, true, password, salt, iv, keyPair);
    v.FireTimer();
    lockState := v.CheckLockState();
    var _ := v.ConfirmSave(candidate, saveIv, seed, now);
    stored := v.local.passwords.value;
    DecryptAsymEncryptAsym(suite, candidate.password, keyPair, seed);
    shown := v.DecryptPassword(stored[0].password);
  }

  /**
   * Set up with a session store, lock, then confirm a save: with no key in
   * memory or session the password is sealed under the stored public key,
   * kept as an `rsa` tagged record, the only one in the list.
   */
  method LockThenSaveBlind(suite: Suite, password: string, salt: Salt, iv: Iv, keyPair: RsaPrivateKey,
                           candidate: Candidate, saveIv: Iv, seed: Bytes, now: nat)
    returns (v: Vault)
    requires |suite.utf8Encode(candidate.password)| <= OaepMaxMessage
    ensures fresh(v) && v.suite == suite && v.sessionAvailable
    ensures var key := DeriveKey(suite, password, salt);
      var sealed := Tagged("rsa", EncryptAsym(suite, candidate.password, keyPair.publicKey, seed).value);
      v.State() == VaultState(
        None, None, false, None,
        LocalStore(
          Some(PasswordHash(suite, password, salt)), Some(Btoa(salt)), Some(true),
          Some([NewEntry(candidate.site, candidate.username, sealed, now)]),
          Some(keyPair.publicKey), Some(Encrypt(suite, suite.stringifyJwk(keyPair), key, iv))),
        EmptySession)
  {
    v := SetUp(suite, true, password, salt, iv, keyPair);
    var _ := v.LockVault();
    ghost var sealed := Tagged("rsa", EncryptAsym(suite, candidate.password, keyPair.publicKey, seed).value);
    assert NoMatch([], candidate.site, candidate.username);
    assert Upsert([], candidate.site, candidate.username, sealed, now) == [NewEntry(candidate.site, candidate.username, sealed, now)];
    var _ := v.ConfirmSave(candidate, saveIv, seed, now);
  }

  /** After an explicit lock the private key is gone too: a blind-saved password reads `'Locked'`. */
  method BlindSaveAfterLock(suite: Suite, password: string, salt: Salt, iv: Iv, keyPair: RsaPrivateKey,
                            candidate: Candidate, saveIv: Iv, seed: Bytes, now: nat)
    returns (stored: seq<Credential>, whileLocked: Response)
    requires |suite.utf8Encode(candidate.password)| <= OaepMaxMessage
    ensures |stored| == 1
    ensures stored[0].password == Tagged("rsa", EncryptAsym(suite, candidate.password, keyPair.publicKey, seed).value)
    ensures whileLocked == Outcome(false, Some(Locked))
  {
    var v := LockThenSaveBlind(suite, password, salt, iv, keyPair, candidate, saveIv, seed, now);
    stored := v.local.passwords.value;
    whileLocked := v.DecryptPassword(stored[0].password);
  }

  /**
   * The next unlock restores the private key, and the record `CONFIRM_SAVE`
   * stored blind while the vault was locked opens to the saved password.
   */
  method BlindSavedOpensAfterUnlock(suite: Suite, password: string, salt: Salt, iv: Iv, keyPair: RsaPrivateKey,
                                    candidate: Candidate, saveIv: Iv, seed: Bytes, now: nat,
                                    otherIv: Iv, otherPair: RsaPrivateKey)
    returns (stored: seq<Credential>, unlock: Response, afterUnlock: Response)
    requires Lawful(suite)
    requires candidate.password != "" && |suite.utf8Encode(candidate.password)| <= OaepMaxMessage
    ensures |stored| == 1
    ensures stored[0].password == Tagged("rsa", EncryptAsym(suite, candidate.password, keyPair.publicKey, seed).value)
    ensures unlock == Outcome(true, None)
    ensures afterUnlock == Plaintext(true, Some(candidate.password))
  {
    var v := LockThenSaveBlind(suite, password, salt, iv, keyPair, candidate, saveIv, seed, now);
    stored := v.local.passwords.value;
    StoredSecretsReadBack(suite, password, salt, iv, keyPair);
    unlock := v.UnlockVault(password, otherIv, otherPair);
    assert v.asymPrivateKey == Some(keyPair);
    DecryptAsymEncryptAsym(suite, candidate.password, keyPair, seed);
    afterUnlock := v.DecryptPassword(stored[0].password);
  }

  /**
   * A blind save of a password too long for RSA-OAEP, requested through the
   * dispatcher: `encryptAsym` throws, no response is sent, nothing is stored,
   * and the candidate stays pending.
   */
  method BlindSaveTooLong(suite: Suite, password: string, salt: Salt, iv: Iv, keyPair: RsaPrivateKey,
                          candidate: Candidate, entropy: Entropy)
    returns (save: Response, pending: Response, stored: Option<seq<Credential>>)
    requires |suite.utf8Encode(candidate.password)| > OaepMaxMessage
    ensures save == NoReply
    ensures pending == Pending(Some(candidate))
    ensures stored == None
  {
    var v := SetUp(suite, true, password, salt, iv, keyPair);
    var _ := v.HandleMessage(LockVaultMsg, entropy);
    var _ := v.HandleMessage(SaveCandidateMsg(candidate), entropy);
    save := v.HandleMessage(ConfirmSaveMsg(candidate), entropy);
    pending := v.HandleMessage(CheckPendingSaveMsg, entropy);
    stored := v.local.passwords;
  }

  /**
   * A record held as a raw package (as `encrypt` returns it) survives a
   * change of master password: it opens, under the new key, to the same text.
   */
  method RotationKeepsRawRecord(suite: Suite, password: string, newPassword: string, salt: Salt, newSalt: Salt,
                                iv: Iv, keyPair: RsaPrivateKey, record: Credential, text: string, recordIv: Iv,
                                ivs: nat -> Iv)
    returns (change: Response, shown: Response)
    requires Lawful(suite)
    requires text != ""
    requires record.password == Raw(Encrypt(suite, text, DeriveKey(suite, password, salt), recordIv))
    ensures change == Outcome(true, None)
    ensures shown == Plaintext(true, Some(text))
  {
    var u := SetUp(suite, true, password, salt, iv, keyPair);
    var v := new Vault(suite, true, u.local.(passwords := Some([record])), u.session);
    var oldKey := DeriveKey(suite, password, salt);
    var newKey := DeriveKey(suite, newPassword, newSalt);
    AtobBtoa(salt);
    DecryptEncrypt(suite, text, oldKey, recordIv);
    change := v.ChangeMasterPassword(password, newPassword, newSalt, ivs);
    RotatedReencrypts(suite, [record], oldKey, newKey, ivs, 0, text);
    shown := v.DecryptPassword(v.local.passwords.value[0].password);
  }

  /** After a change of master password the old password is refused. */
  method RotationRefusesOldPassword(suite: Suite, password: string, newPassword: string, salt: Salt, newSalt: Salt,
                                    iv: Iv, keyPair: RsaPrivateKey, ivs: nat -> Iv)
    returns (change: Response, oldUnlock: Response)
    requires PasswordHash(suite, password, newSalt) != PasswordHash(suite, newPassword, newSalt)
    ensures change == Outcome(true, None)
    ensures oldUnlock == Outcome(false, Some(IncorrectPassword))
  {
    var v := SetUp(suite, true, password, salt, iv, keyPair);
    AtobBtoa(salt);
    change := v.ChangeMasterPassword(password, newPassword, newSalt, ivs);
    AtobBtoa(newSalt);
    oldUnlock := v.UnlockVault(password, iv, keyPair);
  }

  /**
   * Changing the master password strands what `CONFIRM_SAVE` wrote: the saved
   * `'aes'` record is a tagged object, which rotation keeps under the old key,
   * so it no longer opens.
   */
  method RotationStrandsSavedRecord(suite: Suite, password: string, newPassword: string, salt: Salt, newSalt: Salt,
                                    iv: Iv, keyPair: RsaPrivateKey, candidate: Candidate, saveIv: Iv, seed: Bytes,
                                    now: nat, ivs: nat -> Iv)
    returns (change: Response, shown: Response)
    requires Lawful(suite)
    requires DeriveKey(suite, password, salt) != DeriveKey(suite, newPassword, newSalt)
    ensures change == Outcome(true, None)
    ensures shown == Plaintext(false, None)
  {
    var v := SetUp(suite, true, password, salt, iv, keyPair);
    var oldKey := DeriveKey(suite, password, salt);
    var newKey := DeriveKey(suite, newPassword, newSalt);
    var _ := v.ConfirmSave(candidate, saveIv, seed, now);
    var entry := v.local.passwords.value[0];
    AtobBtoa(salt);
    change := v.ChangeMasterPassword(password, newPassword, newSalt, ivs);
    RotationStrandsTaggedEntries(suite, entry, oldKey, newKey, ivs(0), candidate.password, saveIv);
    assert v.local.passwords.value[0] == entry;
    shown := v.DecryptPassword(entry.password);
  }

  /**
   * Rotation also leaves the stored private key under the old key: after a
   * lock and an unlock with the new password no private key is restored.
   */
  method RotationStrandsPrivateKey(suite: Suite, password: string, newPassword: string, salt: Salt, newSalt: Salt,
                                   iv: Iv, keyPair: RsaPrivateKey, ivs: nat -> Iv, otherIv: Iv, otherPair: RsaPrivateKey)
    returns (change: Response, unlock: Response, privateKey: Option<RsaPrivateKey>)
    requires Lawful(suite)
    requires DeriveKey(suite, password, salt) != DeriveKey(suite, newPassword, newSalt)
    ensures change == Outcome(true, None)
    ensures unlock == Outcome(true, None)
    ensures privateKey == None
  {
    var v := SetUp(suite, true, password, salt, iv, keyPair);
    var oldKey := DeriveKey(suite, password, salt);
    var newKey := DeriveKey(suite, newPassword, newSalt);
    AtobBtoa(salt);
    change := v.ChangeMasterPassword(password, newPassword, newSalt, ivs);
    var _ := v.LockVault();
    AtobBtoa(newSalt);
    DecryptWrongKey(suite, suite.stringifyJwk(keyPair), oldKey, newKey, iv);
    unlock := v.UnlockVault(newPassword, otherIv, otherPair);
    privateKey := v.asymPrivateKey;
  }

  /**
   * `CHANGE_MASTER_PASSWORD` needs no unlocked vault and does not arm the
   * timer: run after a lock, it leaves a vault marked locked with a key in
   * memory and no timer armed until the next `getVaultKey`.
   */
  method RotationWhileLocked(suite: Suite, password: string, newPassword: string, salt: Salt, newSalt: Salt,
                             iv: Iv, keyPair: RsaPrivateKey, ivs: nat -> Iv)
    returns (change: Response, lockState: Response, invariantHolds: bool)
    requires Lawful(suite)
    ensures change == Outcome(true, None)
    ensures lockState == LockState(true, true)
    ensures !invariantHolds
  {
    var v := SetUp(suite, true, password, salt, iv, keyPair);
    var _ := v.LockVault();
    StoredSecretsReadBack(suite, password, salt, iv, keyPair);
    change := v.ChangeMasterPassword(password, newPassword, newSalt, ivs);
    invariantHolds := v.LockInvariant();
    lockState := v.CheckLockState();
  }
}
