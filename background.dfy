/**
 * The vault controller of the background script: the in-memory key cache,
 * the auto-lock timer, the pending-save slot, the durable and session stores,
 * and one method per request type of the message dispatcher.
 *
 * Every handler runs to completion before the next one starts.  Handlers
 * that end in an exception return `NoReply` (the response callback is never
 * called) and keep the store writes made before the exception.
 */
module Background {
  import opened Wrappers
  import opened Binary
  import opened Base64
  import opened Primitives
  import opened Utils
  import opened Credentials

  /** The 16 random bytes of a master-password salt. */
  type Salt = b: Bytes | |b| == 16 witness seq(16, _ => 0)

  /** `chrome.storage.local`, one field per key the controller uses; `None` is an absent key. */
  datatype LocalStore = LocalStore(
    masterPasswordHash: Option<string>,
    masterPasswordSalt: Option<string>,
    locked: Option<bool>,
    passwords: Option<seq<Credential>>,
    asymPublicKeyJwk: Option<RsaPublicKey>,
    asymPrivateKeyEncrypted: Option<string>)

  /** `chrome.storage.session`; a slot written with `null` reads back as `None`. */
  datatype SessionStore = SessionStore(vaultKeyJwk: Option<Key>, asymPrivateKeyJwk: Option<RsaPrivateKey>)

  const EmptyLocal := LocalStore(None, None, None, None, None, None)
  const EmptySession := SessionStore(None, None)

  /** JavaScript truthiness of a string that may be absent: present and not empty. */
  predicate Truthy(o: Option<string>)
  {
    o.Some? && o.value != ""
  }

  const NotSetup := "Not setup"
  const IncorrectPassword := "Incorrect password"
  const IncorrectOldPassword := "Incorrect old password"
  const Locked := "Locked"
  const VaultNotInitialized := "Vault not initialized"

  /** The `username` / `password` fields `GET_CREDENTIALS` adds for the first match. */
  datatype Autofill = Autofill(username: string, password: Option<string>)

  /** What a handler passes to `sendResponse`. */
  datatype Response =
    | LockState(setup: bool, unlocked: bool)            // { setup, unlocked }
    | Outcome(success: bool, error: Option<string>)     // { success } or { success: false, error }
    | Matches(success: bool, matches: seq<Credential>, autofill: Option<Autofill>)
    | Plaintext(success: bool, password: Option<string>)
    | Pending(candidate: Option<Candidate>)             // the slot itself, `null` when empty
    | UnknownType                                       // { error: 'Unknown request type' }
    | NoReply                                           // the handler threw

  /** The request types, with the fields each handler reads. */
  datatype Request =
    | CheckLockStateMsg
    | SetMasterPasswordMsg(password: string)
    | UnlockVaultMsg(password: string)
    | LockVaultMsg
    | ChangeMasterPasswordMsg(oldPassword: string, newPassword: string)
    | GetCredentialsMsg(domain: string)
    | DecryptPasswordMsg(encryptedData: Envelope)
    | SaveCandidateMsg(payload: Candidate)
    | CheckPendingSaveMsg
    | ConfirmSaveMsg(payload: Candidate)
    | ClearCandidateMsg
    | UnknownMsg(requestType: string)
  {
    /** The requests that set up, unlock, lock or re-key the vault. */
    predicate IsLockRequest()
    {
      CheckLockStateMsg? || SetMasterPasswordMsg? || UnlockVaultMsg? || LockVaultMsg? || ChangeMasterPasswordMsg?
    }
  }

  /**
   * What one handler draws from `crypto.getRandomValues`, key generation and
   * `Date.now()`: a salt, an IV for a single `encrypt`, a generated RSA key
   * pair (the private key carries its public half), an OAEP seed, the IVs of
   * the rotation loop and the clock.
   */
  datatype Entropy = Entropy(salt: Salt, iv: Iv, keyPair: RsaPrivateKey, seed: Bytes, ivs: nat -> Iv, now: nat)

  /** All mutable state of the controller at one instant. */
  datatype VaultState = VaultState(
    vaultKey: Option<Key>,
    asymPrivateKey: Option<RsaPrivateKey>,
    timerArmed: bool,
    pendingSaveCandidate: Option<Candidate>,
    local: LocalStore,
    session: SessionStore)

  /** The salt bytes `atob(saltStr)` reads back; `atob(undefined)` throws, as `None`. */
  function StoredSalt(l: LocalStore): (r: Option<Bytes>)
    ensures l.masterPasswordSalt.None? ==> r.None?
    ensures l.masterPasswordSalt.Some? ==> r == Atob(l.masterPasswordSalt.value)
  {
    AtobOfUndefined();
    Atob(l.masterPasswordSalt.GetOr("undefined"))
  }

  /** `sessionSet`: the new session store, unchanged when the session store is absent. */
  function SessionWrite(sessionAvailable: bool, session: SessionStore, updated: SessionStore): SessionStore
  {
    if sessionAvailable then updated else session
  }

  /**
   * The state after the private-key half of a successful unlock, from state
   * `st` with vault key `key`; `None` where `JSON.parse` or `importKey` throws.
   * Without a stored encrypted private key, `keyPair` is generated and stored;
   * a stored one that does not decrypt to a non-empty text is skipped.
   */
  function PrivateKeyLoad(s: Suite, sessionAvailable: bool, st: VaultState, key: Key, iv: Iv, keyPair: RsaPrivateKey)
    : (r: Option<VaultState>)
    ensures r.Some? ==> r.value.(asymPrivateKey := st.asymPrivateKey, session := st.session,
      local := r.value.local.(asymPublicKeyJwk := st.local.asymPublicKeyJwk,
                              asymPrivateKeyEncrypted := st.local.asymPrivateKeyEncrypted)) == st
    ensures Truthy(st.local.asymPrivateKeyEncrypted) && r.Some? ==> r.value.local == st.local
  {
    var enc := st.local.asymPrivateKeyEncrypted;
    if !Truthy(enc) then
      Some(st.(
        asymPrivateKey := Some(keyPair),
        local := st.local.(
          asymPublicKeyJwk := Some(keyPair.publicKey),
          asymPrivateKeyEncrypted := Some(Encrypt(s, s.stringifyJwk(keyPair), key, iv))),
        session := SessionWrite(sessionAvailable, st.session, st.session.(asymPrivateKeyJwk := Some(keyPair)))))
    else
      var privJwkStr := Decrypt(s, Raw(enc.value), key);
      if !Truthy(privJwkStr) then Some(st)
      else match s.parseJwk(privJwkStr.value)
        case None => None
        case Some(privKey) =>
          Some(st.(
            asymPrivateKey := Some(privKey),
            session := SessionWrite(sessionAvailable, st.session, st.session.(asymPrivateKeyJwk := Some(privKey)))))
  }

  class Vault {
    /** The Web Crypto primitives and text codecs the controller calls. */
    const suite: Suite
    /** Whether `chrome.storage.session` exists in this browser. */
    const sessionAvailable: bool

    var vaultKey: Option<Key>
    var asymPrivateKey: Option<RsaPrivateKey>
    /** `lockTimer` holds a pending `setTimeout(lockVault, 30000)`: the vault locks after 30 seconds idle. */
    var timerArmed: bool
    var pendingSaveCandidate: Option<Candidate>
    var local: LocalStore
    var session: SessionStore

    /** A fresh service worker over existing stores: every in-memory variable starts `null`. */
    constructor(suite: Suite, sessionAvailable: bool, local: LocalStore, session: SessionStore)
      ensures this.suite == suite && this.sessionAvailable == sessionAvailable
      ensures State() == VaultState(None, None, false, None, local, if sessionAvailable then session else EmptySession)
    {
      this.suite := suite;
      this.sessionAvailable := sessionAvailable;
      vaultKey := None;
      asymPrivateKey := None;
      timerArmed := false;
      pendingSaveCandidate := None;
      this.local := local;
      this.session := if sessionAvailable then session else EmptySession;
    }

    function State(): VaultState
      reads this
    {
      VaultState(vaultKey, asymPrivateKey, timerArmed, pendingSaveCandidate, local, session)
    }

    /** `sessionGet('vaultKeyJwk')`: `null` when the session store is absent. */
    function SessionVaultKey(): (k: Option<Key>)
      reads this
      ensures !sessionAvailable ==> k.None?
      ensures sessionAvailable ==> k == session.vaultKeyJwk
    {
      if sessionAvailable then session.vaultKeyJwk else None
    }

    /** `sessionGet('asymPrivateKeyJwk')`: `null` when the session store is absent. */
    function SessionPrivateKey(): (k: Option<RsaPrivateKey>)
      reads this
      ensures !sessionAvailable ==> k.None?
      ensures sessionAvailable ==> k == session.asymPrivateKeyJwk
    {
      if sessionAvailable then session.asymPrivateKeyJwk else None
    }

    /** What `getVaultKey` returns: the cached key, else the one in the session slot. */
    function AvailableVaultKey(): (k: Option<Key>)
      reads this
      ensures !sessionAvailable ==> k == vaultKey
      ensures k.Some? <==> vaultKey.Some? || SessionVaultKey().Some?
    {
      if vaultKey.Some? then vaultKey else SessionVaultKey()
    }

    /** What `getAsymPrivateKey` returns: the cached key, else the one in the session slot. */
    function AvailablePrivateKey(): (k: Option<RsaPrivateKey>)
      reads this
      ensures !sessionAvailable ==> k == asymPrivateKey
      ensures k.Some? <==> asymPrivateKey.Some? || SessionPrivateKey().Some?
    {
      if asymPrivateKey.Some? then asymPrivateKey else SessionPrivateKey()
    }

    /**
     * A key is only held in memory while the timer that will drop it is armed,
     * and a vault marked locked holds no vault key in memory or in the session.
     */
    predicate LockInvariant()
      reads this
    {
      && (vaultKey.Some? ==> timerArmed)
      && (local.locked == Some(true) ==> vaultKey.None? && SessionVaultKey().None?)
    }

    // -------------------------------------------------------------------
    // Store and timer helpers

    /** `Utils.storage.sessionSet('vaultKeyJwk', jwk)`: writes nothing when the session store is absent. */
    method SessionSetVaultKey(jwk: Option<Key>)
      modifies this
      ensures State() == old(State()).(session := if sessionAvailable then old(session).(vaultKeyJwk := jwk) else old(session))
    {
      if sessionAvailable {
        session := session.(vaultKeyJwk := jwk);
      }
    }

    /** `Utils.storage.sessionSet('asymPrivateKeyJwk', jwk)`: writes nothing when the session store is absent. */
    method SessionSetPrivateKey(jwk: Option<RsaPrivateKey>)
      modifies this
      ensures State() == old(State()).(session := if sessionAvailable then old(session).(asymPrivateKeyJwk := jwk) else old(session))
    {
      if sessionAvailable {
        session := session.(asymPrivateKeyJwk := jwk);
      }
    }

    /** `resetLockTimer`: any pending timer is replaced by a fresh one. */
    method ResetLockTimer()
      modifies this
      ensures State() == old(State()).(timerArmed := true)
    {
      timerArmed := true;
    }

    /** `lockVault`, run when the armed timer fires: only the vault key is dropped. */
    method FireTimer()
      requires timerArmed
      modifies this
      ensures State() == old(State()).(
        vaultKey := None,
        timerArmed := false,
        local := old(local).(locked := Some(true)),
        session := if sessionAvailable then old(session).(vaultKeyJwk := None) else old(session))
      ensures old(LockInvariant()) ==> LockInvariant()
    {
      timerArmed := false;
      vaultKey := None;
      SessionSetVaultKey(None);
      local := local.(locked := Some(true));
    }

    /** `getAsymPrivateKey`: the cache, else a restore from the session slot; the timer is not touched. */
    method GetAsymPrivateKey() returns (key: Option<RsaPrivateKey>)
      modifies this
      ensures key == old(AvailablePrivateKey())
      ensures State() == old(State()).(asymPrivateKey := key)
    {
      if asymPrivateKey.Some? {
        return asymPrivateKey;
      }
      var jwk := SessionPrivateKey();
      if jwk.Some? {
        asymPrivateKey := jwk;
        return asymPrivateKey;
      }
      return None;
    }

    /** `getVaultKey`: the cache, else a restore from the session slot, else `null`; a key found re-arms the timer. */
    method GetVaultKey() returns (key: Option<Key>)
      modifies this
      ensures key == old(AvailableVaultKey())
      ensures State() == old(State()).(vaultKey := key, timerArmed := old(timerArmed) || key.Some?)
      ensures old(LockInvariant()) ==> LockInvariant()
    {
      if vaultKey.Some? {
        ResetLockTimer();
        return vaultKey;
      }
      var jwk := SessionVaultKey();
      if jwk.Some? {
        vaultKey := jwk;
        ResetLockTimer();
        return vaultKey;
      }
      return None;
    }

    // -------------------------------------------------------------------
    // Lock state and authentication

    /** The answer and the new state of `CheckLockState`. */
    twostate predicate CheckLockStateDone(r: Response)
      reads this
    {
      && r == LockState(Truthy(old(local.masterPasswordHash)), old(AvailableVaultKey()).Some?)
      && (State() == old(State()).(
          vaultKey := old(AvailableVaultKey()),
          timerArmed := old(timerArmed) || old(AvailableVaultKey()).Some?))
    }

    /** `CHECK_LOCK_STATE`: whether a master hash is stored and whether a vault key is available. */
    method CheckLockState() returns (r: Response)
      modifies this
      ensures CheckLockStateDone(r)
      ensures old(LockInvariant()) ==> LockInvariant()
    {
      var setup := local.masterPasswordHash;
      var key := GetVaultKey();
      r := LockState(Truthy(setup), key.Some?);
    }

    /** The answer and the new state of `SetMasterPassword`. */
    twostate predicate SetMasterPasswordDone(password: string, salt: Salt, iv: Iv, keyPair: RsaPrivateKey, r: Response)
      reads this
    {
      && r == Outcome(true, None)
      && (var key := DeriveKey(suite, password, salt);
          State() == old(State()).(
            vaultKey := Some(key),
            asymPrivateKey := Some(keyPair),
            timerArmed := true,
            local := old(local).(
              masterPasswordHash := Some(PasswordHash(suite, password, salt)),
              masterPasswordSalt := Some(Btoa(salt)),
              locked := Some(false),
              asymPublicKeyJwk := Some(keyPair.publicKey),
              asymPrivateKeyEncrypted := Some(Encrypt(suite, suite.stringifyJwk(keyPair), key, iv))),
            session := if sessionAvailable then SessionStore(Some(key), Some(keyPair)) else old(session)))
    }

    /**
     * `SET_MASTER_PASSWORD`: stores the verification hash and the salt, keeps
     * the derived key in memory and in the session, generates the key pair for
     * blind saving and stores its private half encrypted under the vault key.
     * An existing vault is overwritten without a check; its credentials stay.
     */
    method SetMasterPassword(password: string, salt: Salt, iv: Iv, keyPair: RsaPrivateKey) returns (r: Response)
      modifies this
      ensures SetMasterPasswordDone(password, salt, iv, keyPair, r)
      ensures old(LockInvariant()) ==> LockInvariant()
    {
      var saltStr := Btoa(salt);
      var hash := HashPassword(suite, password, salt);
      var key := DeriveKey(suite, password, salt);
      local := local.(masterPasswordHash := Some(hash));
      local := local.(masterPasswordSalt := Some(saltStr));
      SessionSetVaultKey(Some(key));
      local := local.(locked := Some(false));
      var privJwkStr := suite.stringifyJwk(keyPair);
      var encryptedPrivKey := Encrypt(suite, privJwkStr, key, iv);
      local := local.(asymPublicKeyJwk := Some(keyPair.publicKey));
      local := local.(asymPrivateKeyEncrypted := Some(encryptedPrivKey));
      SessionSetPrivateKey(Some(keyPair));
      asymPrivateKey := Some(keyPair);
      vaultKey := Some(key);
      ResetLockTimer();
      r := Outcome(true, None);
    }

    /**
     * The second half of a successful `UNLOCK_VAULT`: the stored private key is
     * decrypted under the vault key and restored, or, when none is stored, a
     * new pair is generated and stored.  `threw` is set where `JSON.parse` or
     * `importKey` throws, after which nothing more is written.
     */
    method LoadPrivateKey(key: Key, iv: Iv, keyPair: RsaPrivateKey) returns (threw: bool)
      modifies this
      ensures var after := PrivateKeyLoad(suite, sessionAvailable, old(State()), key, iv, keyPair);
        threw == after.None? && State() == if threw then old(State()) else after.value
    {
      ghost var st := State();
      threw := false;
      var encryptedPrivKey := local.asymPrivateKeyEncrypted;
      if !Truthy(encryptedPrivKey) {
        var privJwkStr := suite.stringifyJwk(keyPair);
        var encrypted := Encrypt(suite, privJwkStr, key, iv);
        local := local.(asymPublicKeyJwk := Some(keyPair.publicKey));
        local := local.(asymPrivateKeyEncrypted := Some(encrypted));
        SessionSetPrivateKey(Some(keyPair));
        asymPrivateKey := Some(keyPair);
        assert State() == PrivateKeyLoad(suite, sessionAvailable, st, key, iv, keyPair).value;
      } else {
        var privJwkStr := Decrypt(suite, Raw(encryptedPrivKey.value), key);
        if Truthy(privJwkStr) {
          var privJwk := suite.parseJwk(privJwkStr.value);
          if privJwk.None? {
            return true;
          }
          asymPrivateKey := privJwk;
          SessionSetPrivateKey(privJwk);
          assert State() == PrivateKeyLoad(suite, sessionAvailable, st, key, iv, keyPair).value;
        }
      }
    }

    /** The answer and the new state of `UnlockVault`. */
    twostate predicate UnlockVaultDone(password: string, iv: Iv, keyPair: RsaPrivateKey, r: Response)
      reads this
    {
      && (!Truthy(old(local.masterPasswordHash)) || !Truthy(old(local.masterPasswordSalt)) ==>
          r == Outcome(false, Some(NotSetup)) && State() == old(State()))
      && (Truthy(old(local.masterPasswordHash)) && Truthy(old(local.masterPasswordSalt)) && old(StoredSalt(local)).None? ==>
          r == NoReply && State() == old(State()))
      && (Truthy(old(local.masterPasswordHash)) && Truthy(old(local.masterPasswordSalt)) && old(StoredSalt(local)).Some? ==>
          var salt := old(StoredSalt(local)).value;
          if PasswordHash(suite, password, salt) != old(local.masterPasswordHash).value then
            r == Outcome(false, Some(IncorrectPassword)) && State() == old(State())
          else
            var key := DeriveKey(suite, password, salt);
            var unlocked := old(State()).(
              local := old(local).(locked := Some(false)),
              session := SessionWrite(sessionAvailable, old(session), old(session).(vaultKeyJwk := Some(key))));
            match PrivateKeyLoad(suite, sessionAvailable, unlocked, key, iv, keyPair)
            case None => r == NoReply && State() == unlocked
            case Some(loaded) => r == Outcome(true, None) && State() == loaded.(vaultKey := Some(key), timerArmed := true))
    }

    /**
     * `UNLOCK_VAULT`.  Without a hash or a salt: `'Not setup'`.  A salt that is
     * not base64 throws.  A wrong password: `'Incorrect password'`.  The right
     * one: the derived key is written to the session, the vault is marked
     * unlocked, the private key is loaded (`LoadPrivateKey`), and then the key
     * is cached and the timer armed.  Where loading throws, the session key and
     * the `locked` flag have already been written.
     */
    method UnlockVault(password: string, iv: Iv, keyPair: RsaPrivateKey) returns (r: Response)
      modifies this
      ensures UnlockVaultDone(password, iv, keyPair, r)
      ensures old(LockInvariant()) ==> LockInvariant()
    {
      var hashStored := local.masterPasswordHash;
      var saltStr := local.masterPasswordSalt;
      if !Truthy(hashStored) || !Truthy(saltStr) {
        return Outcome(false, Some(NotSetup));
      }
      var saltBytes := Atob(saltStr.value);
      if saltBytes.None? {
        return NoReply;
      }
      var salt := saltBytes.value;
      var hash := HashPassword(suite, password, salt);
      if hash == hashStored.value {
        var key := DeriveKey(suite, password, salt);
        SessionSetVaultKey(Some(key));
        local := local.(locked := Some(false));
        var threw := LoadPrivateKey(key, iv, keyPair);
        if threw {
          return NoReply;
        }
        vaultKey := Some(key);
        ResetLockTimer();
        return Outcome(true, None);
      } else {
        return Outcome(false, Some(IncorrectPassword));
      }
    }

    /** The answer and the new state of `LockVault`. */
    twostate predicate LockVaultDone(r: Response)
      reads this
    {
      && r == Outcome(true, None)
      && (State() == old(State()).(
          vaultKey := None,
          asymPrivateKey := None,
          timerArmed := false,
          local := old(local).(locked := Some(true)),
          session := if sessionAvailable then EmptySession else old(session)))
    }

    /** `LOCK_VAULT`: cancels the timer and drops both keys from memory and from the session. */
    method LockVault() returns (r: Response)
      modifies this
      ensures LockVaultDone(r)
      ensures LockInvariant()
    {
      timerArmed := false;
      vaultKey := None;
      asymPrivateKey := None;
      SessionSetVaultKey(None);
      SessionSetPrivateKey(None);
      local := local.(locked := Some(true));
      r := Outcome(true, None);
    }

    /** The answer and the new state of `ChangeMasterPassword`. */
    twostate predicate ChangeMasterPasswordDone(oldPassword: string, newPassword: string, newSalt: Salt, ivs: nat -> Iv, r: Response)
      reads this
    {
      && (old(StoredSalt(local)).None? ==> r == NoReply && State() == old(State()))
      && (old(StoredSalt(local)).Some? ==>
          var salt := old(StoredSalt(local)).value;
          if old(local.masterPasswordHash) != Some(PasswordHash(suite, oldPassword, salt)) then
            r == Outcome(false, Some(IncorrectOldPassword)) && State() == old(State())
          else
            var oldKey := DeriveKey(suite, oldPassword, salt);
            var newKey := DeriveKey(suite, newPassword, newSalt);
            r == Outcome(true, None) &&
            State() == old(State()).(
              vaultKey := Some(newKey),
              local := old(local).(
                passwords := Some(Rotated(suite, old(local.passwords).GetOr([]), oldKey, newKey, ivs)),
                masterPasswordHash := Some(PasswordHash(suite, newPassword, newSalt)),
                masterPasswordSalt := Some(Btoa(newSalt))),
              session := if sessionAvailable then old(session).(vaultKeyJwk := Some(newKey)) else old(session)))
    }

    /**
     * `CHANGE_MASTER_PASSWORD`: after the old password is verified, every
     * credential the old key can read is re-encrypted under a key derived
     * from the new password and a fresh salt; the hash, the salt and the key
     * in memory and in the session are replaced.  The key pair, the `locked`
     * flag and the timer are left as they were.
     */
    method ChangeMasterPassword(oldPassword: string, newPassword: string, newSalt: Salt, ivs: nat -> Iv)
      returns (r: Response)
      modifies this
      ensures ChangeMasterPasswordDone(oldPassword, newPassword, newSalt, ivs, r)
      ensures old(LockInvariant()) && old(timerArmed) && old(local.locked) != Some(true) ==> LockInvariant()
    {
      var hashStored := local.masterPasswordHash;
      var saltBytes := StoredSalt(local);
      if saltBytes.None? {
        return NoReply;
      }
      var salt := saltBytes.value;
      var hashOld := HashPassword(suite, oldPassword, salt);
      if hashStored != Some(hashOld) {
        return Outcome(false, Some(IncorrectOldPassword));
      }
      var oldKey := DeriveKey(suite, oldPassword, salt);
      var passwords := local.passwords.GetOr([]);
      var newSaltStr := Btoa(newSalt);
      var newKey := DeriveKey(suite, newPassword, newSalt);
      var updatedPasswords := ReencryptAll(suite, passwords, oldKey, newKey, ivs);
      var newHash := HashPassword(suite, newPassword, newSalt);
      local := local.(passwords := Some(updatedPasswords));
      local := local.(masterPasswordHash := Some(newHash));
      local := local.(masterPasswordSalt := Some(newSaltStr));
      SessionSetVaultKey(Some(newKey));
      vaultKey := Some(newKey);
      return Outcome(true, None);
    }

    // -------------------------------------------------------------------
    // Credentials

    /** The answer and the new state of `GetCredentials`. */
    twostate predicate GetCredentialsDone(domain: string, r: Response)
      reads this
    {
      var matches := MatchingCredentials(old(local.passwords).GetOr([]), domain);
      var key := old(AvailableVaultKey());
      && r == Matches(|matches| > 0, matches,
           if |matches| > 0 && key.Some? then Some(Autofill(matches[0].username, Decrypt(suite, matches[0].password, key.value)))
           else None)
      && State() == if |matches| > 0 then old(State()).(vaultKey := key, timerArmed := old(timerArmed) || key.Some?) else old(State())
    }

    /**
     * `GET_CREDENTIALS`: the records whose site contains the domain, ignoring
     * case, in stored order; with at least one match and a vault key
     * available, the first match's username and decrypted password too.
     */
    method GetCredentials(domain: string) returns (r: Response)
      modifies this
      ensures GetCredentialsDone(domain, r)
      ensures old(LockInvariant()) ==> LockInvariant()
    {
      var passwords := local.passwords.GetOr([]);
      var matches := MatchingCredentials(passwords, domain);
      var autofill := None;
      if |matches| > 0 {
        var key := GetVaultKey();
        if key.Some? {
          var match0 := matches[0];
          var decrypted := Decrypt(suite, match0.password, key.value);
          autofill := Some(Autofill(match0.username, decrypted));
        }
      }
      r := Matches(|matches| > 0, matches, autofill);
    }

    /** The answer and the new state of `DecryptPassword`. */
    twostate predicate DecryptPasswordDone(data: Envelope, r: Response)
      reads this
    {
      && (data.Tagged? && data.tag == "rsa" ==>
          var priv := old(AvailablePrivateKey());
          && r == (if priv.None? then Outcome(false, Some(Locked))
                   else var d := DecryptAsym(suite, data.payload, priv.value); Plaintext(Truthy(d), d))
          && State() == old(State()).(asymPrivateKey := priv))
      && (!(data.Tagged? && data.tag == "rsa") ==>
          var key := old(AvailableVaultKey());
          && r == (if key.None? then Outcome(false, Some(Locked))
                   else var d := Decrypt(suite, Raw(Payload(data)), key.value); Plaintext(Truthy(d), d))
          && State() == old(State()).(vaultKey := key, timerArmed := old(timerArmed) || key.Some?))
    }

    /**
     * `DECRYPT_PASSWORD`: an `'rsa'` envelope is opened with the private key,
     * any other with the vault key (a tagged object through its payload);
     * `'Locked'` when that key is unavailable.  Success means a non-empty
     * plaintext.
     */
    method DecryptPassword(data: Envelope) returns (r: Response)
      modifies this
      ensures DecryptPasswordDone(data, r)
      ensures old(LockInvariant()) ==> LockInvariant()
    {
      if data.Tagged? && data.tag == "rsa" {
        var privKey := GetAsymPrivateKey();
        if privKey.None? {
          return Outcome(false, Some(Locked));
        }
        var decrypted := DecryptAsym(suite, data.payload, privKey.value);
        return Plaintext(Truthy(decrypted), decrypted);
      } else {
        var key := GetVaultKey();
        if key.None? {
          return Outcome(false, Some(Locked));
        }
        var encryptedString := Payload(data);
        var decrypted := Decrypt(suite, Raw(encryptedString), key.value);
        return Plaintext(Truthy(decrypted), decrypted);
      }
    }

    /** The answer and the new state of `SaveCandidate`. */
    twostate predicate SaveCandidateDone(payload: Candidate, r: Response)
      reads this
    {
      && r == Outcome(true, None)
      && State() == old(State()).(pendingSaveCandidate := Some(payload))
    }

    /** `SAVE_CANDIDATE`: the slot is replaced, whatever it held. */
    method SaveCandidate(payload: Candidate) returns (r: Response)
      modifies this
      ensures SaveCandidateDone(payload, r)
      ensures old(LockInvariant()) ==> LockInvariant()
    {
      pendingSaveCandidate := Some(payload);
      r := Outcome(true, None);
    }

    /** `CHECK_PENDING_SAVE`: the slot as it is; nothing changes. */
    method CheckPendingSave() returns (r: Response)
      ensures r == Pending(pendingSaveCandidate)
    {
      r := Pending(pendingSaveCandidate);
    }

    /** The answer and the new state of `ClearCandidate`. */
    twostate predicate ClearCandidateDone(r: Response)
      reads this
    {
      && r == Outcome(true, None)
      && State() == old(State()).(pendingSaveCandidate := None)
    }

    /** `CLEAR_CANDIDATE`: the slot is emptied. */
    method ClearCandidate() returns (r: Response)
      modifies this
      ensures ClearCandidateDone(r)
      ensures old(LockInvariant()) ==> LockInvariant()
    {
      pendingSaveCandidate := None;
      r := Outcome(true, None);
    }

    /** The answer and the new state of `ConfirmSave`. */
    twostate predicate ConfirmSaveDone(payload: Candidate, iv: Iv, seed: Bytes, now: nat, r: Response)
      reads this
    {
      var key := old(AvailableVaultKey());
      var pub := old(local.asymPublicKeyJwk);
      var passwords := old(local.passwords).GetOr([]);
      var restored := old(State()).(vaultKey := key, timerArmed := old(timerArmed) || key.Some?);
      if key.None? && pub.None? then
        r == Outcome(false, Some(VaultNotInitialized)) && State() == old(State())
      else if key.None? && EncryptAsym(suite, payload.password, pub.value, seed).None? then
        r == NoReply && State() == old(State())
      else
        var encrypted :=
          if key.Some? then Tagged("aes", Encrypt(suite, payload.password, key.value, iv))
          else Tagged("rsa", EncryptAsym(suite, payload.password, pub.value, seed).value);
        r == Outcome(true, None) &&
        State() == restored.(
          pendingSaveCandidate := None,
          local := old(local).(passwords := Some(Upsert(passwords, payload.site, payload.username, encrypted, now))))
    }

    /**
     * `CONFIRM_SAVE`: the password is sealed under the vault key when one is
     * available (`'aes'`), else under the stored public key (`'rsa'`), and the
     * record is upserted.  Without either key: `'Vault not initialized'`, with
     * the list and the slot untouched.  A password too long for RSA-OAEP makes
     * `encryptAsym` throw, and nothing is written.  Only a successful save
     * empties the slot.
     */
    method ConfirmSave(payload: Candidate, iv: Iv, seed: Bytes, now: nat) returns (r: Response)
      modifies this
      ensures ConfirmSaveDone(payload, iv, seed, now, r)
      ensures old(LockInvariant()) ==> LockInvariant()
    {
      var key := GetVaultKey();
      var encrypted;
      if key.Some? {
        encrypted := Tagged("aes", Encrypt(suite, payload.password, key.value, iv));
      } else {
        var pubJwk := local.asymPublicKeyJwk;
        if pubJwk.None? {
          return Outcome(false, Some(VaultNotInitialized));
        }
        var sealed := EncryptAsym(suite, payload.password, pubJwk.value, seed);
        if sealed.None? {
          return NoReply;
        }
        encrypted := Tagged("rsa", sealed.value);
      }
      var passwords := local.passwords.GetOr([]);
      passwords := Upsert(passwords, payload.site, payload.username, encrypted, now);
      local := local.(passwords := Some(passwords));
      pendingSaveCandidate := None;
      return Outcome(true, None);
    }

    // -------------------------------------------------------------------
    // Dispatcher

    /** Each lock-state request is answered by its handler, with what that handler draws from `entropy`. */
    twostate predicate LockRequestAnswered(request: Request, entropy: Entropy, r: Response)
      reads this
    {
      && (request.CheckLockStateMsg? ==> CheckLockStateDone(r))
      && (request.SetMasterPasswordMsg? ==>
            SetMasterPasswordDone(request.password, entropy.salt, entropy.iv, entropy.keyPair, r))
      && (request.UnlockVaultMsg? ==> UnlockVaultDone(request.password, entropy.iv, entropy.keyPair, r))
      && (request.LockVaultMsg? ==> LockVaultDone(r))
      && (request.ChangeMasterPasswordMsg? ==>
            ChangeMasterPasswordDone(request.oldPassword, request.newPassword, entropy.salt, entropy.ivs, r))
    }

    /** Each credential request is answered by its handler, with what that handler draws from `entropy`. */
    twostate predicate CredentialRequestAnswered(request: Request, entropy: Entropy, r: Response)
      reads this
    {
      && (request.GetCredentialsMsg? ==> GetCredentialsDone(request.domain, r))
      && (request.DecryptPasswordMsg? ==> DecryptPasswordDone(request.encryptedData, r))
      && (request.SaveCandidateMsg? ==> SaveCandidateDone(request.payload, r))
      && (request.CheckPendingSaveMsg? ==> r == Pending(old(pendingSaveCandidate)) && State() == old(State()))
      && (request.ConfirmSaveMsg? ==> ConfirmSaveDone(request.payload, entropy.iv, entropy.seed, entropy.now, r))
      && (request.ClearCandidateMsg? ==> ClearCandidateDone(r))
    }

    /** The lock-state half of `handleMessage`. */
    method HandleLockRequest(request: Request, entropy: Entropy) returns (r: Response)
      requires request.IsLockRequest()
      modifies this
      ensures LockRequestAnswered(request, entropy, r)
      ensures !request.ChangeMasterPasswordMsg? && old(LockInvariant()) ==> LockInvariant()
    {
      match request
      case CheckLockStateMsg =>
        r := CheckLockState();
      case SetMasterPasswordMsg(password) =>
        r := SetMasterPassword(password, entropy.salt, entropy.iv, entropy.keyPair);
      case UnlockVaultMsg(password) =>
        r := UnlockVault(password, entropy.iv, entropy.keyPair);
      case LockVaultMsg =>
        r := LockVault();
      case ChangeMasterPasswordMsg(oldPassword, newPassword) =>
        r := ChangeMasterPassword(oldPassword, newPassword, entropy.salt, entropy.ivs);
    }

    /** The credential half of `handleMessage`. */
    method HandleCredentialRequest(request: Request, entropy: Entropy) returns (r: Response)
      requires !request.IsLockRequest() && !request.UnknownMsg?
      modifies this
      ensures CredentialRequestAnswered(request, entropy, r)
      ensures old(LockInvariant()) ==> LockInvariant()
    {
      match request
      case GetCredentialsMsg(domain) =>
        r := GetCredentials(domain);
      case DecryptPasswordMsg(data) =>
        r := DecryptPassword(data);
      case SaveCandidateMsg(payload) =>
        r := SaveCandidate(payload);
      case CheckPendingSaveMsg =>
        r := CheckPendingSave();
      case ConfirmSaveMsg(payload) =>
        r := ConfirmSave(payload, entropy.iv, entropy.seed, entropy.now);
      case ClearCandidateMsg =>
        r := ClearCandidate();
    }

    /**
     * `handleMessage`: one request, dispatched on its type to its handler,
     * which draws the salt, IVs, key pair, seed and clock it needs from
     * `entropy`.  An unknown type changes nothing; every request but
     * `CHANGE_MASTER_PASSWORD` keeps the lock invariant.
     */
    method HandleMessage(request: Request, entropy: Entropy) returns (r: Response)
      modifies this
      ensures request.UnknownMsg? ==> r == UnknownType && State() == old(State())
      ensures LockRequestAnswered(request, entropy, r)
      ensures CredentialRequestAnswered(request, entropy, r)
      ensures !request.ChangeMasterPasswordMsg? && old(LockInvariant()) ==> LockInvariant()
    {
      if request.UnknownMsg? {
        r := UnknownType;
      } else if request.IsLockRequest() {
        r := HandleLockRequest(request, entropy);
      } else {
        r := HandleCredentialRequest(request, entropy);
      }
    }
  }
}
