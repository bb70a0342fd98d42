/**
 * The `Utils.crypto` helpers: key derivation, the verification hash, and the
 * two envelope formats the vault stores.
 */
module Utils {
  import opened Wrappers
  import opened Binary
  import opened Base64
  import opened Text
  import opened Primitives

  /** PBKDF2 iteration count of `deriveKey`. */
  const Pbkdf2Iterations: nat := 100000

  /** `encrypt` draws a 12-byte AES-GCM IV for every call. */
  type Iv = b: Bytes | |b| == 12 witness seq(12, _ => 0)

  /** `deriveKey(password, salt)`: PBKDF2-SHA-256, 100000 iterations, a 256-bit AES-GCM key. */
  function DeriveKey(s: Suite, password: string, salt: Bytes): Key
  {
    s.pbkdf2(s.utf8Encode(password), salt, Pbkdf2Iterations)
  }

  /** The verification hash of `password` under `salt`, as `hashPassword` returns it. */
  function PasswordHash(s: Suite, password: string, salt: Bytes): (h: string)
    ensures |h| == 44
  {
    Btoa(s.sha256(s.utf8Encode(password) + salt))
  }

  /** `target.set(source, offset)` on a `Uint8Array`. */
  method CopyInto(target: array<Byte>, source: Bytes, offset: nat)
    requires offset + |source| <= target.Length
    modifies target
    ensures target[..] == old(target[..offset]) + source + old(target[offset + |source|..])
  {
    var i := 0;
    while i < |source|
      invariant 0 <= i <= |source|
      invariant target[..offset] == old(target[..offset])
      invariant target[offset..offset + i] == source[..i]
      invariant target[offset + |source|..] == old(target[offset + |source|..])
      invariant target[offset + i..] == old(target[offset + i..])
    {
      target[offset + i] := source[i];
      i := i + 1;
    }
    assert target[..] == target[..offset] + target[offset..offset + |source|] + target[offset + |source|..];
  }

  /**
   * `hashPassword`: the password's UTF-8 bytes and then the salt bytes are laid
   * out in one buffer of their combined length, digested with SHA-256, and the
   * digest is returned in base64.
   */
  method HashPassword(s: Suite, password: string, salt: Bytes) returns (hash: string)
    ensures hash == PasswordHash(s, password, salt)
  {
    var data := s.utf8Encode(password);
    var saltedData := new Byte[|data| + |salt|];
    CopyInto(saltedData, data, 0);
    CopyInto(saltedData, salt, |data|);
    assert saltedData[..] == data + salt;
    var hashBuffer := s.sha256(saltedData[..]);
    hash := Btoa(hashBuffer);
  }

  // ---------------------------------------------------------------------
  // Envelopes

  /**
   * What a stored credential's `password` field holds: a bare package string
   * (`iv:ciphertext`, as `encrypt` returns it) or an object `{ type, payload }`.
   */
  datatype Envelope = Raw(text: string) | Tagged(tag: string, payload: string)

  /** `encrypt(text, key)` with the IV it draws: `base64(iv) ":" base64(ciphertext)`. */
  function Encrypt(s: Suite, text: string, key: Key, iv: Iv): (r: string)
    ensures Unpack(r) == Some((Btoa(iv), Btoa(s.aesGcmEncrypt(key, iv, s.utf8Encode(text)))))
  {
    var ivStr := Btoa(iv);
    var dataStr := Btoa(s.aesGcmEncrypt(key, iv, s.utf8Encode(text)));
    SplitPair(ivStr, ':', dataStr);
    ivStr + ":" + dataStr
  }

  /**
   * `const [ivStr, dataStr] = package.split(':')`: the first two pieces, if
   * there are two.  There are two exactly when the package holds a `:`; both
   * are free of `:`, and they open the package with the `:` between them.
   */
  function Unpack(package: string): (r: Option<(string, string)>)
    ensures r.Some? <==> ':' in package
    ensures r.Some? ==> ':' !in r.value.0 && ':' !in r.value.1
    ensures r.Some? ==> r.value.0 + ":" + r.value.1 <= package
  {
    var parts := Split(package, ':');
    JoinSplit(package, ':');
    if |parts| < 2 then
      assert Join(parts, ':') == parts[0];
      None
    else
      var tail := parts[1..];
      assert Join(parts, ':') == parts[0] + ":" + Join(tail, ':');
      assert parts[1] <= Join(tail, ':') by {
        if |tail| > 1 {
          assert Join(tail, ':') == tail[0] + ":" + Join(tail[1..], ':');
        }
      }
      Some((parts[0], parts[1]))
  }

  /**
   * `decrypt(package, key)`: `None` is the `null` returned from the `catch`.
   * A `{ type, payload }` object has no `split` method, so it fails too.  A
   * package with one piece fails because `atob(undefined)` throws.
   */
  function Decrypt(s: Suite, package: Envelope, key: Key): (r: Option<string>)
    ensures package.Tagged? ==> r == None
  {
    match package
    case Tagged(_, _) => None
    case Raw(text) =>
      match Unpack(text)
      case None => None
      case Some((ivStr, dataStr)) =>
        match (Atob(ivStr), Atob(dataStr))
        case (Some(iv), Some(data)) =>
          (match s.aesGcmDecrypt(key, iv, data)
           case Some(plain) => Some(s.utf8Decode(plain))
           case None => None)
        case _ => None
  }

  /** `decrypt` undoes `encrypt` under the same key. */
  lemma DecryptEncrypt(s: Suite, text: string, key: Key, iv: Iv)
    requires Lawful(s)
    ensures Decrypt(s, Raw(Encrypt(s, text, key, iv)), key) == Some(text)
  {
    var ct := s.aesGcmEncrypt(key, iv, s.utf8Encode(text));
    AtobBtoa(iv);
    AtobBtoa(ct);
  }

  /** `decrypt` under any other key yields `null`. */
  lemma DecryptWrongKey(s: Suite, text: string, key: Key, other: Key, iv: Iv)
    requires Lawful(s)
    requires other != key
    ensures Decrypt(s, Raw(Encrypt(s, text, key, iv)), other) == None
  {
    var ct := s.aesGcmEncrypt(key, iv, s.utf8Encode(text));
    AtobBtoa(iv);
    AtobBtoa(ct);
  }

  /** A package without a `:` yields `null`: its second piece is `undefined`. */
  lemma DecryptWithoutSeparator(s: Suite, text: string, key: Key)
    requires ':' !in text
    ensures Decrypt(s, Raw(text), key) == None
  {
    SplitWithoutSeparator(text, ':');
  }

  /** A package whose IV part is not base64 yields `null`. */
  lemma DecryptBadIv(s: Suite, ivStr: string, rest: string, key: Key)
    requires ':' !in ivStr
    requires Atob(ivStr) == None
    ensures Decrypt(s, Raw(ivStr + ":" + rest), key) == None
  {
    SplitAfterPrefix(ivStr, ':', rest);
  }

  // ---------------------------------------------------------------------
  // Asymmetric envelopes

  /**
   * `encryptAsym(text, publicKey)` with the seed OAEP draws: base64 of the
   * RSA-OAEP ciphertext.  `None` is the exception `encryptAsym` passes on when
   * `crypto.subtle.encrypt` rejects a message longer than `OaepMaxMessage` bytes.
   */
  function EncryptAsym(s: Suite, text: string, publicKey: RsaPublicKey, seed: Bytes): (r: Option<string>)
    ensures r.None? <==> |s.utf8Encode(text)| > OaepMaxMessage
    ensures r.Some? ==> |r.value| % 4 == 0 && ':' !in r.value
  {
    var encoded := s.utf8Encode(text);
    if |encoded| > OaepMaxMessage then None
    else Some(Btoa(s.oaepEncrypt(publicKey, encoded, seed)))
  }

  /** `decryptAsym(b64, privateKey)`: `None` on malformed base64 or an OAEP failure. */
  function DecryptAsym(s: Suite, b64: string, privateKey: RsaPrivateKey): (r: Option<string>)
    ensures Atob(b64) == None ==> r == None
  {
    match Atob(b64)
    case None => None
    case Some(data) =>
      match s.oaepDecrypt(privateKey, data)
      case None => None
      case Some(plain) => Some(s.utf8Decode(plain))
  }

  /** The private key of the pair opens what was encrypted under its public key. */
  lemma DecryptAsymEncryptAsym(s: Suite, text: string, privateKey: RsaPrivateKey, seed: Bytes)
    requires Lawful(s)
    ensures var sealed := EncryptAsym(s, text, privateKey.publicKey, seed);
      sealed.Some? ==> DecryptAsym(s, sealed.value, privateKey) == Some(text)
  {
    AtobBtoa(s.oaepEncrypt(privateKey.publicKey, s.utf8Encode(text), seed));
  }

  /** A private key of another pair yields `null`. */
  lemma DecryptAsymWrongKey(s: Suite, text: string, publicKey: RsaPublicKey, privateKey: RsaPrivateKey, seed: Bytes)
    requires Lawful(s)
    requires privateKey.publicKey != publicKey
    ensures var sealed := EncryptAsym(s, text, publicKey, seed);
      sealed.Some? ==> DecryptAsym(s, sealed.value, privateKey) == None
  {
    AtobBtoa(s.oaepEncrypt(publicKey, s.utf8Encode(text), seed));
  }
}
