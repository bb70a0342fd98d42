/**
 * The cryptographic primitives of the Web Crypto API and the two text codecs
 * the vault uses, as an uninterpreted suite of functions.  The model never
 * looks inside them: everything it proves about the vault follows from the
 * laws collected in `Lawful`.  `StandIn` is one suite that obeys every law,
 * which shows that the laws can hold together.
 */
module Primitives {
  import opened Wrappers
  import opened Binary

  /** A 256-bit AES-GCM key (`{ name: "AES-GCM", length: 256 }`). */
  type Key = b: Bytes | |b| == 32 witness seq(32, _ => 0)

  /** The length in bytes of a SHA-256 digest (hLen in RFC 8017). */
  const DigestLength: nat := 32

  /** The length in bytes of a 2048-bit RSA modulus (`modulusLength: 2048`; k in RFC 8017). */
  const ModulusLength: nat := 256

  /**
   * The longest message RSA-OAEP with SHA-256 encrypts under such a modulus:
   * k - 2hLen - 2 bytes (section 7.1.1 of RFC 8017); `crypto.subtle.encrypt`
   * rejects a longer one.
   */
  const OaepMaxMessage: nat := ModulusLength - 2 * DigestLength - 2

  /** A SHA-256 digest. */
  type Digest = b: Bytes | |b| == DigestLength witness seq(32, _ => 0)

  /** A 2048-bit RSA modulus. */
  type Modulus = b: Bytes | |b| == ModulusLength witness seq(256, _ => 0)

  /**
   * An RSA-OAEP public key.  Every generated pair uses the public exponent
   * 65537 (`publicExponent: [1, 0, 1]`), so only the modulus varies.
   */
  datatype RsaPublicKey = RsaPublicKey(modulus: Modulus)

  /** An RSA-OAEP private key, which (as a private JWK does) carries its public half. */
  datatype RsaPrivateKey = RsaPrivateKey(publicKey: RsaPublicKey, privateExponent: Bytes)

  /**
   * The primitives, one function each:
   * - `utf8Encode` / `utf8Decode`: `TextEncoder.encode` / `TextDecoder.decode`;
   * - `sha256`: `crypto.subtle.digest("SHA-256", …)`;
   * - `pbkdf2`: PBKDF2 with HMAC-SHA-256 over (password bytes, salt, iterations),
   *   producing an AES-GCM key of 256 bits;
   * - `aesGcmEncrypt` / `aesGcmDecrypt`: AES-GCM under (key, iv); decryption is
   *   `None` where `crypto.subtle.decrypt` rejects (authentication failure);
   * - `oaepEncrypt` / `oaepDecrypt`: RSA-OAEP with SHA-256; the third argument of
   *   `oaepEncrypt` is the random seed the padding draws.  `oaepEncrypt` is only
   *   applied to messages of at most `OaepMaxMessage` bytes;
   * - `stringifyJwk` / `parseJwk`: `JSON.stringify` of an exported private JWK, and
   *   `JSON.parse` followed by `importKey`; `None` where either throws.
   */
  datatype Suite = Suite(
    utf8Encode: string -> Bytes,
    utf8Decode: Bytes -> string,
    sha256: Bytes -> Digest,
    pbkdf2: (Bytes, Bytes, nat) -> Key,
    aesGcmEncrypt: (Key, Bytes, Bytes) -> Bytes,
    aesGcmDecrypt: (Key, Bytes, Bytes) -> Option<Bytes>,
    oaepEncrypt: (RsaPublicKey, Bytes, Bytes) -> Bytes,
    oaepDecrypt: (RsaPrivateKey, Bytes) -> Option<Bytes>,
    stringifyJwk: RsaPrivateKey -> string,
    parseJwk: string -> Option<RsaPrivateKey>)

  /** The laws the vault relies on. */
  ghost predicate Lawful(s: Suite)
  {
    // text survives encoding and decoding
    && (forall t :: s.utf8Decode(s.utf8Encode(t)) == t)
    // AES-GCM: the right key opens, any other key is rejected
    && (forall k, iv, m :: s.aesGcmDecrypt(k, iv, s.aesGcmEncrypt(k, iv, m)) == Some(m))
    && (forall k, k', iv, iv', m :: k != k' ==> s.aesGcmDecrypt(k', iv', s.aesGcmEncrypt(k, iv, m)) == None)
    // RSA-OAEP: the matching private key opens, a private key of another pair is rejected
    && (forall priv: RsaPrivateKey, m, seed :: s.oaepDecrypt(priv, s.oaepEncrypt(priv.publicKey, m, seed)) == Some(m))
    && (forall priv: RsaPrivateKey, pub, m, seed :: priv.publicKey != pub ==> s.oaepDecrypt(priv, s.oaepEncrypt(pub, m, seed)) == None)
    // a private JWK survives JSON, and its JSON text is never empty
    && (forall k :: s.parseJwk(s.stringifyJwk(k)) == Some(k))
    && (forall k :: s.stringifyJwk(k) != "")
  }

  // ---------------------------------------------------------------------
  // A suite that obeys the laws.  It has no cryptographic strength at all:
  // its ciphertexts carry the key that made them.

  /** A code point as three bytes, most significant first. */
  function StandInCodeUnits(ch: char): Bytes
  {
    var c := ch as int;
    [c / 65536, (c / 256) % 256, c % 256]
  }

  function StandInChar(b0: Byte, b1: Byte, b2: Byte): char
  {
    var c := (b0 as int) * 65536 + (b1 as int) * 256 + (b2 as int);
    if 0 <= c < 0xD800 || 0xE000 <= c < 0x11_0000 then c as char else '?'
  }

  lemma StandInCharOfCodeUnits(ch: char)
    ensures var b := StandInCodeUnits(ch); StandInChar(b[0], b[1], b[2]) == ch
  {
    var b := StandInCodeUnits(ch);
    assert (b[0] as int) * 65536 + (b[1] as int) * 256 + (b[2] as int) == ch as int;
  }

  function StandInEncode(t: string): Bytes
  {
    if |t| == 0 then [] else StandInCodeUnits(t[0]) + StandInEncode(t[1..])
  }

  function StandInDecode(b: Bytes): string
    decreases |b|
  {
    if |b| < 3 then "" else [StandInChar(b[0], b[1], b[2])] + StandInDecode(b[3..])
  }

  lemma {:induction false} StandInTextRoundTrip(t: string)
    ensures StandInDecode(StandInEncode(t)) == t
  {
    if |t| > 0 {
      var b := StandInEncode(t);
      assert b[3..] == StandInEncode(t[1..]);
      StandInTextRoundTrip(t[1..]);
      StandInCharOfCodeUnits(t[0]);
      assert [t[0]] + t[1..] == t;
    }
  }

  function StandInSeal(k: Key, iv: Bytes, m: Bytes): Bytes { k + m }

  function StandInOpen(k: Key, iv: Bytes, c: Bytes): Option<Bytes>
  {
    if |c| >= 32 && c[..32] == k then Some(c[32..]) else None
  }

  function StandInOaepEncrypt(pub: RsaPublicKey, m: Bytes, seed: Bytes): Bytes { pub.modulus + m }

  function StandInOaepDecrypt(priv: RsaPrivateKey, c: Bytes): Option<Bytes>
  {
    if |c| >= 256 && c[..256] == priv.publicKey.modulus then Some(c[256..]) else None
  }

  function StandInChars(b: Bytes): string
  {
    if |b| == 0 then "" else [b[0] as char] + StandInChars(b[1..])
  }

  function StandInBytes(s: string): Option<Bytes>
  {
    if |s| == 0 then Some([])
    else if s[0] as int >= 256 then None
    else match StandInBytes(s[1..])
      case None => None
      case Some(rest) => Some([s[0] as int] + rest)
  }

  lemma {:induction false} StandInBytesChars(b: Bytes)
    ensures StandInBytes(StandInChars(b)) == Some(b)
  {
    if |b| > 0 {
      assert StandInChars(b)[1..] == StandInChars(b[1..]);
      StandInBytesChars(b[1..]);
      assert [b[0]] + b[1..] == b;
    }
  }

  function StandInStringify(k: RsaPrivateKey): string
  {
    "{" + StandInChars(k.publicKey.modulus + k.privateExponent)
  }

  function StandInParse(s: string): Option<RsaPrivateKey>
  {
    if |s| == 0 || s[0] != '{' then None
    else match StandInBytes(s[1..])
      case None => None
      case Some(b) =>
        if |b| < 256 then None else Some(RsaPrivateKey(RsaPublicKey(b[..256]), b[256..]))
  }

  function StandIn(): Suite
  {
    Suite(
      StandInEncode, StandInDecode,
      (data: Bytes) => seq(32, _ => 0),
      (password: Bytes, salt: Bytes, iterations: nat) => seq(32, _ => 0),
      StandInSeal, StandInOpen,
      StandInOaepEncrypt, StandInOaepDecrypt,
      StandInStringify, StandInParse)
  }

  /** The laws are consistent: some suite obeys all of them. */
  lemma StandInIsLawful()
    ensures Lawful(StandIn())
  {
    var s := StandIn();
    forall t ensures s.utf8Decode(s.utf8Encode(t)) == t {
      StandInTextRoundTrip(t);
    }
    forall k: Key, iv: Bytes, m: Bytes ensures s.aesGcmDecrypt(k, iv, s.aesGcmEncrypt(k, iv, m)) == Some(m) {
      assert (k + m)[..32] == k && (k + m)[32..] == m;
    }
    forall k: Key, k': Key, iv: Bytes, iv': Bytes, m: Bytes | k != k'
      ensures s.aesGcmDecrypt(k', iv', s.aesGcmEncrypt(k, iv, m)) == None
    {
      assert (k + m)[..32] == k;
    }
    forall priv: RsaPrivateKey, m: Bytes, seed: Bytes
      ensures s.oaepDecrypt(priv, s.oaepEncrypt(priv.publicKey, m, seed)) == Some(m)
    {
      var c := priv.publicKey.modulus + m;
      assert c[..256] == priv.publicKey.modulus && c[256..] == m;
    }
    forall priv: RsaPrivateKey, pub: RsaPublicKey, m: Bytes, seed: Bytes | priv.publicKey != pub
      ensures s.oaepDecrypt(priv, s.oaepEncrypt(pub, m, seed)) == None
    {
      var c := pub.modulus + m;
      assert c[..256] == pub.modulus;
    }
    forall k: RsaPrivateKey ensures s.parseJwk(s.stringifyJwk(k)) == Some(k) {
      var b := k.publicKey.modulus + k.privateExponent;
      var str := s.stringifyJwk(k);
      assert str[1..] == StandInChars(b);
      StandInBytesChars(b);
      assert b[..256] == k.publicKey.modulus && b[256..] == k.privateExponent;
    }
  }
}
