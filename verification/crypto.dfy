/**
 * The cryptographic and encoding collaborators of the envelope, left
 * abstract. Each is a record of functions; a ghost predicate states the laws
 * the envelope relies on, and the lemmas that need them take it as a
 * precondition.
 */
module Crypto {
  import opened Wrappers
  import opened Words

  /** 'aes-128-cbc' takes a 16-byte key and a 16-byte initialisation vector. */
  const KeyLength: nat := 16
  const IvLength: nat := 16
  const BlockLength: nat := 16

  /**
   * AES-128 (FIPS 197) in CBC mode (NIST SP 800-38A section 6.2) with PKCS#7
   * padding (RFC 5652 section 6.3), as OpenSSL computes it:
   * encrypt(key, iv, plain) is cipher.update(plain) + cipher.final, and
   * decrypt answers None where cipher.final rejects the padding.
   */
  datatype Aes = Aes(encrypt: (Bytes, Bytes, Bytes) -> Bytes, decrypt: (Bytes, Bytes, Bytes) -> Option<Bytes>)

  /**
   * Padding always adds between 1 and 16 bytes, so the ciphertext fills whole
   * blocks; decryption with the same key and IV gives the plaintext back.
   */
  ghost predicate AesSound(aes: Aes) {
    (forall key: Bytes, iv: Bytes, plain: Bytes ::
       |aes.encrypt(key, iv, plain)| == (|plain| / BlockLength + 1) * BlockLength) &&
    (forall key: Bytes, iv: Bytes, plain: Bytes | |key| == KeyLength && |iv| == IvLength ::
       aes.decrypt(key, iv, aes.encrypt(key, iv, plain)) == Some(plain))
  }

  /**
   * One half of an RSA key pair: which pair it belongs to, the length k of
   * the modulus in bytes, and whether it is the private half.
   */
  datatype RsaKey = RsaKey(pair: nat, modulusBytes: nat, isPrivate: bool)

  /** RSAES-PKCS1-v1_5 encrypts at most k - 11 bytes (RFC 8017 section 7.2.1). */
  function MaxMessage(k: RsaKey): int {
    k.modulusBytes as int - 11
  }

  /** The two halves of one key pair: one private, one public. */
  predicate Halves(a: RsaKey, b: RsaKey) {
    a.pair == b.pair && a.modulusBytes == b.modulusBytes && a.isPrivate != b.isPrivate
  }

  /**
   * OpenSSL::PKey::RSA's private_encrypt, public_encrypt, private_decrypt and
   * public_decrypt with PKCS#1 v1.5 padding; a decryption answers None where
   * OpenSSL raises.
   */
  datatype Rsa = Rsa(
    privateEncrypt: (RsaKey, Bytes) -> Bytes,
    publicEncrypt: (RsaKey, Bytes) -> Bytes,
    privateDecrypt: (RsaKey, Bytes) -> Option<Bytes>,
    publicDecrypt: (RsaKey, Bytes) -> Option<Bytes>)

  /**
   * A ciphertext is k bytes long (RFC 8017 section 7.2.1, step 3), and the
   * matching operation of the other half of the pair recovers any message of
   * at most k - 11 bytes.
   */
  ghost predicate RsaSound(rsa: Rsa) {
    (forall k: RsaKey, m: Bytes :: |rsa.privateEncrypt(k, m)| == k.modulusBytes) &&
    (forall k: RsaKey, m: Bytes :: |rsa.publicEncrypt(k, m)| == k.modulusBytes) &&
    (forall priv: RsaKey, pub: RsaKey, m: Bytes | Halves(priv, pub) && priv.isPrivate && |m| <= MaxMessage(priv) ::
       rsa.publicDecrypt(pub, rsa.privateEncrypt(priv, m)) == Some(m)) &&
    (forall priv: RsaKey, pub: RsaKey, m: Bytes | Halves(priv, pub) && priv.isPrivate && |m| <= MaxMessage(pub) ::
       rsa.privateDecrypt(priv, rsa.publicEncrypt(pub, m)) == Some(m))
  }

  /** Base64::encode64 and Base64::decode64; decode64 never raises. */
  datatype Base64 = Base64(encode: Bytes -> Bytes, decode: Bytes -> Bytes)

  ghost predicate Base64Sound(b: Base64) {
    forall d: Bytes :: b.decode(b.encode(d)) == d
  }

  /** Everything the envelope takes from OpenSSL and the Base64 library. */
  datatype Primitives = Primitives(aes: Aes, rsa: Rsa, base64: Base64)

  ghost predicate Sound(p: Primitives) {
    AesSound(p.aes) && RsaSound(p.rsa) && Base64Sound(p.base64)
  }
}
