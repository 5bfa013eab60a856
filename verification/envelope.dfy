/**
 * PejRPC::Key: an RSA key half that wraps the per-message AES key and IV,
 * and the hybrid envelope built on it. A text is sealed into a Base64 body
 * holding its AES ciphertext and a header whose 'key' and 'iv' entries carry
 * the RSA-wrapped key and IV as packed base-36 text; opening reverses it.
 */
module Envelope {
  import opened Wrappers
  import opened Words
  import opened Crypto
  import opened Json
  import opened WordPacking
  import opened Session

  /** Header names to header values. */
  type Header = map<string, string>

  datatype Error =
    | Cipher(cause: CipherError)  // raised by the AES cipher
    | DataTooLarge                // RSA: data too large for key size
    | PrivateKeyNeeded            // RSA: a private_* operation on a public key
    | RsaDecryptFailed            // RSA: padding check failed
    | MissingHeader(name: string) // header[name] is nil, so pack(nil) raises
    | BadJson                     // JSON.parse raises

  /** The four RSA operations the key can be sent. */
  datatype RsaMethod = PrivateEncrypt | PublicEncrypt | PrivateDecrypt | PublicDecrypt {
    predicate UsesPrivateHalf() {
      PrivateEncrypt? || PrivateDecrypt?
    }

    predicate Encrypts() {
      PrivateEncrypt? || PublicEncrypt?
    }
  }

  function Lift(r: Option<Bytes>): Result<Bytes, Error> {
    match r
    case None => Failure(RsaDecryptFailed)
    case Some(d) => Success(d)
  }

  /**
   * rsa.send(method, data) on key half k: a private operation needs the
   * private half, and encryption refuses more than k - 11 bytes.
   */
  function Send(ops: Rsa, k: RsaKey, m: RsaMethod, data: Bytes): (r: Result<Bytes, Error>)
    ensures r == Failure(PrivateKeyNeeded) <==> m.UsesPrivateHalf() && !k.isPrivate
    ensures m.Encrypts() && (k.isPrivate || !m.UsesPrivateHalf()) ==> (r.Success? <==> |data| <= MaxMessage(k))
  {
    if m.UsesPrivateHalf() && !k.isPrivate then Failure(PrivateKeyNeeded)
    else match m
      case PrivateEncrypt =>
        if |data| > MaxMessage(k) then Failure(DataTooLarge) else Success(ops.privateEncrypt(k, data))
      case PublicEncrypt =>
        if |data| > MaxMessage(k) then Failure(DataTooLarge) else Success(ops.publicEncrypt(k, data))
      case PrivateDecrypt => Lift(ops.privateDecrypt(k, data))
      case PublicDecrypt => Lift(ops.publicDecrypt(k, data))
  }

  class Key {
    const rsa: RsaKey

    /** Key.new(pem): the key half the PEM text holds. */
    constructor (rsa: RsaKey)
      ensures this.rsa == rsa
    {
      this.rsa := rsa;
    }

    /** private_encrypt for a private key, public_encrypt otherwise. */
    function EncryptMethod(): (m: RsaMethod)
      ensures m.Encrypts()
      ensures m.UsesPrivateHalf() <==> rsa.isPrivate
    {
      if rsa.isPrivate then PrivateEncrypt else PublicEncrypt
    }

    /** private_decrypt for a private key, public_decrypt otherwise. */
    function DecryptMethod(): (m: RsaMethod)
      ensures !m.Encrypts()
      ensures m.UsesPrivateHalf() <==> rsa.isPrivate
    {
      if rsa.isPrivate then PrivateDecrypt else PublicDecrypt
    }

    /**
     * Encrypts with the operation matching the key half; fails only when the
     * text is too long for the modulus.
     */
    function Encrypt(ops: Rsa, text: Bytes): (r: Result<Bytes, Error>)
      ensures r.Success? <==> |text| <= MaxMessage(rsa)
      ensures r.Failure? ==> r.error == DataTooLarge
      ensures r.Success? ==> r.value == if rsa.isPrivate then ops.privateEncrypt(rsa, text) else ops.publicEncrypt(rsa, text)
    {
      Send(ops, rsa, EncryptMethod(), text)
    }

    /** Decrypts with the operation matching the key half; never asks a public key for a private operation. */
    function Decrypt(ops: Rsa, data: Bytes): (r: Result<Bytes, Error>)
      ensures r.Failure? ==> r.error == RsaDecryptFailed
      ensures r.Success? ==> Some(r.value) == if rsa.isPrivate then ops.privateDecrypt(rsa, data) else ops.publicDecrypt(rsa, data)
      ensures (if rsa.isPrivate then ops.privateDecrypt(rsa, data) else ops.publicDecrypt(rsa, data)).Some? ==> r.Success?
    {
      Send(ops, rsa, DecryptMethod(), data)
    }

    /**
     * body_and_header_from_text for a fresh CipherText whose random key and
     * IV are randomKey and randomIv. It succeeds exactly when the text is
     * not empty and the modulus can hold a 16-byte secret; the header then
     * has exactly the entries 'key' and 'iv', each the packed text of that
     * secret encrypted with this key.
     */
    function Sealed(p: Primitives, text: Bytes, randomKey: Bytes, randomIv: Bytes): (r: Result<(Bytes, Header), Error>)
      requires |randomKey| == KeyLength && |randomIv| == IvLength
      ensures r.Success? <==> text != [] && KeyLength <= MaxMessage(rsa)
      ensures text == [] ==> r == Failure(Cipher(EmptyData))
      ensures r.Success? ==> r.value.1.Keys == {"key", "iv"}
      ensures r.Success? ==> r.value.1["key"] == Unpack(Encrypt(p.rsa, randomKey).value)
      ensures r.Success? ==> r.value.1["iv"] == Unpack(Encrypt(p.rsa, randomIv).value)
      ensures r.Success? ==> r.value.0 == p.base64.encode(p.aes.encrypt(randomKey, randomIv, text))
    {
      var c := Enciphered(p.aes, randomKey, randomIv, text);
      if c.Failure? then Failure(Cipher(c.error))
      else
        var wrappedKey := Encrypt(p.rsa, randomKey);
        if wrappedKey.Failure? then Failure(wrappedKey.error)
        else
          match Encrypt(p.rsa, randomIv)
          case Failure(e) => Failure(e)
          case Success(wrappedIv) => Success((p.base64.encode(c.value), map["key" := Unpack(wrappedKey.value), "iv" := Unpack(wrappedIv)]))
    }

    /**
     * text_from_body_and_header: decrypt the unpacked 'key' and 'iv' entries
     * with this key, then decipher the Base64-decoded body with them.
     */
    function Opened(p: Primitives, body: Bytes, header: Header): (r: Result<Bytes, Error>)
      ensures r.Success? ==> "key" in header && "iv" in header
      ensures "key" !in header ==> r == Failure(MissingHeader("key"))
    {
      if "key" !in header then Failure(MissingHeader("key"))
      else
        var key := Decrypt(p.rsa, Pack(header["key"]));
        if key.Failure? then Failure(key.error)
        else if "iv" !in header then Failure(MissingHeader("iv"))
        else
          var iv := Decrypt(p.rsa, Pack(header["iv"]));
          if iv.Failure? then Failure(iv.error)
          else
            var plain := Deciphered(p.aes, Some(key.value), Some(iv.value), Some(p.base64.decode(body)));
            if plain.Failure? then Failure(Cipher(plain.error)) else Success(plain.value)
    }

    /** body_and_header_from_object: seal the object's JSON text. */
    function SealedObject(p: Primitives, json: JsonCodec, value: Json, randomKey: Bytes, randomIv: Bytes): (r: Result<(Bytes, Header), Error>)
      requires |randomKey| == KeyLength && |randomIv| == IvLength
      ensures JsonSound(json) ==> (r.Success? <==> KeyLength <= MaxMessage(rsa))
    {
      Sealed(p, json.generate(value), randomKey, randomIv)
    }

    /** object_from_request and object_from_response: open the envelope and parse the JSON text inside. */
    function OpenedObject(p: Primitives, json: JsonCodec, body: Bytes, header: Header): (r: Result<Json, Error>)
      ensures r.Success? ==> Opened(p, body, header).Success? && json.parse(Opened(p, body, header).value) == Some(r.value)
      ensures Opened(p, body, header).Success? && json.parse(Opened(p, body, header).value).Some? ==> r.Success?
      ensures Opened(p, body, header).Failure? ==> r == Failure(Opened(p, body, header).error)
    {
      var text := Opened(p, body, header);
      if text.Failure? then Failure(text.error)
      else match json.parse(text.value)
        case None => Failure(BadJson)
        case Some(v) => Success(v)
    }

    /** body_and_header_from_text, step by step through a new CipherText. */
    method BodyAndHeaderFromText(p: Primitives, text: Bytes, randomKey: Bytes, randomIv: Bytes) returns (r: Result<(Bytes, Header), Error>)
      requires |randomKey| == KeyLength && |randomIv| == IvLength
      ensures r == Sealed(p, text, randomKey, randomIv)
    {
      var cipherText := new CipherText();
      var c := cipherText.Encipher(p.aes, text, randomKey, randomIv);
      if c.Failure? {
        return Failure(Cipher(c.error));
      }
      var wrappedKey := Encrypt(p.rsa, cipherText.key.value);
      if wrappedKey.Failure? {
        return Failure(wrappedKey.error);
      }
      match Encrypt(p.rsa, cipherText.iv.value)
      case Failure(e) =>
        return Failure(e);
      case Success(wrappedIv) =>
        r := Success((p.base64.encode(cipherText.text.value), map["key" := Unpack(wrappedKey.value), "iv" := Unpack(wrappedIv)]));
    }

    /** text_from_body_and_header, assigning the fields of a new CipherText one by one. */
    method TextFromBodyAndHeader(p: Primitives, body: Bytes, header: Header) returns (r: Result<Bytes, Error>)
      ensures r == Opened(p, body, header)
    {
      var cipherText := new CipherText();
      if "key" !in header {
        return Failure(MissingHeader("key"));
      }
      var key := Decrypt(p.rsa, Pack(header["key"]));
      if key.Failure? {
        return Failure(key.error);
      }
      cipherText.key := Some(key.value);
      if "iv" !in header {
        return Failure(MissingHeader("iv"));
      }
      var iv := Decrypt(p.rsa, Pack(header["iv"]));
      if iv.Failure? {
        return Failure(iv.error);
      }
      cipherText.iv := Some(iv.value);
      cipherText.text := Some(p.base64.decode(body));
      var plain := cipherText.Decipher(p.aes);
      if plain.Failure? {
        return Failure(Cipher(plain.error));
      }
      r := Success(plain.value);
    }

    /** body_and_header_from_object. */
    method BodyAndHeaderFromObject(p: Primitives, json: JsonCodec, value: Json, randomKey: Bytes, randomIv: Bytes) returns (r: Result<(Bytes, Header), Error>)
      requires |randomKey| == KeyLength && |randomIv| == IvLength
      ensures r == SealedObject(p, json, value, randomKey, randomIv)
    {
      r := BodyAndHeaderFromText(p, json.generate(value), randomKey, randomIv);
    }

    /** object_from_request / object_from_response. */
    method ObjectFromBodyAndHeader(p: Primitives, json: JsonCodec, body: Bytes, header: Header) returns (r: Result<Json, Error>)
      ensures r == OpenedObject(p, json, body, header)
    {
      var text := TextFromBodyAndHeader(p, body, header);
      if text.Failure? {
        return Failure(text.error);
      }
      var parsed := json.parse(text.value);
      if parsed.None? {
        return Failure(BadJson);
      }
      r := Success(parsed.value);
    }
  }

  /**
   * A secret wrapped by one half of a key pair and packed comes back when the
   * other half unpacks and decrypts it, provided the modulus length is a
   * multiple of 4 (true of every 1024- or 2048-bit key).
   */
  lemma UnwrapWrapped(sender: Key, receiver: Key, ops: Rsa, secret: Bytes)
    requires RsaSound(ops)
    requires Halves(sender.rsa, receiver.rsa)
    requires sender.rsa.modulusBytes % 4 == 0
    requires |secret| <= MaxMessage(sender.rsa)
    ensures receiver.Decrypt(ops, Pack(Unpack(sender.Encrypt(ops, secret).value))) == Success(secret)
  {
    var wrapped := sender.Encrypt(ops, secret).value;
    assert |wrapped| == sender.rsa.modulusBytes;
    PackUnpack(wrapped);
    assert Pack(Unpack(wrapped)) == wrapped;
  }

  /**
   * The envelope round trip: what one half of a key pair seals, the other
   * half opens to the original text, for every non-empty text and every
   * random key and IV.
   */
  lemma SealOpen(sender: Key, receiver: Key, p: Primitives, text: Bytes, randomKey: Bytes, randomIv: Bytes)
    requires Sound(p)
    requires Halves(sender.rsa, receiver.rsa)
    requires sender.rsa.modulusBytes % 4 == 0 && KeyLength <= MaxMessage(sender.rsa)
    requires |randomKey| == KeyLength && |randomIv| == IvLength
    requires text != []
    ensures sender.Sealed(p, text, randomKey, randomIv).Success?
    ensures var sealed := sender.Sealed(p, text, randomKey, randomIv).value;
      receiver.Opened(p, sealed.0, sealed.1) == Success(text)
  {
    UnwrapWrapped(sender, receiver, p.rsa, randomKey);
    UnwrapWrapped(sender, receiver, p.rsa, randomIv);
    DecipherEncipher(p.aes, randomKey, randomIv, text);
  }

  /** The same round trip for JSON objects: the receiver parses exactly the object the sender serialised. */
  lemma SealOpenObject(sender: Key, receiver: Key, p: Primitives, json: JsonCodec, value: Json, randomKey: Bytes, randomIv: Bytes)
    requires Sound(p) && JsonSound(json)
    requires Halves(sender.rsa, receiver.rsa)
    requires sender.rsa.modulusBytes % 4 == 0 && KeyLength <= MaxMessage(sender.rsa)
    requires |randomKey| == KeyLength && |randomIv| == IvLength
    ensures sender.SealedObject(p, json, value, randomKey, randomIv).Success?
    ensures var sealed := sender.SealedObject(p, json, value, randomKey, randomIv).value;
      receiver.OpenedObject(p, json, sealed.0, sealed.1) == Success(value)
  {
    SealOpen(sender, receiver, p, json.generate(value), randomKey, randomIv);
  }
}
