/**
 * PejRPC::CipherText: the key, initialisation vector and cipher text of one
 * message, enciphered and deciphered with aes-128-cbc.
 */
module Session {
  import opened Wrappers
  import opened Words
  import opened Crypto

  /** What OpenSSL raises while a cipher is set up or run. */
  datatype CipherError =
    | KeyNotSet     // cipher.key = nil
    | IvNotSet      // cipher.iv = nil
    | TextNotSet    // cipher.update(nil)
    | BadKeyLength  // cipher.key = a key that is not 16 bytes
    | BadIvLength   // cipher.iv = an IV that is not 16 bytes
    | EmptyData     // cipher.update('') raises "data must not be empty"
    | BadDecrypt    // cipher.final rejects the padding

  /** Enciphering plain under a key and IV that are already fixed. */
  function Enciphered(aes: Aes, key: Bytes, iv: Bytes, plain: Bytes): (r: Result<Bytes, CipherError>)
    ensures r.Success? <==> |key| == KeyLength && |iv| == IvLength && plain != []
  {
    if |key| != KeyLength then Failure(BadKeyLength)
    else if |iv| != IvLength then Failure(BadIvLength)
    else if plain == [] then Failure(EmptyData)
    else Success(aes.encrypt(key, iv, plain))
  }

  /** Deciphering the stored text with the stored key and IV, each of which may be unset. */
  function Deciphered(aes: Aes, key: Option<Bytes>, iv: Option<Bytes>, text: Option<Bytes>): (r: Result<Bytes, CipherError>)
    ensures r.Success? ==> key.Some? && |key.value| == KeyLength && iv.Some? && |iv.value| == IvLength
    ensures r.Success? ==> text.Some? && text.value != [] && aes.decrypt(key.value, iv.value, text.value) == Some(r.value)
    ensures (key.Some? && |key.value| == KeyLength && iv.Some? && |iv.value| == IvLength && text.Some? && text.value != []
      && aes.decrypt(key.value, iv.value, text.value).Some?) ==> r.Success?
  {
    if key.None? then Failure(KeyNotSet)
    else if |key.value| != KeyLength then Failure(BadKeyLength)
    else if iv.None? then Failure(IvNotSet)
    else if |iv.value| != IvLength then Failure(BadIvLength)
    else if text.None? then Failure(TextNotSet)
    else if text.value == [] then Failure(EmptyData)
    else match aes.decrypt(key.value, iv.value, text.value)
      case None => Failure(BadDecrypt)
      case Some(plain) => Success(plain)
  }

  /** Whatever enciphering produced, deciphering with the same key and IV gives back. */
  lemma DecipherEncipher(aes: Aes, key: Bytes, iv: Bytes, plain: Bytes)
    requires AesSound(aes)
    requires Enciphered(aes, key, iv, plain).Success?
    ensures Deciphered(aes, Some(key), Some(iv), Some(Enciphered(aes, key, iv, plain).value)) == Success(plain)
  {
    var c := aes.encrypt(key, iv, plain);
    assert |c| == (|plain| / BlockLength + 1) * BlockLength;
  }

  class CipherText {
    var key: Option<Bytes>
    var iv: Option<Bytes>
    var text: Option<Bytes>

    /** CipherText.new: nothing assigned yet. */
    constructor ()
      ensures key == None && iv == None && text == None
    {
      key, iv, text := None, None, None;
    }

    /**
     * Enciphers plain. A key or IV already assigned is kept; an unset one
     * takes the random value OpenSSL supplies. The text is replaced only when
     * enciphering succeeds.
     */
    method Encipher(aes: Aes, plain: Bytes, randomKey: Bytes, randomIv: Bytes) returns (r: Result<Bytes, CipherError>)
      requires |randomKey| == KeyLength && |randomIv| == IvLength
      modifies this
      ensures old(key).Some? ==> key == old(key)
      ensures old(key).None? ==> key == Some(randomKey)
      ensures old(iv).Some? ==> iv == old(iv)
      ensures old(iv).None? ==> iv == Some(randomIv)
      ensures r == Enciphered(aes, key.value, iv.value, plain)
      ensures text == if r.Success? then Some(r.value) else old(text)
    {
      if key.None? {
        key := Some(randomKey);
      }
      if iv.None? {
        iv := Some(randomIv);
      }
      if |key.value| != KeyLength {
        return Failure(BadKeyLength);
      }
      if |iv.value| != IvLength {
        return Failure(BadIvLength);
      }
      if plain == [] {
        return Failure(EmptyData);
      }
      var c := aes.encrypt(key.value, iv.value, plain);
      text := Some(c);
      r := Success(c);
    }

    /** Deciphers the stored text with the stored key and IV; changes nothing. */
    method Decipher(aes: Aes) returns (r: Result<Bytes, CipherError>)
      ensures r == Deciphered(aes, key, iv, text)
    {
      if key.None? {
        return Failure(KeyNotSet);
      }
      if |key.value| != KeyLength {
        return Failure(BadKeyLength);
      }
      if iv.None? {
        return Failure(IvNotSet);
      }
      if |iv.value| != IvLength {
        return Failure(BadIvLength);
      }
      if text.None? {
        return Failure(TextNotSet);
      }
      if text.value == [] {
        return Failure(EmptyData);
      }
      var plain := aes.decrypt(key.value, iv.value, text.value);
      if plain.None? {
        return Failure(BadDecrypt);
      }
      r := Success(plain.value);
    }
  }

  /**
   * The documented use of CipherText: encipher a text in a new object, then
   * decipher it with the key and IV the object kept. Every non-empty text
   * comes back; an empty one is refused by OpenSSL.
   */
  method EncipherThenDecipher(aes: Aes, plain: Bytes, randomKey: Bytes, randomIv: Bytes) returns (r: Result<Bytes, CipherError>)
    requires AesSound(aes)
    requires |randomKey| == KeyLength && |randomIv| == IvLength
    ensures plain != [] ==> r == Success(plain)
    ensures plain == [] ==> r == Failure(EmptyData)
  {
    var cipherText := new CipherText();
    var c := cipherText.Encipher(aes, plain, randomKey, randomIv);
    if c.Failure? {
      return Failure(c.error);
    }
    DecipherEncipher(aes, randomKey, randomIv, plain);
    r := cipherText.Decipher(aes);
  }
}
