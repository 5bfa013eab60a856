# pejrpc envelope, modelled in Dafny

pejrpc carries JSON-RPC 2.0 calls over HTTP inside a hybrid envelope. For each message a fresh AES-128-CBC key and IV encipher the JSON text. The body is the Base64 of that ciphertext. The key and IV are wrapped with one half of an RSA key pair, and each wrapped value is written into an HTTP header as colon-separated base-36 numerals of its 32-bit big-endian words. The receiver holds the other half of the pair: it unpacks and unwraps the key and IV, then deciphers the body.

This project models that core (`lib/pejrpc.rb`): `CipherText`, `Key` with its word packing and envelope, the request-object and status rules of `Client#post`, and `Server#handle`. It also models the older unencrypted client (`lib/pej-rpc.rb`) and `ConnectionError` (`lib/pejrpc/exceptions.rb`).

Layout, leaves first:

- `wrappers.dfy`: `Option` (nil) and `Result` (raised exceptions as values).
- `words.dfy`: bytes and `unpack('N*')` / `pack('N*')`.
- `radix36.dfy`: `Integer#to_s(36)` and `String#to_i(36)`.
- `ruby_strings.dfy`: `Array#join`, `String#split`, `String#strip`.
- `word_packing.dfy`: `Key#unpack` and `Key#pack`.
- `crypto.dfy`: AES-128-CBC, RSA PKCS#1 v1.5 and Base64 as records of functions. Ghost predicates (`AesSound`, `RsaSound`, `Base64Sound`) state their laws.
- `json.dfy`: JSON values and an abstract `to_json` / `JSON.parse` with its law `JsonSound`.
- `cipher_text.dfy`: the `CipherText` class.
- `envelope.dfy`: the `Key` class and the seal/open round trip.
- `exceptions.dfy`: `ConnectionError`.
- `json_rpc.dfy`: the request object and status rule both clients share.
- `rpc.dfy`: `Client` and `Server` of `lib/pejrpc.rb`.
- `legacy_rpc.dfy`: `Client` of `lib/pej-rpc.rb`.

The laws of the primitives are hypotheses, not axioms. Every lemma that uses one takes it as a `requires`. The laws are:

- AES decrypts what it encrypted with the same 16-byte key and IV.
- AES padding fills whole 16-byte blocks.
- An RSA ciphertext is k bytes long, where k is the modulus length.
- The opposite half of the key pair recovers any message of at most k - 11 bytes.
- Base64 decoding inverts encoding.
- JSON parsing inverts generation, and a JSON text is never empty.

Randomness (`random_key`, `random_iv`) enters as method parameters. These values are used only when the field is unset.

Behaviour of the code worth knowing:

- `Cipher#update` raises on empty data, so enciphering the empty text fails (`Failure(EmptyData)`). The round trip therefore holds for every non-empty text.
- The source's `unpack` turns bytes into text and `pack` turns text into bytes. The model keeps the source's names.
- `unpack('N*')` silently drops 1 to 3 trailing bytes instead of refusing them. `WordPacking.PackUnpack` proves exactly what comes back.
- The cipher is AES-128 in CBC mode.
- A response whose status line has no reason phrase answers `message` with nil, so `ConnectionError#to_s` raises on `strip`. `Exceptions.Message` is `None` there.
- Nothing detects tampering. CBC without a MAC can decrypt a modified body to other plaintext, so no tamper property is claimed.
- The envelope opens only between opposite halves of a key pair. If both ends hold the private key, the sender uses `private_encrypt` and the receiver uses `private_decrypt`, which do not invert each other. `Crypto.Halves` states this requirement.
- The older client Base64-encodes its request but parses the response body as plain JSON.

## Model

| member | source | states |
|---|---|---|
| Words.ReadWordsAt | lib/pejrpc.rb:105 | `unpack('N*')` gives one word per complete group of four bytes; word i is bytes 4i..4i+3 read big-endian and is below 2^32 |
| Words.WriteWordsAt | lib/pejrpc.rb:109 | `pack('N*')` writes integer i at bytes 4i..4i+3 as its low 32 bits, big-endian |
| Words.WordBytesOf | lib/pejrpc.rb:105-109 | writing a word read from four bytes gives those four bytes back |
| Words.WriteReadWords | lib/pejrpc.rb:105-109 | `pack('N*')` after `unpack('N*')` reproduces the data without its 1 to 3 trailing bytes |
| Radix36.ToBase36 | lib/pejrpc.rb:105 | `to_s(36)` writes a non-empty numeral of lower-case base-36 digits with no leading zero |
| Radix36.LeadingDigits | lib/pejrpc.rb:109 | `to_i(36)` reads the longest prefix of base-36 digits and ignores the rest |
| Radix36.ValueOfToBase36 | lib/pejrpc.rb:105-109 | the digits `to_s(36)` writes have the number as their value |
| Radix36.ToIOfToBase36 | lib/pejrpc.rb:105-109 | `to_i(36)` inverts `to_s(36)` |
| RubyStrings.DropTrailingEmpty | lib/pejrpc.rb:109 | `split` keeps the leading fields and drops only the empty fields at the end |
| RubyStrings.SplitJoin | lib/pejrpc.rb:105-109 | `split(':')` inverts `join(':')` for colon-free parts whose last part is not empty |
| RubyStrings.JoinMember | lib/pejrpc.rb:105 | every character of a joined string is the separator or a character of a part |
| RubyStrings.Strip | lib/pejrpc/exceptions.rb:12 | `strip` returns a slice of the message with whitespace neither at its start nor its end, and everything cut off is whitespace |
| WordPacking.UnpackTokens | lib/pejrpc.rb:101-106 | `unpack` writes exactly len/4 `:`-separated tokens; token i is the lower-case base-36 numeral of word i, a value below 2^32 |
| WordPacking.Unpack | lib/pejrpc.rb:104-106 | `unpack` writes the complete 32-bit words as base-36 numerals joined with `:`; its text uses only `[0-9a-z:]`, and data shorter than one word gives `""` |
| WordPacking.Pack | lib/pejrpc.rb:108-110 | `pack` returns 4 bytes per `:`-separated token (trailing empty fields dropped), in token order, each the low 32 bits of the token's base-36 value, big-endian |
| WordPacking.PackUnpack | lib/pejrpc.rb:101-110 | `pack(unpack(d)) == d` when the length of d is a multiple of 4; otherwise the trailing 1 to 3 bytes are lost |
| Session.Enciphered | lib/pejrpc.rb:46-51 | with the key and IV fixed, enciphering succeeds exactly when both are 16 bytes and the text is not empty |
| Session.Deciphered | lib/pejrpc.rb:54-64 | deciphering succeeds exactly when the key and IV are 16 bytes and the stored text is non-empty and AES decrypts it, and the result is that decryption |
| Session.DecipherEncipher | lib/pejrpc.rb:24-30 | deciphering with the same key and IV gives back what enciphering was given |
| Session.CipherText.constructor | lib/pejrpc.rb:32-33 | a new CipherText has no key, IV or text |
| Session.CipherText.Encipher | lib/pejrpc.rb:39-52 | a key or IV already set is kept; an unset one takes the random value; text becomes the ciphertext under the final key and IV, and stays unchanged on failure |
| Session.CipherText.Decipher | lib/pejrpc.rb:54-64 | deciphers the stored text with the stored key and IV, failing on each unset or wrongly sized field, and changes nothing |
| Session.EncipherThenDecipher | lib/pejrpc.rb:16-30 | a new CipherText that enciphers a non-empty text deciphers it back; the empty text is refused |
| Envelope.Send | lib/pejrpc.rb:93-99 | a private operation on a public key fails; an encryption fails exactly when the data is longer than k - 11 bytes |
| Envelope.Key.constructor | lib/pejrpc.rb:73-75 | the key holds the RSA half it was loaded with |
| Envelope.Key.EncryptMethod | lib/pejrpc.rb:85-87 | the encryption method is the private one exactly when the key is private |
| Envelope.Key.DecryptMethod | lib/pejrpc.rb:89-91 | the decryption method is the private one exactly when the key is private |
| Envelope.Key.Encrypt | lib/pejrpc.rb:93-95 | `private_encrypt` for a private key, `public_encrypt` otherwise; fails only with data too large for the key |
| Envelope.Key.Decrypt | lib/pejrpc.rb:97-99 | `private_decrypt` for a private key, `public_decrypt` otherwise; it succeeds exactly when that operation yields a plaintext, which is the result, and fails only with `RsaDecryptFailed` |
| Envelope.Key.Sealed | lib/pejrpc.rb:113-117 | sealing succeeds exactly for a non-empty text and a modulus that fits the secret; the header has exactly `'key'` and `'iv'`, each `unpack(encrypt(secret))`, and the body is Base64 of the ciphertext |
| Envelope.Key.Opened | lib/pejrpc.rb:120-126 | opening needs both `'key'` and `'iv'` entries and fails on a missing `'key'` |
| Envelope.Key.SealedObject | lib/pejrpc.rb:140-142 | sealing an object's JSON text succeeds exactly when the modulus fits the secret |
| Envelope.Key.OpenedObject | lib/pejrpc.rb:129-138 | the object is what JSON parsing makes of the opened text; it succeeds whenever opening succeeds and the text parses, and a failed opening passes its error on unchanged |
| Envelope.Key.BodyAndHeaderFromText | lib/pejrpc.rb:113-117 | seals through a new CipherText as `Sealed` describes |
| Envelope.Key.TextFromBodyAndHeader | lib/pejrpc.rb:120-126 | assigns a new CipherText's key, IV and text one by one and deciphers, as `Opened` describes |
| Envelope.Key.BodyAndHeaderFromObject | lib/pejrpc.rb:140-142 | seals the object's JSON text as `SealedObject` describes |
| Envelope.Key.ObjectFromBodyAndHeader | lib/pejrpc.rb:129-138 | opens and parses as `OpenedObject` describes |
| Envelope.UnwrapWrapped | lib/pejrpc.rb:116-123 | a secret wrapped and packed by one half of a pair is unpacked and unwrapped by the other half, for a modulus length that is a multiple of 4 |
| Envelope.SealOpen | lib/pejrpc.rb:112-126 | what one half of a key pair seals, the other half opens to the original text |
| Envelope.SealOpenObject | lib/pejrpc.rb:128-142 | the receiving half parses exactly the object the sending half serialised |
| Exceptions.ConnectionError.constructor | lib/pejrpc/exceptions.rb:5-7 | the error keeps the response unchanged |
| Exceptions.Message | lib/pejrpc/exceptions.rb:9-14 | `to_s` raises exactly when the message is nil; otherwise the text starts with `"Failed."`, `" Response code <code>."` follows iff the response has a code (nil shown as empty), `" <stripped message>."` ends it iff it has a message, and nothing else is added |
| Exceptions.MessageOfTexts | lib/pejrpc/exceptions.rb:9-14 | with a code and a string message the whole text is `"Failed. Response code <code>. <stripped message>."` |
| Exceptions.ConnectionError.ToS | lib/pejrpc/exceptions.rb:9-14 | appending the clauses in turn yields exactly `Message` of the response, raising on a nil message |
| JsonRpc.RequestObject | lib/pejrpc.rb:194-195 | the request object has `method` as a string and `jsonrpc` `"2.0"`, and `params` exactly when params is truthy, never null |
| JsonRpc.Status | lib/pejrpc.rb:204 | `code.to_i` of a three-digit status code is its decimal value, and a code that does not start with a digit reads as 0 |
| JsonRpc.Accepted | lib/pejrpc.rb:205 | `when 200...400` accepts, among three-digit codes, exactly the 2xx and 3xx classes; 400 is excluded |
| JsonRpc.Raised | lib/pejrpc.rb:204-209 | the error raised for a rejected status reads `"Failed. Response code <code>. <stripped reason>."`, and its `to_s` raises when the response has no reason phrase |
| Rpc.Client.constructor | lib/pejrpc.rb:185-188 | the client holds the key it was given |
| Rpc.Client.Post | lib/pejrpc.rb:193-213 | sends the sealed request object; a status outside 200...400 (400 excluded) raises ConnectionError whatever the body; otherwise the response is opened and parsed |
| Rpc.Server.constructor | lib/pejrpc.rb:149-152 | the server holds the key it was given |
| Rpc.Server.Handled | lib/pejrpc.rb:170-174 | a handled request opened to a JSON object, and the delegate answered for its `method` and `params` entries (nil when absent) |
| Rpc.Server.Handle | lib/pejrpc.rb:170-174 | opens the request, sends its `method` and `params` to the delegate and seals the answer, as `Handled` describes |
| Rpc.CallReachesDelegate | lib/pejrpc.rb:170-213 | between opposite key halves the delegate receives the client's method name and params (nil when none were sent), and the client opens the reply to exactly the delegate's answer |
| LegacyRpc.RequestBody | lib/pej-rpc.rb:26 | the request body is the Base64 of the request object's JSON text and nothing else: decoding and parsing it gives the request object back |
| LegacyRpc.Client.Post | lib/pej-rpc.rb:20-39 | sends the encoded request object; a status outside 200...400 raises ConnectionError without parsing the body; otherwise the body is parsed as JSON |

## Left out

- OpenSSL's AES-CBC and RSA, the Base64 library and the JSON library are abstract functions. Their laws are preconditions of the lemmas that use them. `Cipher#update` and `Cipher#final` are one `encrypt`/`decrypt` call.
- The random key and IV are parameters. Freshness across calls is probabilistic and is not modelled.
- No property says that a tampered body or header fails to open. CBC without a MAC does not promise it.
- PEM loading: `Envelope.Key.constructor` takes the loaded RSA key half.
- Transport: Net::HTTP, `Addressable::URI` and the Rails request/response adapters. The HTTP exchange is a function parameter from request body (and headers) to response.
- Header names are compared exactly. Rails and Net::HTTP compare them without regard to case.
- Key and IV lengths follow current openssl gem behaviour: exactly 16 bytes, or the assignment raises. Older versions truncated longer keys.
- Radix36.ToI: leading whitespace, a sign and underscores, which Ruby's `to_i(36)` accepts, are not modelled. Such a token reads as 0 or stops early here.
- JsonRpc.Status: only the leading decimal digits of the status code are read. Whitespace, a sign and underscores are not modelled.
- RubyStrings.Strip: null counts as whitespace at both ends. Some Ruby versions strip null only at the end.
- Rpc.Server.Handled: a request that parses to a JSON value other than an object fails as `NotAnObject`. Ruby would index that value anyway. The delegate's `send` is a function parameter whose `None` stands for a raised exception.
- JSON values are modelled with integer numbers only, and objects are unordered maps, so floats and key order are not modelled. `method.to_s` is taken as already a string.
- `lib/pej-rpc/exceptions.rb`, required by `lib/pej-rpc.rb`, is not part of this model. Its `ConnectionError` is taken to be the one in `lib/pejrpc/exceptions.rb`.
