/** The field cipher and key wrapping of `src/lib/crypto.ts`.

    The cryptographic primitives (AES-256-GCM, PBKDF2-HMAC-SHA256) and the
    JavaScript number/text conversions are foreign code.  They enter the model
    as a `Primitives` value of functions; the properties the design relies on
    are the predicate `Sound`, which the lemmas take as a hypothesis.  Everything
    built on top of them (framing, base 64, splitting, key handling, the legacy
    rules of the field codec) is modelled and verified here. */
module Crypto {
  import opened Wrappers
  import opened Strings
  import Base64
  import Hex

  const Pbkdf2Iterations: nat := 100000
  /** 256-bit keys. */
  const KeyLength: nat := 32
  /** 96-bit GCM nonces. */
  const IvLength: nat := 12
  /** 128-bit GCM authentication tags. */
  const AuthTagLength: nat := 16
  /** Separates the three base 64 segments of a ciphertext. */
  const Delimiter: char := ':'

  /** A JavaScript number as the actions use it: an amount or a balance, in the
      smallest unit of its currency (grosze for the złoty).  The integers are
      exact under the sums and differences the actions compute. */
  type Number = int

  datatype CryptoError =
    | InvalidEncryptedFormat   // `decrypt` did not find three segments
    | InvalidKeyLength         // Node's cipher refuses a key that is not 32 bytes
    | DecryptionFailed         // the GCM tag did not verify (wrong key or altered data)
    | CookieSecretMissing      // `COOKIE_SECRET` is unset or empty

  /** What the GCM cipher produces: the authentication tag and the encrypted body. */
  datatype Sealed = Sealed(tag: seq<byte>, body: seq<byte>)

  /** The foreign functions: `seal(key, iv, plaintext)` and
      `open(key, iv, tag, body)` are AES-256-GCM (UTF-8 encoding of the plaintext
      included), `pbkdf2(password, salt, iterations, length)` is
      PBKDF2-HMAC-SHA256, and `numberToString` and `parseFloat` are JavaScript's
      `Number.prototype.toString` and `parseFloat`. */
  datatype Primitives = Primitives(
    seal: (seq<byte>, seq<byte>, string) -> Sealed,
    open: (seq<byte>, seq<byte>, seq<byte>, seq<byte>) -> Option<string>,
    pbkdf2: (string, seq<byte>, nat, nat) -> seq<byte>,
    numberToString: Number -> string,
    parseFloat: string -> Number)

  /** GCM under a 256-bit key: a 16-byte tag, and opening with the same key and
      nonce gives back the plaintext (NIST SP 800-38D). */
  ghost predicate AeadCorrect(p: Primitives) {
    forall key, iv, m :: |key| == KeyLength ==>
      && |p.seal(key, iv, m).tag| == AuthTagLength
      && p.open(key, iv, p.seal(key, iv, m).tag, p.seal(key, iv, m).body) == Some(m)
  }

  /** Opening with another key fails: the tag does not verify. */
  ghost predicate AeadRejectsOtherKeys(p: Primitives) {
    forall k1, k2, iv, m :: |k1| == KeyLength && |k2| == KeyLength && k1 != k2 ==>
      p.open(k2, iv, p.seal(k1, iv, m).tag, p.seal(k1, iv, m).body) == None
  }

  /** PBKDF2 yields as many bytes as asked for (section 5.2 of RFC 8018).  It is
      deterministic because it is a function. */
  ghost predicate KdfLength(p: Primitives) {
    forall password, salt, iterations, length ::
      |p.pbkdf2(password, salt, iterations, length)| == length
  }

  /** `parseFloat(v.toString()) === v` */
  ghost predicate NumberTextRoundTrip(p: Primitives) {
    forall v :: p.parseFloat(p.numberToString(v)) == v
  }

  ghost predicate Sound(p: Primitives) {
    AeadCorrect(p) && AeadRejectsOtherKeys(p) && KdfLength(p) && NumberTextRoundTrip(p)
  }

  /** A stream of random bytes: what `crypto.randomBytes` would return. */
  type Entropy = nat -> byte

  /** `crypto.randomBytes(n)`, drawn from the stream `e`. */
  function RandomBytes(e: Entropy, n: nat): (r: seq<byte>)
    ensures |r| == n
    ensures forall i :: 0 <= i < n ==> r[i] == e(i)
  {
    seq(n, i requires 0 <= i => e(i))
  }

  // --- Key derivation ---

  /** `deriveKEK(password, salt)` */
  function DeriveKek(p: Primitives, password: string, salt: seq<byte>): (kek: seq<byte>)
    ensures KdfLength(p) ==> |kek| == KeyLength
  {
    p.pbkdf2(password, salt, Pbkdf2Iterations, KeyLength)
  }

  // --- AES-256-GCM encryption and decryption ---

  /** The wire format `iv:authTag:ciphertext`. */
  function Frame(iv: string, tag: string, body: string): string {
    iv + [Delimiter] + tag + [Delimiter] + body
  }

  /** A frame of delimiter-free segments splits back into its segments. */
  lemma FrameSplit(iv: string, tag: string, body: string)
    requires Delimiter !in iv && Delimiter !in tag && Delimiter !in body
    ensures Split(Frame(iv, tag, body), Delimiter) == [iv, tag, body]
    ensures Count(Frame(iv, tag, body), Delimiter) == 2
  {
    var parts := [iv, tag, body];
    assert Join(parts[2..], Delimiter) == body;
    assert Join(parts[1..], Delimiter) == tag + [Delimiter] + body;
    assert Join(parts, Delimiter) == Frame(iv, tag, body);
    SplitJoin(parts, Delimiter);
  }

  /** `encrypt(plaintext, key)`, with the nonce drawn from `e`. */
  function Encrypt(p: Primitives, plaintext: string, key: seq<byte>, e: Entropy): (r: Result<string, CryptoError>)
    ensures r.Success? <==> |key| == KeyLength
    ensures r.Success? ==> Delimiter in r.value
    ensures r.Success? ==> Count(r.value, Delimiter) == 2
  {
    if |key| != KeyLength then Failure(InvalidKeyLength)
    else
      var iv := RandomBytes(e, IvLength);
      var sealed := p.seal(key, iv, plaintext);
      var ivText := Base64.Encode(iv);
      var frame := Frame(ivText, Base64.Encode(sealed.tag), Base64.Encode(sealed.body));
      assert frame[|ivText|] == Delimiter;
      Base64.EncodeAlphabet(iv);
      Base64.EncodeAlphabet(sealed.tag);
      Base64.EncodeAlphabet(sealed.body);
      FrameSplit(ivText, Base64.Encode(sealed.tag), Base64.Encode(sealed.body));
      Success(frame)
  }

  /** `decrypt(encryptedStr, key)` */
  function Decrypt(p: Primitives, ciphertext: string, key: seq<byte>): (r: Result<string, CryptoError>)
    ensures Count(ciphertext, Delimiter) != 2 ==> r == Failure(InvalidEncryptedFormat)
    ensures Count(ciphertext, Delimiter) == 2 && |key| != KeyLength ==> r == Failure(InvalidKeyLength)
  {
    var parts := Split(ciphertext, Delimiter);
    if |parts| != 3 then Failure(InvalidEncryptedFormat)
    else
      var iv, tag, body := Base64.Decode(parts[0]), Base64.Decode(parts[1]), Base64.Decode(parts[2]);
      if |key| != KeyLength then Failure(InvalidKeyLength)
      else
        match p.open(key, iv, tag, body)
        case Some(m) => Success(m)
        case None => Failure(DecryptionFailed)
  }

  /** Every ciphertext is three base 64 segments: a 12-byte nonce (16
      characters), a 16-byte tag (24 characters) and the body. */
  lemma EncryptWireFormat(p: Primitives, plaintext: string, key: seq<byte>, e: Entropy)
    requires AeadCorrect(p) && |key| == KeyLength
    ensures var parts := Split(Encrypt(p, plaintext, key, e).value, Delimiter);
      && |parts| == 3
      && |parts[0]| == 16 && Base64.Decode(parts[0]) == RandomBytes(e, IvLength)
      && |parts[1]| == 24 && |Base64.Decode(parts[1])| == AuthTagLength
  {
    var iv := RandomBytes(e, IvLength);
    var sealed := p.seal(key, iv, plaintext);
    EncryptSegments(p, plaintext, key, e);
    assert |sealed.tag| == AuthTagLength;
    SegmentLengths(iv, sealed.tag);
  }

  /** A 12-byte nonce and a 16-byte tag take 16 and 24 base 64 characters. */
  lemma SegmentLengths(iv: seq<byte>, tag: seq<byte>)
    requires |iv| == IvLength && |tag| == AuthTagLength
    ensures |Base64.Encode(iv)| == 16 && |Base64.Encode(tag)| == 24
  {
  }

  /** The segments of a ciphertext decode to the nonce, the tag and the body. */
  lemma EncryptSegments(p: Primitives, plaintext: string, key: seq<byte>, e: Entropy)
    requires |key| == KeyLength
    ensures var sealed := p.seal(key, RandomBytes(e, IvLength), plaintext);
      var parts := Split(Encrypt(p, plaintext, key, e).value, Delimiter);
      && parts == [Base64.Encode(RandomBytes(e, IvLength)), Base64.Encode(sealed.tag), Base64.Encode(sealed.body)]
      && Base64.Decode(parts[0]) == RandomBytes(e, IvLength)
      && Base64.Decode(parts[1]) == sealed.tag
      && Base64.Decode(parts[2]) == sealed.body
  {
    var iv := RandomBytes(e, IvLength);
    var sealed := p.seal(key, iv, plaintext);
    Base64.EncodeAlphabet(iv);
    Base64.EncodeAlphabet(sealed.tag);
    Base64.EncodeAlphabet(sealed.body);
    FrameSplit(Base64.Encode(iv), Base64.Encode(sealed.tag), Base64.Encode(sealed.body));
    Base64.DecodeEncode(iv);
    Base64.DecodeEncode(sealed.tag);
    Base64.DecodeEncode(sealed.body);
  }

  /** Round trip: `decrypt(encrypt(p, k), k) === p`. */
  lemma DecryptEncrypt(p: Primitives, plaintext: string, key: seq<byte>, e: Entropy)
    requires AeadCorrect(p) && |key| == KeyLength
    ensures Decrypt(p, Encrypt(p, plaintext, key, e).value, key) == Success(plaintext)
  {
    var iv := RandomBytes(e, IvLength);
    var sealed := p.seal(key, iv, plaintext);
    EncryptSegments(p, plaintext, key, e);
    assert p.open(key, iv, sealed.tag, sealed.body) == Some(plaintext);
  }

  /** Decrypting under another 256-bit key fails closed. */
  lemma DecryptOtherKey(p: Primitives, plaintext: string, key: seq<byte>, other: seq<byte>, e: Entropy)
    requires AeadRejectsOtherKeys(p)
    requires |key| == KeyLength && |other| == KeyLength && other != key
    ensures Decrypt(p, Encrypt(p, plaintext, key, e).value, other) == Failure(DecryptionFailed)
  {
    var iv := RandomBytes(e, IvLength);
    var sealed := p.seal(key, iv, plaintext);
    EncryptSegments(p, plaintext, key, e);
    assert p.open(other, iv, sealed.tag, sealed.body) == None;
  }

  // --- Key generation ---

  /** `generateDEK()` */
  function GenerateDek(e: Entropy): (dek: seq<byte>)
    ensures |dek| == KeyLength
  {
    RandomBytes(e, KeyLength)
  }

  /** `generateSalt()` */
  function GenerateSalt(e: Entropy): (salt: seq<byte>)
    ensures |salt| == KeyLength
  {
    RandomBytes(e, KeyLength)
  }

  // --- DEK wrapping under the KEK ---

  /** `encryptDEK(dek, kek)` */
  function EncryptDek(p: Primitives, dek: seq<byte>, kek: seq<byte>, e: Entropy): (r: Result<string, CryptoError>)
    ensures r.Success? <==> |kek| == KeyLength
    ensures r.Failure? ==> r.error == InvalidKeyLength
    ensures r.Success? ==> Count(r.value, Delimiter) == 2
  {
    Encrypt(p, Base64.Encode(dek), kek, e)
  }

  /** `decryptDEK(encryptedDek, kek)` */
  function DecryptDek(p: Primitives, wrapped: string, kek: seq<byte>): (r: Result<seq<byte>, CryptoError>)
    ensures Count(wrapped, Delimiter) != 2 ==> r == Failure(InvalidEncryptedFormat)
    ensures Count(wrapped, Delimiter) == 2 && |kek| != KeyLength ==> r == Failure(InvalidKeyLength)
    ensures r.Success? ==> Count(wrapped, Delimiter) == 2 && |kek| == KeyLength
  {
    var dekText :- Decrypt(p, wrapped, kek);
    Success(Base64.Decode(dekText))
  }

  /** Unwrapping under the wrapping KEK gives back the DEK. */
  lemma DecryptDekEncryptDek(p: Primitives, dek: seq<byte>, kek: seq<byte>, e: Entropy)
    requires AeadCorrect(p) && |kek| == KeyLength
    ensures EncryptDek(p, dek, kek, e).Success?
    ensures DecryptDek(p, EncryptDek(p, dek, kek, e).value, kek) == Success(dek)
  {
    DecryptEncrypt(p, Base64.Encode(dek), kek, e);
    Base64.DecodeEncode(dek);
  }

  /** Unwrapping under another KEK fails. */
  lemma DecryptDekOtherKek(p: Primitives, dek: seq<byte>, kek: seq<byte>, other: seq<byte>, e: Entropy)
    requires AeadRejectsOtherKeys(p)
    requires |kek| == KeyLength && |other| == KeyLength && other != kek
    ensures DecryptDek(p, EncryptDek(p, dek, kek, e).value, other) == Failure(DecryptionFailed)
  {
    DecryptOtherKey(p, Base64.Encode(dek), kek, other, e);
  }

  // --- DEK transport in the cookie, under COOKIE_SECRET ---

  /** `getCookieKey()`, given `process.env.COOKIE_SECRET`. */
  function GetCookieKey(secret: Option<string>): (r: Result<seq<byte>, CryptoError>)
    ensures r.Failure? <==> secret.None? || secret.value == ""
    ensures r.Failure? ==> r.error == CookieSecretMissing
    ensures r.Success? ==> |r.value| <= |secret.value| / 2
  {
    if secret.None? || secret.value == "" then Failure(CookieSecretMissing)
    else Success(Hex.Decode(secret.value))
  }

  /** A secret that is the hexadecimal form of 32 bytes is loaded as those bytes. */
  lemma CookieKeyOfHexSecret(key: seq<byte>)
    requires |key| == KeyLength
    ensures GetCookieKey(Some(Hex.Encode(key))) == Success(key)
  {
    Hex.DecodeEncode(key);
  }

  /** `encryptForCookie(dek)` */
  function EncryptForCookie(p: Primitives, secret: Option<string>, dek: seq<byte>, e: Entropy): (r: Result<string, CryptoError>)
    ensures r.Success? <==> GetCookieKey(secret).Success? && |GetCookieKey(secret).value| == KeyLength
  {
    var cookieKey :- GetCookieKey(secret);
    Encrypt(p, Base64.Encode(dek), cookieKey, e)
  }

  /** `decryptFromCookie(encryptedCookie)` */
  function DecryptFromCookie(p: Primitives, secret: Option<string>, token: string): (r: Result<seq<byte>, CryptoError>)
    ensures (secret.None? || secret.value == "") ==> r == Failure(CookieSecretMissing)
    ensures secret.Some? && secret.value != "" && Count(token, Delimiter) != 2 ==> r == Failure(InvalidEncryptedFormat)
    ensures r.Success? ==> Count(token, Delimiter) == 2 && |GetCookieKey(secret).value| == KeyLength
  {
    var cookieKey :- GetCookieKey(secret);
    var dekText :- Decrypt(p, token, cookieKey);
    Success(Base64.Decode(dekText))
  }

  /** A cookie sealed under a usable secret opens to the same DEK. */
  lemma DecryptFromCookieEncryptForCookie(p: Primitives, secret: Option<string>, dek: seq<byte>, e: Entropy)
    requires AeadCorrect(p)
    requires GetCookieKey(secret).Success? && |GetCookieKey(secret).value| == KeyLength
    ensures EncryptForCookie(p, secret, dek, e).Success?
    ensures DecryptFromCookie(p, secret, EncryptForCookie(p, secret, dek, e).value) == Success(dek)
  {
    DecryptEncrypt(p, Base64.Encode(dek), GetCookieKey(secret).value, e);
    Base64.DecodeEncode(dek);
  }

  // --- Numeric field codec ---

  /** A stored numeric field as the database returns it: a JSON number (legacy),
      or text, which is either a legacy number string or a ciphertext. */
  datatype Field = Num(value: Number) | Text(text: string)

  /** The compatibility rule: text containing the delimiter is ciphertext. */
  predicate IsCiphertext(f: Field) {
    f.Text? && Delimiter in f.text
  }

  /** The number a legacy (non-ciphertext) field stands for. */
  function LegacyValue(p: Primitives, f: Field): Number
    requires !IsCiphertext(f)
  {
    if f.Num? then f.value else p.parseFloat(f.text)
  }

  /** `encryptNumber(value, dek)` */
  function EncryptNumber(p: Primitives, value: Number, dek: seq<byte>, e: Entropy): (r: Result<string, CryptoError>)
    ensures r.Success? <==> |dek| == KeyLength
    ensures r.Success? ==> IsCiphertext(Text(r.value))
  {
    Encrypt(p, p.numberToString(value), dek, e)
  }

  /** `decryptNumber(encryptedValue, dek)`: legacy values are read without the
      key; only ciphertext is decrypted. */
  function DecryptNumber(p: Primitives, f: Field, dek: seq<byte>): (r: Result<Number, CryptoError>)
    ensures !IsCiphertext(f) ==> r == Success(LegacyValue(p, f))
    ensures IsCiphertext(f) && Count(f.text, Delimiter) != 2 ==> r == Failure(InvalidEncryptedFormat)
  {
    if f.Num? then Success(f.value)
    else if Delimiter !in f.text then Success(p.parseFloat(f.text))
    else
      var plaintext :- Decrypt(p, f.text, dek);
      Success(p.parseFloat(plaintext))
  }

  /** Round trip of the field codec. */
  lemma DecryptNumberEncryptNumber(p: Primitives, value: Number, dek: seq<byte>, e: Entropy)
    requires AeadCorrect(p) && NumberTextRoundTrip(p) && |dek| == KeyLength
    ensures DecryptNumber(p, Text(EncryptNumber(p, value, dek, e).value), dek) == Success(value)
  {
    DecryptEncrypt(p, p.numberToString(value), dek, e);
  }

  /** A number encrypted under one key does not decrypt under another. */
  lemma DecryptNumberOtherKey(p: Primitives, value: Number, key: seq<byte>, other: seq<byte>, e: Entropy)
    requires AeadRejectsOtherKeys(p)
    requires |key| == KeyLength && |other| == KeyLength && other != key
    ensures DecryptNumber(p, Text(EncryptNumber(p, value, key, e).value), other) == Failure(DecryptionFailed)
  {
    DecryptOtherKey(p, p.numberToString(value), key, other, e);
  }

  /** The three shapes a value can be stored in all read back as that value: a
      native number, its legacy string, and its ciphertext. */
  lemma StoredShapesAgree(p: Primitives, value: Number, dek: seq<byte>, e: Entropy)
    requires AeadCorrect(p) && NumberTextRoundTrip(p) && |dek| == KeyLength
    requires Delimiter !in p.numberToString(value)
    ensures DecryptNumber(p, Num(value), dek) == Success(value)
    ensures DecryptNumber(p, Text(p.numberToString(value)), dek) == Success(value)
    ensures DecryptNumber(p, Text(EncryptNumber(p, value, dek, e).value), dek) == Success(value)
  {
    DecryptNumberEncryptNumber(p, value, dek, e);
  }
}
