/**
 * The credential envelope: the master key derived from the server secret,
 * per-user keys wrapped under it, and API keys wrapped under a per-user key.
 * Each wrapped value is stored as `hex(iv) ":" hex(authTag) ":" hex(ciphertext)`.
 *
 * AES-256-GCM (NIST SP 800-38D) and scrypt (RFC 7914) are not modelled:
 * they are the fields of a `Crypto` value, and `Sound` states the only
 * facts the envelope relies on. Random bytes are parameters.
 */
module Auth {
  import opened Wrappers
  import opened Text
  import opened Encoding

  /** The fixed scrypt salt of the master key derivation. */
  const MasterSalt := "learn-code-master-salt"
  /** AES-256 keys are 32 bytes. */
  const KeyLength := 32
  /** Each encryption draws a 16-byte initialisation vector. */
  const IvLength := 16

  /** What an authenticated encryption returns: the ciphertext and its tag. */
  datatype Sealed = Sealed(ciphertext: seq<byte>, tag: seq<byte>)

  /**
   * The primitives: `kdf(secret, salt, n)` is `scryptSync`, `seal(key, iv, text)`
   * encrypts the UTF-8 bytes of `text`, and `unseal(key, iv, tag, ciphertext)`
   * decrypts and authenticates, failing with a message.
   */
  datatype Crypto = Crypto(
    kdf: (string, string, nat) -> seq<byte>,
    seal: (seq<byte>, seq<byte>, string) -> Sealed,
    unseal: (seq<byte>, seq<byte>, seq<byte>, seq<byte>) -> Result<string, string>)

  /** The facts the envelope relies on: the KDF yields the length asked for, and decryption undoes encryption. */
  ghost predicate Sound(c: Crypto) {
    && (forall secret, salt, n :: |c.kdf(secret, salt, n)| == n)
    && (forall key, iv, text ::
          c.unseal(key, iv, c.seal(key, iv, text).tag, c.seal(key, iv, text).ciphertext) == Ok(text))
  }

  /** The ways the functions below throw. */
  datatype AuthError =
    | MissingSecret
    | InvalidKeyLength
    | MalformedEnvelope
    | DecryptionFailed(message: string)

  /** `getMasterKey`: throws without a non-empty secret, else scrypt of the secret under the fixed salt. */
  function GetMasterKey(c: Crypto, secret: Option<string>): (r: Result<seq<byte>, AuthError>)
    ensures secret == None || secret == Some("") <==> r == Err(MissingSecret)
    ensures r.Ok? ==> r.value == c.kdf(secret.value, MasterSalt, KeyLength)
    ensures r.Err? ==> r.error == MissingSecret
  {
    match secret
    case None => Err(MissingSecret)
    case Some(s) => if s == "" then Err(MissingSecret) else Ok(c.kdf(s, MasterSalt, KeyLength))
  }

  /** Under a sound KDF the master key is an AES-256 key. */
  lemma MasterKeyLength(c: Crypto, secret: Option<string>)
    requires Sound(c)
    requires GetMasterKey(c, secret).Ok?
    ensures |GetMasterKey(c, secret).value| == KeyLength
  {
    var s := secret.value;
    assert |c.kdf(s, MasterSalt, KeyLength)| == KeyLength;
  }

  /** `generateUserEncryptionKey`: 32 random bytes in base64. */
  function GenerateUserEncryptionKey(random: seq<byte>): (key: string)
    requires |random| == KeyLength
    ensures |key| == 44
    ensures Base64Decode(key) == random
  {
    Base64RoundTrip(random);
    Base64Of32(random);
    Base64Encode(random)
  }

  /** The stored form of one encryption: three hex fields separated by ':'. */
  function Envelope(iv: seq<byte>, tag: seq<byte>, ciphertext: seq<byte>): (s: string)
    ensures s == Join([HexEncode(iv), HexEncode(tag), HexEncode(ciphertext)], ":")
    ensures |s| == 2 * (|iv| + |tag| + |ciphertext|) + 2
  {
    var a, b, d := HexEncode(iv), HexEncode(tag), HexEncode(ciphertext);
    assert Join([b, d], ":") == b + ":" + d;
    assert Join([a, b, d], ":") == a + ":" + Join([b, d], ":");
    a + ":" + b + ":" + d
  }

  /** Splitting an envelope on ':' gives exactly its three hex fields (hex has no ':', so there are exactly two). */
  lemma EnvelopeFields(iv: seq<byte>, tag: seq<byte>, ciphertext: seq<byte>)
    ensures Split(Envelope(iv, tag, ciphertext), ":") == [HexEncode(iv), HexEncode(tag), HexEncode(ciphertext)]
  {
    var parts := [HexEncode(iv), HexEncode(tag), HexEncode(ciphertext)];
    HexHasNoColon(iv);
    HexHasNoColon(tag);
    HexHasNoColon(ciphertext);
    SplitJoin(parts, ":");
  }

  /** With a 16-byte IV the first field is 32 hex digits. */
  lemma EnvelopeIvField(iv: seq<byte>, tag: seq<byte>, ciphertext: seq<byte>)
    requires |iv| == IvLength
    ensures |Split(Envelope(iv, tag, ciphertext), ":")[0]| == 32
  {
    EnvelopeFields(iv, tag, ciphertext);
  }

  /** Encrypts `text` under `key` with the given IV and wraps the result in an envelope. */
  function Encrypt(c: Crypto, key: seq<byte>, iv: seq<byte>, text: string): (r: Result<string, AuthError>)
    ensures |key| != KeyLength <==> r == Err(InvalidKeyLength)
    ensures r.Ok? ==> r.value == Envelope(iv, c.seal(key, iv, text).tag, c.seal(key, iv, text).ciphertext)
  {
    if |key| != KeyLength then Err(InvalidKeyLength)
    else
      var sealed := c.seal(key, iv, text);
      Ok(Envelope(iv, sealed.tag, sealed.ciphertext))
  }

  /**
   * Decrypts an envelope: splits on ':' and reads the first three fields only;
   * a missing tag field throws before the key is checked, a missing
   * ciphertext field after.
   */
  function Decrypt(c: Crypto, key: seq<byte>, data: string): (r: Result<string, AuthError>)
    ensures |Split(data, ":")| < 2 ==> r == Err(MalformedEnvelope)
    ensures |Split(data, ":")| >= 2 && |key| != KeyLength ==> r == Err(InvalidKeyLength)
    ensures |Split(data, ":")| == 2 && |key| == KeyLength ==> r == Err(MalformedEnvelope)
    ensures |Split(data, ":")| >= 3 && |key| == KeyLength ==>
      var parts := Split(data, ":");
      match c.unseal(key, HexDecode(parts[0]), HexDecode(parts[1]), HexDecode(parts[2]))
      case Ok(text) => r == Ok(text)
      case Err(message) => r == Err(DecryptionFailed(message))
  {
    var parts := Split(data, ":");
    if |parts| < 2 then Err(MalformedEnvelope)
    else if |key| != KeyLength then Err(InvalidKeyLength)
    else if |parts| < 3 then Err(MalformedEnvelope)
    else
      match c.unseal(key, HexDecode(parts[0]), HexDecode(parts[1]), HexDecode(parts[2]))
      case Ok(text) => Ok(text)
      case Err(message) => Err(DecryptionFailed(message))
  }

  /** Decrypting an envelope gives back the encrypted text, whatever the IV. */
  lemma EncryptDecrypt(c: Crypto, key: seq<byte>, iv: seq<byte>, text: string)
    requires Sound(c) && |key| == KeyLength
    ensures Decrypt(c, key, Encrypt(c, key, iv, text).value) == Ok(text)
  {
    var sealed := c.seal(key, iv, text);
    EnvelopeFields(iv, sealed.tag, sealed.ciphertext);
    HexRoundTrip(iv);
    HexRoundTrip(sealed.tag);
    HexRoundTrip(sealed.ciphertext);
    assert c.unseal(key, iv, sealed.tag, sealed.ciphertext) == Ok(text);
  }

  /** Splitting `a + sep + b` on a one-character separator splits `a` and `b` separately. */
  lemma {:induction false} SplitAppend(a: string, sep: string, b: string)
    requires |sep| == 1
    ensures Split(a + sep + b, sep) == Split(a, sep) + Split(b, sep)
    decreases |a|
  {
    match IndexOf(a, sep)
    case None =>
      SplitCons(a, sep, b);
      SplitNoSeparator(a, sep);
    case Some(i) =>
      var head, tail := a[..i], a[i + 1..];
      PrefixBeforeFirst(a, sep, i);
      assert a == head + sep + tail;
      SplitAppend(tail, sep, b);
      SplitAppendAt(head, sep, tail, b);
  }

  /** The inductive step of `SplitAppend`: `a` is `head + sep + tail` with no separator in `head`. */
  lemma SplitAppendAt(head: string, sep: string, tail: string, b: string)
    requires |sep| == 1 && !Contains(head, sep)
    requires Split(tail + sep + b, sep) == Split(tail, sep) + Split(b, sep)
    ensures Split(head + sep + tail + sep + b, sep) == Split(head + sep + tail, sep) + Split(b, sep)
  {
    var rest := tail + sep + b;
    RegroupTail(head, sep, tail, b);
    SplitCons(head, sep, rest);
    SplitCons(head, sep, tail);
    ConsAppend(head, Split(tail, sep), Split(b, sep));
  }

  lemma ConsAppend(x: string, p: seq<string>, q: seq<string>)
    ensures [x] + (p + q) == [x] + p + q
  {
  }

  lemma RegroupTail(head: string, sep: string, tail: string, b: string)
    ensures head + sep + tail + sep + b == head + sep + (tail + sep + b)
  {
  }

  /** Decryption reads only the first three fields of an envelope. */
  lemma DecryptFirstFields(c: Crypto, key: seq<byte>, d1: string, d2: string)
    requires |Split(d1, ":")| >= 3 && |Split(d2, ":")| >= 3
    requires Split(d1, ":")[..3] == Split(d2, ":")[..3]
    ensures Decrypt(c, key, d1) == Decrypt(c, key, d2)
  {
    var p1, p2 := Split(d1, ":"), Split(d2, ":");
    assert p1[0] == p2[0] && p1[1] == p2[1] && p1[2] == p2[2] by {
      assert p1[..3][0] == p1[0] && p1[..3][1] == p1[1] && p1[..3][2] == p1[2];
      assert p2[..3][0] == p2[0] && p2[..3][1] == p2[1] && p2[..3][2] == p2[2];
    }
  }

  /** Fields after the third are ignored by decryption. */
  lemma ExtraFieldsIgnored(c: Crypto, key: seq<byte>, data: string, extra: string)
    requires |Split(data, ":")| >= 3
    ensures Decrypt(c, key, data + ":" + extra) == Decrypt(c, key, data)
  {
    SplitAppend(data, ":", extra);
    var parts := Split(data, ":");
    var longer := Split(data + ":" + extra, ":");
    assert longer[..3] == parts[..3];
    DecryptFirstFields(c, key, data + ":" + extra, data);
  }

  /** `encryptUserKey`: wraps a user key under the master key. */
  function EncryptUserKey(c: Crypto, secret: Option<string>, iv: seq<byte>, userKey: string): (r: Result<string, AuthError>)
    ensures GetMasterKey(c, secret).Err? ==> r == Err(MissingSecret)
    ensures GetMasterKey(c, secret).Ok? ==> r == Encrypt(c, GetMasterKey(c, secret).value, iv, userKey)
  {
    var masterKey :- GetMasterKey(c, secret);
    Encrypt(c, masterKey, iv, userKey)
  }

  /** `decryptUserKey`: unwraps a user key with the master key. */
  function DecryptUserKey(c: Crypto, secret: Option<string>, data: string): (r: Result<string, AuthError>)
    ensures GetMasterKey(c, secret).Err? ==> r == Err(MissingSecret)
    ensures GetMasterKey(c, secret).Ok? ==> r == Decrypt(c, GetMasterKey(c, secret).value, data)
  {
    var masterKey :- GetMasterKey(c, secret);
    Decrypt(c, masterKey, data)
  }

  /** Under a sound cipher and a configured secret, wrapping a user key never fails and unwrapping it gives the key back. */
  lemma UserKeyRoundTrip(c: Crypto, secret: string, iv: seq<byte>, userKey: string)
    requires Sound(c) && secret != ""
    ensures EncryptUserKey(c, Some(secret), iv, userKey).Ok?
    ensures DecryptUserKey(c, Some(secret), EncryptUserKey(c, Some(secret), iv, userKey).value) == Ok(userKey)
  {
    MasterKeyLength(c, Some(secret));
    EncryptDecrypt(c, GetMasterKey(c, Some(secret)).value, iv, userKey);
  }

  /** `encryptApiKey`: the user key is read as base64 and must give 32 bytes. */
  function EncryptApiKey(c: Crypto, apiKey: string, userKey: string, iv: seq<byte>): (r: Result<string, AuthError>)
    ensures |Base64Decode(userKey)| != KeyLength <==> r == Err(InvalidKeyLength)
    ensures |Base64Decode(userKey)| == KeyLength ==> r == Encrypt(c, Base64Decode(userKey), iv, apiKey)
  {
    Encrypt(c, Base64Decode(userKey), iv, apiKey)
  }

  /** `decryptApiKey`: the user key is read as base64, then the envelope is opened with it. */
  function DecryptApiKey(c: Crypto, data: string, userKey: string): (r: Result<string, AuthError>)
    ensures |Split(data, ":")| < 2 ==> r == Err(MalformedEnvelope)
    ensures |Split(data, ":")| >= 2 && |Base64Decode(userKey)| != KeyLength ==> r == Err(InvalidKeyLength)
    ensures |Split(data, ":")| >= 2 && |Base64Decode(userKey)| == KeyLength ==> r == Decrypt(c, Base64Decode(userKey), data)
  {
    Decrypt(c, Base64Decode(userKey), data)
  }

  /** An API key wrapped under a generated user key is unwrapped by the same user key. */
  lemma ApiKeyRoundTrip(c: Crypto, apiKey: string, random: seq<byte>, iv: seq<byte>)
    requires Sound(c) && |random| == KeyLength
    ensures EncryptApiKey(c, apiKey, GenerateUserEncryptionKey(random), iv).Ok?
    ensures DecryptApiKey(c, EncryptApiKey(c, apiKey, GenerateUserEncryptionKey(random), iv).value,
                          GenerateUserEncryptionKey(random)) == Ok(apiKey)
  {
    EncryptDecrypt(c, random, iv, apiKey);
  }
}
