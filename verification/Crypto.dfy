/** The stored form of secrets, over an abstract cipher (crates/pier-core/src/crypto.rs). */
module Crypto {
  import opened Text
  import Base64

  type Bytes = seq<byte>
  type Key = Bytes
  type Nonce = Bytes

  datatype Error = BadFormat | BadBase64 | BadNonceLength | NotOpened | NotUtf8

  datatype Result<T> = Ok(value: T) | Err(error: Error)

  const NONCE_LENGTH := 12

  /** The cipher, the text encoding and the JSON parser; sealing and opening may fail. */
  datatype Suite = Suite(
    Seal: (Key, Nonce, Bytes) -> Option<Bytes>,
    Open: (Key, Nonce, Bytes) -> Option<Bytes>,
    ToUtf8: string -> Bytes,
    FromUtf8: Bytes -> Option<string>,
    IsJson: string -> bool)

  /** Opening undoes sealing, and the text encoding round-trips. */
  ghost predicate Lawful(c: Suite) {
    && (forall k: Key, n: Nonce, m: Bytes :: c.Seal(k, n, m).Some? ==> c.Open(k, n, c.Seal(k, n, m).value) == Some(m))
    && (forall s: string :: c.FromUtf8(c.ToUtf8(s)) == Some(s))
  }

  /** What of JSON matters here: the empty object is a value, nothing and a stored secret are not. */
  ghost predicate JsonLaws(c: Suite) {
    c.IsJson("{}") && !c.IsJson("") && forall s: string | StartsWith(s, PREFIX) :: !c.IsJson(s)
  }

  const PREFIX := "ENC:"

  /** The stored text of a nonce and a ciphertext. */
  function Stored(nonce: Nonce, sealed: Bytes): string {
    PREFIX + (Base64.Encode(nonce) + ":" + Base64.Encode(sealed))
  }

  function Encrypt(c: Suite, plain: string, key: Key, nonce: Nonce): Option<string> {
    match c.Seal(key, nonce, c.ToUtf8(plain))
    case None => None
    case Some(sealed) => Some(Stored(nonce, sealed))
  }

  /** The two fields after the prefix; a missing colon is an error, further colons are not. */
  function Fields(body: string): Option<(string, string)> {
    var i := Find(body, ':');
    if i == |body| then None else Some((body[..i], body[i + 1..]))
  }

  function Unseal(c: Suite, nonce: Bytes, sealed: Bytes, key: Key): Result<string> {
    if |nonce| != NONCE_LENGTH then Err(BadNonceLength)
    else match c.Open(key, nonce, sealed)
         case None => Err(NotOpened)
         case Some(bytes) => match c.FromUtf8(bytes)
                             case None => Err(NotUtf8)
                             case Some(s) => Ok(s)
  }

  /** A text without the prefix is its own plaintext. */
  function Decrypt(c: Suite, data: string, key: Key): Result<string> {
    if !StartsWith(data, PREFIX) then Ok(data)
    else match Fields(data[|PREFIX|..])
         case None => Err(BadFormat)
         case Some(f) =>
           match Base64.Decode(f.0)
           case None => Err(BadBase64)
           case Some(nonce) =>
             match Base64.Decode(f.1)
             case None => Err(BadBase64)
             case Some(sealed) => Unseal(c, nonce, sealed, key)
  }

  function EncryptEnvJson(c: Suite, plain: string, key: Key, nonce: Nonce): string {
    match Encrypt(c, plain, key, nonce)
    case None => plain
    case Some(s) => s
  }

  function DecryptEnvJson(c: Suite, stored: Option<string>, key: Key): string {
    if stored.None? || stored.value == "" || stored.value == "null" then "{}"
    else if !StartsWith(stored.value, PREFIX) then
      if c.IsJson(stored.value) then stored.value else "{}"
    else match Decrypt(c, stored.value, key)
         case Err(_) => "{}"
         case Ok(p) => if c.IsJson(p) then p else "{}"
  }

  // ----- the stored form ------------------------------------------------------------------

  lemma StoredParts(nonce: Nonce, sealed: Bytes)
    ensures StartsWith(Stored(nonce, sealed), PREFIX)
    ensures Fields(Stored(nonce, sealed)[|PREFIX|..]) == Some((Base64.Encode(nonce), Base64.Encode(sealed)))
  {
    hide Base64.Encode, Base64.InAlphabet;
    var a, b := Base64.Encode(nonce), Base64.Encode(sealed);
    assert Stored(nonce, sealed)[|PREFIX|..] == a + ":" + b;
    Base64.EncodeStaysInAlphabet(nonce);
    assert ':' !in a by { ColonIsOutside(); }
    FindAfter(a, b);
  }

  lemma ColonIsOutside()
    ensures !Base64.InAlphabet(':')
  {
  }

  lemma FindAfter(a: string, b: string)
    requires ':' !in a
    ensures Fields(a + ":" + b) == Some((a, b))
  {
    var s := a + ":" + b;
    assert s[|a|] == ':';
    assert forall j | 0 <= j < |a| :: s[j] == a[j] && a[j] in a;
    assert s[..|a|] == a && s[|a| + 1..] == b;
  }

  lemma FieldsJoin(body: string)
    requires Fields(body).Some?
    ensures body == Fields(body).value.0 + ":" + Fields(body).value.1
  {
  }

  /** A stored text opens as its nonce and ciphertext. */
  lemma StoredOpens(c: Suite, nonce: Nonce, sealed: Bytes, key: Key)
    ensures Decrypt(c, Stored(nonce, sealed), key) == Unseal(c, nonce, sealed, key)
  {
    hide Base64.Encode, Base64.Decode, Fields, Stored, Unseal;
    StoredParts(nonce, sealed);
    Base64.RoundTrip(nonce);
    Base64.RoundTrip(sealed);
  }

  /** Whatever was sealed under a key is read back under it. */
  lemma DecryptUndoesEncrypt(c: Suite, plain: string, key: Key, nonce: Nonce)
    requires Lawful(c) && |nonce| == NONCE_LENGTH && Encrypt(c, plain, key, nonce).Some?
    ensures Decrypt(c, Encrypt(c, plain, key, nonce).value, key) == Ok(plain)
    ensures StartsWith(Encrypt(c, plain, key, nonce).value, PREFIX)
  {
    hide Stored, Decrypt;
    var sealed := c.Seal(key, nonce, c.ToUtf8(plain)).value;
    StoredOpens(c, nonce, sealed, key);
    StoredParts(nonce, sealed);
  }

  /**
   * A prefixed text decrypts to a plaintext exactly when it is the stored form of a 12-byte nonce
   * and a ciphertext that opens to it: no other spelling of the same bytes is read.
   */
  lemma DecryptsIffStored(c: Suite, data: string, key: Key, plain: string)
    requires "ENC:" <= data
    ensures Decrypt(c, data, key) == Ok(plain) <==>
            exists nonce: Nonce, sealed: Bytes :: SealsTo(c, data, key, plain, nonce, sealed)
  {
    hide Base64.Encode, Base64.Decode, Fields, Stored, SealsTo;
    if Decrypt(c, data, key) == Ok(plain) {
      var f := Fields(data[|PREFIX|..]).value;
      var nonce, sealed := Base64.Decode(f.0).value, Base64.Decode(f.1).value;
      Base64.DecodeIffEncoded(f.0, nonce);
      Base64.DecodeIffEncoded(f.1, sealed);
      FieldsJoin(data[|PREFIX|..]);
      assert data == Stored(nonce, sealed) by { StoredIs(nonce, sealed); }
      SealsToIs(c, data, key, plain, nonce, sealed);
    }
    forall nonce: Nonce, sealed: Bytes | SealsTo(c, data, key, plain, nonce, sealed)
      ensures Decrypt(c, data, key) == Ok(plain)
    {
      SealsToIs(c, data, key, plain, nonce, sealed);
      StoredOpens(c, nonce, sealed, key);
    }
  }

  /** The text is the prefix, the nonce and the ciphertext in base64, and the ciphertext opens to `plain`. */
  predicate SealsTo(c: Suite, data: string, key: Key, plain: string, nonce: Nonce, sealed: Bytes) {
    && data == "ENC:" + Base64.Encode(nonce) + ":" + Base64.Encode(sealed)
    && |nonce| == 12
    && c.Open(key, nonce, sealed).Some? && c.FromUtf8(c.Open(key, nonce, sealed).value) == Some(plain)
  }

  lemma SealsToIs(c: Suite, data: string, key: Key, plain: string, nonce: Nonce, sealed: Bytes)
    ensures SealsTo(c, data, key, plain, nonce, sealed)
            <==> data == Stored(nonce, sealed) && Unseal(c, nonce, sealed, key) == Ok(plain)
  {
    hide Base64.Encode;
    var a, b := Base64.Encode(nonce), Base64.Encode(sealed);
    assert "ENC:" + a + ":" + b == PREFIX + (a + ":" + b);
  }

  /** A text is sealed under a fresh nonce exactly as it is opened; a text without the prefix is itself. */
  lemma EncryptSeals(c: Suite, plain: string, key: Key, nonce: Nonce, data: string)
    requires Lawful(c) && |nonce| == 12
    ensures Encrypt(c, plain, key, nonce) == Some(data) ==>
              exists sealed :: SealsTo(c, data, key, plain, nonce, sealed)
                               && c.Seal(key, nonce, c.ToUtf8(plain)) == Some(sealed)
    ensures Encrypt(c, plain, key, nonce).None? <==> c.Seal(key, nonce, c.ToUtf8(plain)).None?
    ensures !("ENC:" <= data) ==> Decrypt(c, data, key) == Ok(data)
  {
    hide Base64.Encode, Stored, SealsTo, Fields, Base64.Decode;
    if Encrypt(c, plain, key, nonce) == Some(data) {
      var sealed := c.Seal(key, nonce, c.ToUtf8(plain)).value;
      SealsToIs(c, data, key, plain, nonce, sealed);
    }
  }

  lemma StoredIs(nonce: Nonce, sealed: Bytes)
    ensures Stored(nonce, sealed) == PREFIX + (Base64.Encode(nonce) + ":" + Base64.Encode(sealed))
  {
  }

  // ----- the environment of a service -----------------------------------------------------

  /** A reader always gets JSON. */
  lemma EnvIsAlwaysJson(c: Suite, stored: Option<string>, key: Key)
    requires JsonLaws(c)
    ensures c.IsJson(DecryptEnvJson(c, stored, key))
  {
    hide Decrypt;
  }

  /**
   * What is written is read back exactly when it is JSON; when sealing failed and the plain text
   * went in instead, the JSON value null is read as the empty object.
   */
  lemma EnvRoundTripIff(c: Suite, plain: string, key: Key, nonce: Nonce)
    requires Lawful(c) && JsonLaws(c) && |nonce| == NONCE_LENGTH
    ensures DecryptEnvJson(c, Some(EncryptEnvJson(c, plain, key, nonce)), key) == plain
            <==> c.IsJson(plain) && (plain == "null" ==> Encrypt(c, plain, key, nonce).Some?)
  {
    hide Encrypt, Decrypt, Lawful;
    if Encrypt(c, plain, key, nonce).Some? {
      DecryptUndoesEncrypt(c, plain, key, nonce);
      var e := Encrypt(c, plain, key, nonce).value;
      assert e[0] == PREFIX[0] && e != "" && e[0] != "null"[0];
    } else {
      EnvIsAlwaysJson(c, Some(plain), key);
    }
  }

  /**
   * What a reader of env_json gets: a plain JSON text is itself unless it is null, a sealed one is its
   * plaintext if that is JSON, and everything else reads as the empty object.
   */
  lemma EnvReads(c: Suite, stored: Option<string>, key: Key)
    ensures var r := DecryptEnvJson(c, stored, key);
            if stored.Some? && stored.value != "" && stored.value != "null" then
              var plain := Decrypt(c, stored.value, key);
              r == (if plain.Ok? && c.IsJson(plain.value) then plain.value else "{}")
            else r == "{}"
  {
    hide Fields, Base64.Decode;
  }
}
