/** A cipher that keeps the laws the secrets rest on, and the inputs that fail under it. */
module ToyCipher {
  import opened Text
  import opened Crypto
  import opened Recovery

  function CharBytes(c: char): (byte, byte, byte) {
    ((c as int / 0x1_0000) as byte, (c as int / 0x100 % 0x100) as byte, (c as int % 0x100) as byte)
  }

  function CharOf(b: (byte, byte, byte)): Option<char> {
    var v := b.0 as int * 0x1_0000 + b.1 as int * 0x100 + b.2 as int;
    if 0xD800 <= v < 0xE000 || v >= 0x11_0000 then None else Some(v as char)
  }

  lemma CharRoundTrip(c: char)
    ensures CharOf(CharBytes(c)) == Some(c)
  {
    assert c as int / 0x1_0000 * 0x1_0000 + c as int / 0x100 % 0x100 * 0x100 + c as int % 0x100 == c as int;
  }

  /** Three bytes a character. */
  function ToBytes(s: string): Bytes {
    if s == "" then [] else var b := CharBytes(s[0]); [b.0, b.1, b.2] + ToBytes(s[1..])
  }

  function FromBytes(b: Bytes): Option<string> {
    if b == [] then Some("")
    else if |b| < 3 then None
    else
      var c, rest := CharOf((b[0], b[1], b[2])), FromBytes(b[3..]);
      if c.Some? && rest.Some? then Some([c.value] + rest.value) else None
  }

  /** Sealing puts the key in front, opening looks for it there. */
  const TOY := Suite(
    (k: Key, n: Nonce, m: Bytes) => Some(k + m),
    (k: Key, n: Nonce, b: Bytes) => if k <= b then Some(b[|k|..]) else None,
    ToBytes,
    FromBytes,
    (s: string) => s == "{}" || s == "null")

  lemma {:induction false} BytesRoundTrip(s: string)
    ensures FromBytes(ToBytes(s)) == Some(s)
  {
    hide CharBytes, CharOf;
    if s != "" {
      BytesRoundTrip(s[1..]);
      CharRoundTrip(s[0]);
      assert ToBytes(s)[3..] == ToBytes(s[1..]);
      assert [s[0]] + s[1..] == s;
    }
  }

  /** The laws can be kept. */
  lemma ToyIsLawful()
    ensures Lawful(TOY) && JsonLaws(TOY)
  {
    hide ToBytes, FromBytes;
    forall k: Key, n: Nonce, m: Bytes
      ensures TOY.Seal(k, n, m).Some? && TOY.Open(k, n, TOY.Seal(k, n, m).value) == Some(m)
    {
      assert (k + m)[|k|..] == m;
    }
    forall s: string ensures TOY.FromUtf8(TOY.ToUtf8(s)) == Some(s) {
      BytesRoundTrip(s);
    }
    forall s: string | StartsWith(s, PREFIX) ensures !TOY.IsJson(s) {
      assert s[0] == 'E' && "{}"[0] == '{' && "null"[0] == 'n';
    }
  }

  /** A failed sealing of the JSON value null, with a lawful cipher: what is read back is the empty object. */
  lemma NullIsLost(key: Key, nonce: Nonce)
    requires |nonce| == NONCE_LENGTH
    ensures var c := TOY.(Seal := (k: Key, n: Nonce, m: Bytes) => None);
            && Lawful(c) && JsonLaws(c) && c.IsJson("null")
            && DecryptEnvJson(c, Some(EncryptEnvJson(c, "null", key, nonce)), key) == "{}"
  {
    hide ToBytes, FromBytes;
    ToyIsLawful();
  }

  /** A row only an old key reads, whose update is not written: counted as recovered, read by no key the core has. */
  lemma UnwrittenRowIsLost(d: Draw)
    requires |d.nonce| == NONCE_LENGTH && !d.written
    ensures var old', stable: Key := [1], [2];
            var enc := Encrypt(TOY, "{}", old', d.nonce).value;
            && Selected(enc) && FateOf(TOY, enc, stable, [old'], d.nonce).Recovered?
            && Reads(TOY, Rewritten(TOY, enc, stable, [old'], d), stable).None?
            && FirstRead(TOY, enc, [stable] + [old']) == Some("{}")
  {
    hide ToBytes, FromBytes, Stored, Decrypt;
    ToyIsLawful();
    var old', stable: Key := [1], [2];
    var sealed := old' + ToBytes("{}");
    var enc := Encrypt(TOY, "{}", old', d.nonce).value;
    assert enc == Stored(d.nonce, sealed);
    DecryptUndoesEncrypt(TOY, "{}", old', d.nonce);
    StoredOpens(TOY, d.nonce, sealed, stable);
    assert sealed[0] == 1 && stable[0] == 2;
    assert Reads(TOY, enc, stable).None? && Reads(TOY, enc, old') == Some("{}");
    assert FirstRead(TOY, enc, [old']) == Some("{}");
    FirstOfAll(TOY, enc, stable, [old']);
    assert enc[0] == 'E' && enc[1] == 'N' && enc[2] == 'C' && enc[3] == ':';
  }
}
