/** Base64 with padding, as the core's codec reads and writes it: section 4 of RFC 4648, canonical forms only. */
module Base64 {
  import opened Text

  type Digit = x: int | 0 <= x < 64

  const PAD := '='

  function Letter(v: Digit): char {
    if v < 26 then 'A' + v as char
    else if v < 52 then 'a' + (v - 26) as char
    else if v < 62 then '0' + (v - 52) as char
    else if v == 62 then '+'
    else '/'
  }

  function Value(c: char): Option<Digit> {
    if 'A' <= c <= 'Z' then Some(c as int - 'A' as int)
    else if 'a' <= c <= 'z' then Some(c as int - 'a' as int + 26)
    else if '0' <= c <= '9' then Some(c as int - '0' as int + 52)
    else if c == '+' then Some(62)
    else if c == '/' then Some(63)
    else None
  }

  /** The four digits of three bytes, most significant first. */
  function Digits(a: byte, b: byte, c: byte): (Digit, Digit, Digit, Digit) {
    (a as int / 4, a as int % 4 * 16 + b as int / 16, b as int % 16 * 4 + c as int / 64, c as int % 64)
  }

  function Bytes(p: Digit, q: Digit, r: Digit, s: Digit): (byte, byte, byte) {
    ((p * 4 + q / 16) as byte, (q % 16 * 16 + r / 4) as byte, (r % 4 * 64 + s) as byte)
  }

  function Encode(b: seq<byte>): string {
    if |b| == 0 then ""
    else if |b| == 1 then
      var d := Digits(b[0], 0, 0);
      [Letter(d.0), Letter(d.1), PAD, PAD]
    else if |b| == 2 then
      var d := Digits(b[0], b[1], 0);
      [Letter(d.0), Letter(d.1), Letter(d.2), PAD]
    else
      var d := Digits(b[0], b[1], b[2]);
      [Letter(d.0), Letter(d.1), Letter(d.2), Letter(d.3)] + Encode(b[3..])
  }

  /** The last group may be padded; the bits the padding drops must be zero. */
  function DecodeGroup(g: string): Option<seq<byte>>
    requires |g| == 4
  {
    if Value(g[0]).None? || Value(g[1]).None? then None
    else
      var p, q := Value(g[0]).value, Value(g[1]).value;
      if g[2] == PAD && g[3] == PAD then
        if q % 16 == 0 then Some([Bytes(p, q, 0, 0).0]) else None
      else if Value(g[2]).None? then None
      else
        var r := Value(g[2]).value;
        if g[3] == PAD then
          if r % 4 == 0 then Some([Bytes(p, q, r, 0).0, Bytes(p, q, r, 0).1]) else None
        else if Value(g[3]).None? then None
        else
          var t := Bytes(p, q, r, Value(g[3]).value);
          Some([t.0, t.1, t.2])
  }

  function Decode(s: string): Option<seq<byte>> {
    if s == "" then Some([])
    else if |s| < 4 then None
    else
      match DecodeGroup(s[..4])
      case None => None
      case Some(g) =>
        if |s| == 4 then Some(g)
        else if |g| < 3 then None
        else match Decode(s[4..])
             case None => None
             case Some(rest) => Some(g + rest)
  }

  // ----- one group ------------------------------------------------------------------------

  lemma LetterHasValue(v: Digit)
    ensures Value(Letter(v)) == Some(v)
    ensures Letter(v) != PAD
  {
  }

  lemma ValueHasLetter(c: char)
    requires Value(c).Some?
    ensures Letter(Value(c).value) == c
  {
  }

  lemma DigitsThenBytes(a: byte, b: byte, c: byte)
    ensures var d := Digits(a, b, c); Bytes(d.0, d.1, d.2, d.3) == (a, b, c)
  {
    Split16(a as int % 4, b as int / 16);
    Split4(b as int % 16, c as int / 64);
  }

  lemma BytesThenDigits(p: Digit, q: Digit, r: Digit, s: Digit)
    ensures var t := Bytes(p, q, r, s); Digits(t.0, t.1, t.2) == (p, q, r, s)
  {
    Split4(p, q / 16);
    Split16(q % 16, r / 4);
    Split64(r % 4, s);
  }

  lemma Split4(n: int, h: int)
    requires 0 <= h < 4
    ensures (n * 4 + h) / 4 == n && (n * 4 + h) % 4 == h
  {
  }

  lemma Split16(n: int, h: int)
    requires 0 <= h < 16
    ensures (n * 16 + h) / 16 == n && (n * 16 + h) % 16 == h
  {
  }

  lemma Split64(n: int, h: int)
    requires 0 <= h < 64
    ensures (n * 64 + h) / 64 == n && (n * 64 + h) % 64 == h
  {
  }

  /** A group of one to three bytes is read back. */
  lemma GroupRoundTrip(b: seq<byte>)
    requires 1 <= |b| <= 3
    ensures |Encode(b)| == 4 && DecodeGroup(Encode(b)) == Some(b)
  {
    hide Letter, Value, Digits, Bytes;
    var b1, b2 := if |b| > 1 then b[1] else 0, if |b| > 2 then b[2] else 0;
    var d := Digits(b[0], b1, b2);
    LetterHasValue(d.0);
    LetterHasValue(d.1);
    LetterHasValue(d.2);
    LetterHasValue(d.3);
    DigitsThenBytes(b[0], b1, b2);
    DroppedBits(b[0], b1, b2);
    if |b| == 1 {
      assert b == [b[0]];
    } else if |b| == 2 {
      assert b == [b[0], b[1]];
    } else {
      assert b == [b[0], b[1], b[2]] && b[3..] == [];
      assert Encode(b) == [Letter(d.0), Letter(d.1), Letter(d.2), Letter(d.3)];
    }
  }

  lemma DroppedBits(a: byte, b: byte, c: byte)
    ensures b == 0 && c == 0 ==> Digits(a, b, c).1 % 16 == 0 && Digits(a, b, c).2 == 0
    ensures c == 0 ==> Digits(a, b, c).2 % 4 == 0 && Digits(a, b, c).3 == 0
  {
  }

  lemma ZeroBits(p: Digit, q: Digit, r: Digit)
    ensures q % 16 == 0 ==> Bytes(p, q, 0, 0).1 == 0 && Bytes(p, q, 0, 0).2 == 0
    ensures r % 4 == 0 ==> Bytes(p, q, r, 0).2 == 0
  {
  }

  /** A group that can be read is the encoding of what it reads as. */
  lemma GroupIsCanonical(g: string)
    requires |g| == 4 && DecodeGroup(g).Some?
    ensures 1 <= |DecodeGroup(g).value| <= 3 && Encode(DecodeGroup(g).value) == g
  {
    hide Letter, Value, Digits, Bytes;
    ValueHasLetter(g[0]);
    ValueHasLetter(g[1]);
    var p, q := Value(g[0]).value, Value(g[1]).value;
    if g[2] == PAD && g[3] == PAD {
      BytesThenDigits(p, q, 0, 0);
      ZeroBits(p, q, 0);
    } else {
      ValueHasLetter(g[2]);
      var r := Value(g[2]).value;
      if g[3] == PAD {
        BytesThenDigits(p, q, r, 0);
        ZeroBits(p, q, r);
      } else {
        ValueHasLetter(g[3]);
        BytesThenDigits(p, q, r, Value(g[3]).value);
        assert DecodeGroup(g).value[3..] == [];
      }
    }
  }

  lemma EncodeSplits(a: seq<byte>, b: seq<byte>)
    requires |a| == 3
    ensures Encode(a + b) == Encode(a) + Encode(b)
  {
    hide Letter, Digits;
    assert (a + b)[3..] == b && a[3..] == [];
  }

  // ----- every byte string and every text -------------------------------------------------

  lemma {:induction false} RoundTrip(b: seq<byte>)
    ensures Decode(Encode(b)) == Some(b)
  {
    hide DecodeGroup, Encode;
    if b == [] {
      assert Encode(b) == "" by { NothingEncoded(); }
    } else if |b| <= 3 {
      GroupRoundTrip(b);
      assert Encode(b)[..4] == Encode(b);
    } else {
      var g, rest := b[..3], b[3..];
      assert b == g + rest;
      EncodeSplits(g, rest);
      GroupRoundTrip(g);
      RoundTrip(rest);
      assert Encode(b)[..4] == Encode(g) && Encode(b)[4..] == Encode(rest);
      EncodedIsNotEmpty(rest);
    }
  }

  lemma NothingEncoded()
    ensures Encode([]) == ""
  {
  }

  lemma EncodedIsNotEmpty(b: seq<byte>)
    requires b != []
    ensures |Encode(b)| >= 4
  {
    hide Letter, Digits;
  }

  lemma {:induction false} DecodedReencodes(s: string)
    requires Decode(s).Some?
    ensures Encode(Decode(s).value) == s
  {
    hide DecodeGroup, Encode;
    if s == "" {
      NothingEncoded();
    } else {
      GroupIsCanonical(s[..4]);
      if |s| == 4 {
        assert s[..4] == s;
      } else {
        DecodedReencodes(s[4..]);
        EncodeSplits(DecodeGroup(s[..4]).value, Decode(s[4..]).value);
        assert s == s[..4] + s[4..];
      }
    }
  }

  /** A text decodes to some bytes exactly when it is their encoding. */
  lemma DecodeIffEncoded(s: string, b: seq<byte>)
    ensures Decode(s) == Some(b) <==> s == Encode(b)
  {
    hide Decode, Encode;
    RoundTrip(b);
    if Decode(s) == Some(b) {
      DecodedReencodes(s);
    }
  }

  predicate InAlphabet(c: char) { Value(c).Some? || c == PAD }

  /** Nothing outside the alphabet is written. */
  lemma {:induction false} EncodeStaysInAlphabet(b: seq<byte>)
    ensures forall c | c in Encode(b) :: InAlphabet(c)
  {
    hide Letter, Value, Digits;
    forall v: Digit ensures Value(Letter(v)).Some? {
      LetterHasValue(v);
    }
    if |b| >= 3 {
      EncodeStaysInAlphabet(b[3..]);
    }
  }

  // ----- against the standard -------------------------------------------------------------

  /** Table 1 of RFC 4648: A to Z, a to z, 0 to 9, plus and slash. */
  lemma LettersAreTabled(v: Digit)
    ensures Letter(0) == 'A' && Letter(25) == 'Z' && Letter(26) == 'a' && Letter(51) == 'z'
    ensures Letter(52) == '0' && Letter(61) == '9' && Letter(62) == '+' && Letter(63) == '/'
    ensures v !in {25, 51, 61, 62, 63} ==> Letter(v + 1) as int == Letter(v) as int + 1
  {
  }

  /** The four letters spell the 24 bits of the three bytes, the first letter highest. */
  predicate Spells(g: string, a: byte, b: byte, c: byte)
    requires |g| == 4
  {
    exists p: Digit, q: Digit, r: Digit, s: Digit ::
      && g == [Letter(p), Letter(q), Letter(r), Letter(s)]
      && p * 0x4_0000 + q * 0x1000 + r * 0x40 + s == a as int * 0x1_0000 + b as int * 0x100 + c as int
  }

  lemma DigitsAreBits(a: byte, b: byte, c: byte)
    ensures var d := Digits(a, b, c);
            d.0 * 0x4_0000 + d.1 * 0x1000 + d.2 * 0x40 + d.3 == a as int * 0x1_0000 + b as int * 0x100 + c as int
  {
  }

  /** Every three bytes become four letters with the same bits. */
  lemma {:induction false} GroupsSpellBytes(b: seq<byte>, k: nat)
    requires 3 * k + 3 <= |b|
    ensures 4 * k + 4 <= |Encode(b)|
    ensures Spells(Encode(b)[4 * k..4 * k + 4], b[3 * k], b[3 * k + 1], b[3 * k + 2])
  {
    hide Letter, Digits, Spells;
    var d := Digits(b[0], b[1], b[2]);
    if k == 0 {
      LettersSpell(b[0], b[1], b[2]);
      assert Encode(b)[0..4] == [Letter(d.0), Letter(d.1), Letter(d.2), Letter(d.3)];
    } else {
      GroupsSpellBytes(b[3..], k - 1);
      assert Encode(b)[4..] == Encode(b[3..]);
      assert Encode(b)[4 * k..4 * k + 4] == Encode(b[3..])[4 * (k - 1)..4 * (k - 1) + 4];
    }
  }

  lemma LettersSpell(a: byte, b: byte, c: byte)
    ensures var d := Digits(a, b, c); Spells([Letter(d.0), Letter(d.1), Letter(d.2), Letter(d.3)], a, b, c)
  {
    hide Letter, Digits;
    var d := Digits(a, b, c);
    DigitsAreBits(a, b, c);
  }

  /** One or two bytes at the end are spelled as if zeros followed, with padding for the letters left over. */
  predicate TailSpells(tail: string, b: seq<byte>)
    requires 1 <= |b| <= 2
  {
    && |tail| == 4
    && (|b| == 1 ==> tail[2..] == "==" && Spells(tail[..2] + "AA", b[0], 0, 0))
    && (|b| == 2 ==> tail[3..] == "=" && Spells(tail[..3] + "A", b[0], b[1], 0))
  }

  lemma ShortIsPadded(b: seq<byte>)
    requires 1 <= |b| <= 2
    ensures TailSpells(Encode(b), b)
  {
    hide Letter, Digits, Spells;
    var b1 := if |b| == 2 then b[1] else 0;
    var d := Digits(b[0], b1, 0);
    LettersSpell(b[0], b1, 0);
    DroppedBits(b[0], b1, 0);
    LettersAreTabled(0);
    if |b| == 1 {
      assert Encode(b)[..2] + "AA" == [Letter(d.0), Letter(d.1), Letter(d.2), Letter(d.3)];
    } else {
      assert Encode(b)[..3] + "A" == [Letter(d.0), Letter(d.1), Letter(d.2), Letter(d.3)];
    }
  }

  lemma {:induction false} TailIsPadded(b: seq<byte>)
    ensures |Encode(b)| == (|b| + 2) / 3 * 4
    ensures |b| % 3 != 0 ==> TailSpells(Encode(b)[|Encode(b)| - 4..], b[|b| - |b| % 3..])
  {
    hide Encode, TailSpells;
    if b == [] {
      NothingEncoded();
    } else if |b| <= 2 {
      ShortIsPadded(b);
      GroupRoundTrip(b);
      assert Encode(b)[0..] == Encode(b) && b[0..] == b;
    } else {
      var g, rest := b[..3], b[3..];
      assert b == g + rest;
      TailIsPadded(rest);
      EncodeSplits(g, rest);
      GroupRoundTrip(g);
      assert |b| % 3 == |rest| % 3;
      if |b| % 3 != 0 {
        assert |Encode(rest)| >= 4;
        assert Encode(b)[|Encode(b)| - 4..] == Encode(rest)[|Encode(rest)| - 4..];
        assert b[|b| - |b| % 3..] == rest[|rest| - |rest| % 3..];
      }
    }
  }
}
