/** What the modelled sources share: bytes, and Rust's trimming, `str::lines` and first occurrence. */
module Text {

  datatype Option<+T> = None | Some(value: T)

  newtype byte = x: int | 0 <= x < 256

  /** Unicode White_Space, the class Rust's `trim` family uses. */
  predicate IsSpace(c: char) {
    '\t' <= c <= '\r' || c == ' ' || c == '\U{85}' || c == '\U{A0}' || c == '\U{1680}'
    || '\U{2000}' <= c <= '\U{200A}' || c == '\U{2028}' || c == '\U{2029}' || c == '\U{202F}'
    || c == '\U{205F}' || c == '\U{3000}'
  }

  function TrimStart(s: string): (r: string)
    ensures |r| <= |s|
    ensures r != [] ==> !IsSpace(r[0])
  {
    if s != [] && IsSpace(s[0]) then TrimStart(s[1..]) else s
  }

  lemma {:induction false} TrimStartIsSuffix(s: string)
    ensures TrimStart(s) == s[|s| - |TrimStart(s)|..]
  {
    if s != [] && IsSpace(s[0]) { TrimStartIsSuffix(s[1..]); }
  }

  function TrimEnd(s: string): (r: string)
    ensures |r| <= |s|
    ensures r != [] ==> !IsSpace(r[|r| - 1])
  {
    if s != [] && IsSpace(s[|s| - 1]) then TrimEnd(s[..|s| - 1]) else s
  }

  lemma {:induction false} TrimEndPrefix(s: string)
    ensures TrimEnd(s) <= s
  {
    if s != "" && IsSpace(s[|s| - 1]) { TrimEndPrefix(s[..|s| - 1]); }
  }

  function Trim(s: string): string { TrimStart(TrimEnd(s)) }

  /** Index of the first `c` in `s`, or `|s|` when there is none. */
  function Find(s: string, c: char): (r: nat)
    ensures r <= |s|
    ensures forall i | 0 <= i < r :: s[i] != c
    ensures r < |s| ==> s[r] == c
  {
    if s == [] || s[0] == c then 0 else 1 + Find(s[1..], c)
  }

  predicate StartsWith(s: string, prefix: string) { prefix <= s }

  /** `str::lines` drops one carriage return in front of the newline it splits at. */
  function StripCr(line: string): string {
    if line != [] && line[|line| - 1] == '\r' then line[..|line| - 1] else line
  }

  /** `str::lines`: a last line without a newline keeps its carriage return. */
  function Lines(s: string): seq<string> {
    if s == [] then []
    else
      var i := Find(s, '\n');
      if i == |s| then [s] else [StripCr(s[..i])] + Lines(s[i + 1..])
  }

  /** Every line followed by one newline. */
  function Unlines(ls: seq<string>): string {
    if ls == [] then "" else ls[0] + "\n" + Unlines(ls[1..])
  }

  function StripAll(ls: seq<string>): (r: seq<string>)
    ensures |r| == |ls|
    ensures forall i | 0 <= i < |ls| :: r[i] == StripCr(ls[i])
  {
    seq(|ls|, i requires 0 <= i < |ls| => StripCr(ls[i]))
  }

  /** One step of `Lines`, from the position of the first newline. */
  lemma {:induction false} LinesStep(line: string, rest: string)
    requires '\n' !in line
    ensures Lines(line + "\n" + rest) == [StripCr(line)] + Lines(rest)
  {
    var s := line + "\n" + rest;
    var i := Find(s, '\n');
    assert s[|line|] == '\n';
    assert forall j | 0 <= j < |line| :: s[j] == line[j] && line[j] != '\n';
    assert s[..i] == line && s[i + 1..] == rest;
  }

  /** Reading a text that ends with a newline, then more text, reads both parts. */
  lemma {:induction false} LinesAppend(a: string, b: string)
    ensures Lines(a + "\n" + b) == Lines(a + "\n") + Lines(b)
    decreases |a|
  {
    var i := Find(a, '\n');
    var line := a[..i];
    if i == |a| {
      LinesStep(a, b);
      OneLine(a);
    } else {
      var rest := a[i + 1..];
      calc {
        Lines(a + "\n" + b);
        { assert a + "\n" + b == line + "\n" + (rest + "\n" + b); }
        Lines(line + "\n" + (rest + "\n" + b));
        { LinesStep(line, rest + "\n" + b); }
        [StripCr(line)] + Lines(rest + "\n" + b);
        { LinesAppend(rest, b); }
        [StripCr(line)] + (Lines(rest + "\n") + Lines(b));
        [StripCr(line)] + Lines(rest + "\n") + Lines(b);
        { LinesStep(line, rest + "\n"); }
        Lines(line + "\n" + (rest + "\n")) + Lines(b);
        { assert line + "\n" + (rest + "\n") == a + "\n"; }
        Lines(a + "\n") + Lines(b);
      }
    }
  }

  lemma OneLine(line: string)
    requires '\n' !in line
    ensures Lines(line + "\n") == [StripCr(line)]
  {
    LinesStep(line, "");
    assert line + "\n" + "" == line + "\n";
  }

  lemma LastLine(line: string)
    requires line != "" && '\n' !in line
    ensures Lines(line) == [line]
  {
    assert forall j | 0 <= j < |line| :: line[j] != '\n';
  }

  /** Printing lines and reading them back loses exactly one carriage return per line. */
  lemma {:induction false} LinesOfUnlines(ls: seq<string>)
    requires forall i | 0 <= i < |ls| :: '\n' !in ls[i]
    ensures Lines(Unlines(ls)) == StripAll(ls)
  {
    hide StripCr;
    if ls != [] {
      calc {
        Lines(Unlines(ls));
        Lines(ls[0] + "\n" + Unlines(ls[1..]));
        { LinesStep(ls[0], Unlines(ls[1..])); }
        [StripCr(ls[0])] + Lines(Unlines(ls[1..]));
        { LinesOfUnlines(ls[1..]); }
        [StripCr(ls[0])] + StripAll(ls[1..]);
        StripAll(ls);
      }
    }
  }

  lemma {:induction false} LinesHaveNoNewline(s: string)
    ensures forall i | 0 <= i < |Lines(s)| :: '\n' !in Lines(s)[i]
  {
    if s != [] {
      var i := Find(s, '\n');
      if i < |s| {
        LinesHaveNoNewline(s[i + 1..]);
        assert '\n' !in s[..i];
      }
    }
  }

  lemma TrimSame(t: string)
    requires t != "" && !IsSpace(t[0]) && !IsSpace(t[|t| - 1])
    ensures Trim(t) == t
  {
    assert TrimEnd(t) == t;
  }

  lemma {:induction false} TrimIgnoresCr(line: string)
    ensures Trim(StripCr(line)) == Trim(line)
  {
    if line != [] && line[|line| - 1] == '\r' {
      assert TrimEnd(line) == TrimEnd(line[..|line| - 1]);
    }
  }

  // ----- decimal numbers ------------------------------------------------------------------

  predicate IsDigit(c: char) { '0' <= c <= '9' }

  function Decimal(n: nat): (r: string)
    ensures r != "" && forall i | 0 <= i < |r| :: IsDigit(r[i])
  {
    if n < 10 then [('0' as int + n) as char] else Decimal(n / 10) + [('0' as int + n % 10) as char]
  }

  /** The value of a digit, 0 for any other character. */
  function Digit(c: char): nat { if IsDigit(c) then c as int - '0' as int else 0 }

  function DigitsValue(s: string): nat {
    if s == "" then 0 else DigitsValue(s[..|s| - 1]) * 10 + Digit(s[|s| - 1])
  }

  lemma {:induction false} DecimalReads(n: nat)
    ensures DigitsValue(Decimal(n)) == n
  {
    if n < 10 {
      assert Decimal(n)[..0] == "";
    } else {
      DecimalReads(n / 10);
      var d := Decimal(n);
      assert d[..|d| - 1] == Decimal(n / 10);
    }
  }

  lemma {:induction false} TrimTwice(s: string)
    ensures Trim(Trim(s)) == Trim(s)
  {
    var t := Trim(s);
    if t != "" {
      TrimStartIsSuffix(TrimEnd(s));
      assert t[|t| - 1] == TrimEnd(s)[|TrimEnd(s)| - 1];
      TrimSame(t);
    }
  }

  lemma TrimNewline(s: string)
    ensures Trim(s + "\n") == Trim(s)
  {
    assert (s + "\n")[..|s|] == s;
  }
}
