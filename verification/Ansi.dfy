/** ANSI colour sequences to HTML spans, as the log viewers do it (assets/static/ansi-to-html.js). */
module Ansi {
  import opened Text

  const ESC := '\U{1B}'

  predicate IsParam(c: char) { '0' <= c <= '9' || c == ';' }

  /** Length of the run of parameter characters at the front. */
  function ParamRun(s: string): (n: nat)
    ensures n <= |s|
    ensures forall i | 0 <= i < n :: IsParam(s[i])
    ensures n < |s| ==> !IsParam(s[n])
  {
    if s == "" || !IsParam(s[0]) then 0 else 1 + ParamRun(s[1..])
  }

  /** Length of the SGR sequence `ESC [ params m` at the front, 0 when there is none. */
  function SgrLength(s: string): (n: nat)
    ensures n <= |s|
    ensures n > 0 ==> n >= 3
  {
    if |s| < 2 || s[0] != ESC || s[1] != '[' then 0
    else
      var p := ParamRun(s[2..]);
      if 2 + p < |s| && s[2 + p] == 'm' then p + 3 else 0
  }

  /** Deletes every SGR sequence. */
  function StripAnsi(s: string): string {
    if s == "" then ""
    else
      var n := SgrLength(s);
      if n > 0 then StripAnsi(s[n..]) else [s[0]] + StripAnsi(s[1..])
  }

  // ----- parameters -----------------------------------------------------------------------

  /** The parameters between the bracket and the m; an empty one reads as 0. */
  function Codes(params: string): seq<nat> {
    var i := Find(params, ';');
    if i == |params| then [DigitsValue(params)] else [DigitsValue(params[..i])] + Codes(params[i + 1..])
  }

  // ----- styles ---------------------------------------------------------------------------

  const BOLD := "font-weight:600"

  function Foreground(code: nat): Option<string> {
    match code
    case 30 => Some("#6e7681")
    case 31 => Some("#f87171")
    case 32 => Some("#4ade80")
    case 33 => Some("#facc15")
    case 34 => Some("#60a5fa")
    case 35 => Some("#c084fc")
    case 36 => Some("#22d3ee")
    case 37 => Some("#f4f4f5")
    case 90 => Some("#9ca3af")
    case 91 => Some("#fca5a5")
    case 92 => Some("#86efac")
    case 93 => Some("#fde047")
    case 94 => Some("#93c5fd")
    case 95 => Some("#d8b4fe")
    case 96 => Some("#67e8f9")
    case 97 => Some("#ffffff")
    case _ => None
  }

  /** The style a code switches on, if it is one of the supported ones. */
  function StyleOf(code: nat): Option<string> {
    if code == 1 then Some(BOLD)
    else if Foreground(code).Some? then Some("color:" + Foreground(code).value)
    else None
  }

  predicate IsReset(code: nat) { code == 0 || code == 39 }

  /** The styles in force after one more code: a reset drops all of them. */
  function AfterCode(styles: seq<string>, code: nat): seq<string> {
    if IsReset(code) then []
    else if StyleOf(code).Some? then styles + [StyleOf(code).value]
    else styles
  }

  function AfterCodes(styles: seq<string>, codes: seq<nat>): seq<string>
    decreases |codes|
  {
    if codes == [] then styles else AfterCodes(AfterCode(styles, codes[0]), codes[1..])
  }

  // ----- what the input means -------------------------------------------------------------

  /** A character and the styles it is shown in. */
  datatype Shown = Shown(c: char, styles: seq<string>)

  /** The terminal's view: every character with the style codes seen since the last reset. */
  function Meaning(s: string, styles: seq<string>): seq<Shown>
    decreases |s|
  {
    if s == "" then []
    else
      var n := SgrLength(s);
      if n > 0 then Meaning(s[n..], AfterCodes(styles, SgrCodes(s)))
      else [Shown(s[0], styles)] + Meaning(s[1..], styles)
  }

  function SgrCodes(s: string): seq<nat>
    requires SgrLength(s) > 0
  {
    Codes(s[2..SgrLength(s) - 1])
  }

  // ----- what the input means, without the decoder ----------------------------------------

  /** Exactly these prefixes are colour sequences: ESC [, digits and semicolons, then m. */
  lemma SequenceIff(s: string, n: nat)
    requires 0 < n <= |s|
    ensures SgrLength(s) == n <==>
            && n >= 3 && s[0] == '\U{1B}' && s[1] == '[' && s[n - 1] == 'm'
            && forall i | 2 <= i < n - 1 :: '0' <= s[i] <= '9' || s[i] == ';'
  {
    if n >= 3 {
      var params, rest := s[2..n - 1], s[n - 1..];
      assert s[2..] == params + rest;
      if s[n - 1] == 'm' && forall i | 2 <= i < n - 1 :: '0' <= s[i] <= '9' || s[i] == ';' {
        forall i | 0 <= i < |params| ensures IsParam(params[i]) { assert params[i] == s[i + 2]; }
        ParamRunIs(params, rest);
      }
    }
    if SgrLength(s) == n {
      forall i | 2 <= i < n - 1 ensures IsParam(s[i]) { assert s[i] == s[2..][i - 2]; }
    }
  }

  lemma {:induction false} ParamRunIs(params: string, rest: string)
    requires forall i | 0 <= i < |params| :: IsParam(params[i])
    requires rest != "" && !IsParam(rest[0])
    ensures ParamRun(params + rest) == |params|
  {
    if params == "" {
      assert params + rest == rest;
    } else {
      assert (params + rest)[1..] == params[1..] + rest;
      ParamRunIs(params[1..], rest);
    }
  }

  /** A parameter as a program prints it: in decimal, an omitted one as nothing. */
  function PrintedOne(code: Option<nat>): string { if code.Some? then Decimal(code.value) else "" }

  function MeantOne(code: Option<nat>): nat { if code.Some? then code.value else 0 }

  /** Parameters joined with semicolons. */
  function Printed(codes: seq<Option<nat>>): string
    requires codes != []
  {
    if |codes| == 1 then PrintedOne(codes[0]) else PrintedOne(codes[0]) + ";" + Printed(codes[1..])
  }

  /** The codes meant: an omitted one is 0. */
  function Meant(codes: seq<Option<nat>>): (r: seq<nat>)
    ensures |r| == |codes| && forall i | 0 <= i < |codes| :: r[i] == MeantOne(codes[i])
  {
    seq(|codes|, i requires 0 <= i < |codes| => MeantOne(codes[i]))
  }

  lemma OneReads(code: Option<nat>)
    ensures DigitsValue(PrintedOne(code)) == MeantOne(code)
    ensures forall i | 0 <= i < |PrintedOne(code)| :: IsDigit(PrintedOne(code)[i])
  {
    hide Text.Decimal;
    if code.Some? { DecimalReads(code.value); }
  }

  lemma CodesCons(first: string, rest: string)
    requires forall i | 0 <= i < |first| :: first[i] != ';'
    ensures Codes(first + ";" + rest) == [DigitsValue(first)] + Codes(rest)
    ensures Codes(first) == [DigitsValue(first)]
  {
    hide Text.DigitsValue;
    var p := first + ";" + rest;
    assert p[|first|] == ';' && forall i | 0 <= i < |first| :: p[i] == first[i];
    assert Find(p, ';') == |first|;
    assert p[..|first|] == first && p[|first| + 1..] == rest;
    assert Find(first, ';') == |first|;
  }

  lemma {:induction false} PrintedReads(codes: seq<Option<nat>>)
    requires codes != []
    ensures Codes(Printed(codes)) == Meant(codes)
    ensures forall i | 0 <= i < |Printed(codes)| :: IsParam(Printed(codes)[i])
  {
    hide Codes, PrintedOne, MeantOne, Text.DigitsValue;
    var first := PrintedOne(codes[0]);
    OneReads(codes[0]);
    CodesCons(first, if |codes| == 1 then "" else Printed(codes[1..]));
    if |codes| > 1 {
      PrintedReads(codes[1..]);
      assert Meant(codes) == [MeantOne(codes[0])] + Meant(codes[1..]);
    }
  }

  /** A printed colour sequence is recognised whole and switches on exactly the codes it was printed from. */
  lemma PrintedSequenceMeans(codes: seq<Option<nat>>, s: string, styles: seq<string>)
    requires codes != []
    ensures var sequence := "\U{1B}[" + Printed(codes) + "m";
            && SgrLength(sequence + s) == |sequence|
            && Meaning(sequence + s, styles) == Meaning(s, AfterCodes(styles, Meant(codes)))
            && StripAnsi(sequence + s) == StripAnsi(s)
  {
    hide AfterCodes, Codes, Printed, SgrLength;
    var params := Printed(codes);
    var sequence := "\U{1B}[" + params + "m";
    var all := sequence + s;
    PrintedReads(codes);
    assert all[0] == ESC && all[1] == '[' && all[|sequence| - 1] == 'm' && all[2..|sequence| - 1] == params;
    forall i | 2 <= i < |sequence| - 1 ensures IsParam(all[i]) { assert all[i] == params[i - 2]; }
    SequenceIff(all, |sequence|);
    assert all[|sequence|..] == s;
  }

  /** Every other character is shown, in the styles in force. */
  lemma OtherwiseShown(c: char, s: string, styles: seq<string>)
    requires SgrLength([c] + s) == 0
    ensures Meaning([c] + s, styles) == [Shown(c, styles)] + Meaning(s, styles)
    ensures StripAnsi([c] + s) == [c] + StripAnsi(s)
  {
    hide SgrLength;
    assert ([c] + s)[1..] == s;
  }

  predicate NoReset(codes: seq<nat>) { forall i | 0 <= i < |codes| :: codes[i] != 0 && codes[i] != 39 }

  /** The styles of the supported codes, in order. */
  function StylesOf(codes: seq<nat>): seq<string> {
    if codes == [] then []
    else
      var last := codes[|codes| - 1];
      StylesOf(codes[..|codes| - 1]) + if Supported(last) then [StyleText(last)] else []
  }

  predicate Supported(code: nat) { code == 1 || 30 <= code <= 37 || 90 <= code <= 97 }

  const NORMAL := ["#6e7681", "#f87171", "#4ade80", "#facc15", "#60a5fa", "#c084fc", "#22d3ee", "#f4f4f5"]
  const BRIGHT := ["#9ca3af", "#fca5a5", "#86efac", "#fde047", "#93c5fd", "#d8b4fe", "#67e8f9", "#ffffff"]

  function StyleText(code: nat): string
    requires Supported(code)
  {
    if code == 1 then "font-weight:600" else "color:" + if code < 90 then NORMAL[code - 30] else BRIGHT[code - 90]
  }

  /** Only the codes after the last reset count, and of these the supported ones, in order. */
  lemma {:induction false} StylesAfter(styles: seq<string>, codes: seq<nat>, k: nat)
    requires k <= |codes| && NoReset(codes[k..])
    requires k > 0 ==> codes[k - 1] == 0 || codes[k - 1] == 39
    ensures AfterCodes(styles, codes) == (if k > 0 then [] else styles) + StylesOf(codes[k..])
    decreases |codes|
  {
    hide Foreground, StyleText, StyleOf;
    if codes != [] {
      var n := |codes| - 1;
      var before, last := codes[..n], codes[n];
      assert codes == before + [last];
      AfterOneMore(styles, before, last);
      if k == |codes| {
        assert codes[k..] == [];
      } else {
        assert codes[k..][n - k] == last && before[k..] == codes[k..][..n - k];
        StylesAfter(styles, before, k);
        StyleTable(last);
      }
    }
  }

  lemma {:induction false} AfterOneMore(styles: seq<string>, codes: seq<nat>, last: nat)
    ensures AfterCodes(styles, codes + [last]) == AfterCode(AfterCodes(styles, codes), last)
    decreases |codes|
  {
    hide AfterCode;
    if codes == [] {
      assert [last][1..] == [];
    } else {
      assert (codes + [last])[1..] == codes[1..] + [last];
      AfterOneMore(AfterCode(styles, codes[0]), codes[1..], last);
    }
  }

  lemma StyleTable(code: nat)
    ensures StyleOf(code) == if Supported(code) then Some(StyleText(code)) else None
  {
  }

  // ----- what the output means ------------------------------------------------------------

  /** A reader of the produced HTML: None when a tag is not closed, or closes nothing. */
  function ReadHtml(h: string, open: seq<string>): Option<seq<Shown>>
    decreases |h|
  {
    if h == "" then if open == [] then Some([]) else None
    else if h[0] == '<' then
      var end := Find(h, '>');
      if end == |h| then None
      else if h[1..end] == "/span" then
        if open == [] then None else ReadHtml(h[end + 1..], open[..|open| - 1])
      else if end >= 14 && h[1..13] == "span style=\"" && h[end - 1] == '"' then
        ReadHtml(h[end + 1..], open + [h[13..end - 1]])
      else None
    else if h[0] == '&' then
      if "&amp;" <= h then Show('&', open, ReadHtml(h[5..], open))
      else if "&lt;" <= h then Show('<', open, ReadHtml(h[4..], open))
      else if "&gt;" <= h then Show('>', open, ReadHtml(h[4..], open))
      else None
    else if h[0] == '>' then None
    else Show(h[0], open, ReadHtml(h[1..], open))
  }

  function Show(c: char, open: seq<string>, rest: Option<seq<Shown>>): Option<seq<Shown>> {
    if rest.Some? then Some([Shown(c, open)] + rest.value) else None
  }

  // ----- what is printed ------------------------------------------------------------------

  function EscapeChar(c: char): string {
    if c == '&' then "&amp;" else if c == '<' then "&lt;" else if c == '>' then "&gt;" else [c]
  }

  function EscapeHtml(s: string): string {
    if s == "" then "" else EscapeChar(s[0]) + EscapeHtml(s[1..])
  }

  const CLOSE := "</span>"

  function OpenTag(style: string): string { "<span style=\"" + style + "\">" }

  function Closers(n: nat): string { if n == 0 then "" else CLOSE + Closers(n - 1) }

  function CodeHtml(open: nat, code: nat): string {
    if IsReset(code) then Closers(open)
    else if StyleOf(code).Some? then OpenTag(StyleOf(code).value)
    else ""
  }

  function OpenAfter(open: nat, code: nat): nat {
    if IsReset(code) then 0 else if StyleOf(code).Some? then open + 1 else open
  }

  function CodesHtml(open: nat, codes: seq<nat>): string
    decreases |codes|
  {
    if codes == [] then "" else CodeHtml(open, codes[0]) + CodesHtml(OpenAfter(open, codes[0]), codes[1..])
  }

  function OpenAfterAll(open: nat, codes: seq<nat>): nat
    decreases |codes|
  {
    if codes == [] then open else OpenAfterAll(OpenAfter(open, codes[0]), codes[1..])
  }

  /** The HTML for the rest of the input when `open` spans are open. */
  function Html(s: string, open: nat): string
    decreases |s|
  {
    if s == "" then Closers(open)
    else
      var n := SgrLength(s);
      if n > 0 then CodesHtml(open, SgrCodes(s)) + Html(s[n..], OpenAfterAll(open, SgrCodes(s)))
      else EscapeChar(s[0]) + Html(s[1..], open)
  }

  // ----- the loops of the original --------------------------------------------------------

  /** Position of the next SGR sequence at or after `from`, or the length. */
  method NextMatch(s: string, from: nat) returns (at: nat)
    requires from <= |s|
    ensures from <= at <= |s|
    ensures at < |s| ==> SgrLength(s[at..]) > 0
    ensures forall k | from <= k < at :: SgrLength(s[k..]) == 0
  {
    at := from;
    while at < |s| && SgrLength(s[at..]) == 0
      invariant from <= at <= |s|
      invariant forall k | from <= k < at :: SgrLength(s[k..]) == 0
    {
      at := at + 1;
    }
  }

  /** The inner loop `while (open > 0)`: closes every open span. */
  method CloseAll(out: string, open: nat) returns (r: string)
    ensures r == out + Closers(open)
  {
    r := out;
    var n := open;
    while n > 0
      invariant out + Closers(open) == r + Closers(n)
    {
      Associate(r, CLOSE, Closers(n - 1));
      r := r + CLOSE;
      n := n - 1;
    }
  }

  method ApplyCodes(codes: seq<nat>, open0: nat) returns (html: string, open: nat)
    ensures html == CodesHtml(open0, codes) && open == OpenAfterAll(open0, codes)
  {
    hide Foreground, OpenTag, StyleOf, Closers;
    html, open := "", open0;
    for k := 0 to |codes|
      invariant CodesHtml(open0, codes) == html + CodesHtml(open, codes[k..])
      invariant OpenAfterAll(open0, codes) == OpenAfterAll(open, codes[k..])
    {
      var c := codes[k];
      assert codes[k..][1..] == codes[k + 1..];
      Associate(html, CodeHtml(open, c), CodesHtml(OpenAfter(open, c), codes[k + 1..]));
      if c == 0 || c == 39 {
        html := CloseAll(html, open);
        open := 0;
      } else if StyleOf(c).Some? {
        html := html + OpenTag(StyleOf(c).value);
        open := open + 1;
      } else {
        assert html + "" == html;
      }
    }
  }

  method AnsiToHtml(raw: string) returns (out: string)
    ensures out == Html(raw, 0)
  {
    hide SgrLength, Codes, CodesHtml, OpenAfterAll, EscapeHtml, Html;
    HtmlEnds(raw);
    if raw == "" {
      return "";
    }
    var open, i := 0, 0;
    out := "";
    var at := NextMatch(raw, i);
    while at < |raw|
      invariant i <= at <= |raw|
      invariant at < |raw| ==> SgrLength(raw[at..]) > 0
      invariant forall k | i <= k < at :: SgrLength(raw[k..]) == 0
      invariant Html(raw, 0) == out + Html(raw[i..], open)
      decreases |raw| - i
    {
      PlainText(raw, i, at, open);
      Associate(out, EscapeHtml(raw[i..at]), Html(raw[at..], open));
      out := out + EscapeHtml(raw[i..at]);
      var n := SgrLength(raw[at..]);
      i := at + n;
      var codes := Codes(raw[at + 2..i - 1]);
      var html, next := ApplyCodes(codes, open);
      SequenceHtml(raw, at, open);
      Associate(out, html, Html(raw[i..], next));
      out, open := out + html, next;
      at := NextMatch(raw, i);
    }
    PlainText(raw, i, |raw|, open);
    HtmlEnds(raw);
    assert raw[i..|raw|] == raw[i..];
    Associate(out, EscapeHtml(raw[i..]), Html(raw[|raw|..], open));
    out := out + EscapeHtml(raw[i..]);
    out := CloseAll(out, open);
  }

  lemma Associate(a: string, b: string, c: string)
    ensures a + (b + c) == a + b + c
  {
  }

  lemma HtmlEnds(s: string)
    ensures s[0..] == s && Html("", 0) == "" && forall open :: Html(s[|s|..], open) == Closers(open)
  {
  }

  lemma SequenceHtml(s: string, at: nat, open: nat)
    requires at < |s| && SgrLength(s[at..]) > 0
    ensures var n := SgrLength(s[at..]);
            var codes := Codes(s[at + 2..at + n - 1]);
            Html(s[at..], open) == CodesHtml(open, codes) + Html(s[at + n..], OpenAfterAll(open, codes))
  {
    hide Codes, CodesHtml, OpenAfterAll, SgrLength, EscapeChar;
    var n := SgrLength(s[at..]);
    assert s[at..][2..n - 1] == s[at + 2..at + n - 1] && s[at..][n..] == s[at + n..];
  }

  /** Up to the next sequence the output is the escaped text. */
  lemma {:induction false} PlainText(s: string, i: nat, at: nat, open: nat)
    requires i <= at <= |s| && forall k | i <= k < at :: SgrLength(s[k..]) == 0
    ensures Html(s[i..], open) == EscapeHtml(s[i..at]) + Html(s[at..], open)
    decreases at - i
  {
    hide SgrLength, EscapeChar, Codes, CodesHtml;
    if i == at {
      assert s[i..at] == "";
    } else {
      PlainText(s, i + 1, at, open);
      assert s[i..][1..] == s[i + 1..] && s[i..at][1..] == s[i + 1..at];
      assert EscapeHtml(s[i..at]) == EscapeChar(s[i]) + EscapeHtml(s[i + 1..at]);
    }
  }

  // ----- the output means what the input means --------------------------------------------

  predicate TagSafe(style: string) { '>' !in style }

  lemma ReadOpenTag(style: string, rest: string, open: seq<string>)
    requires TagSafe(style)
    ensures ReadHtml(OpenTag(style) + rest, open) == ReadHtml(rest, open + [style])
  {
    var tag := OpenTag(style);
    var h := tag + rest;
    var end := 14 + |style|;
    assert tag[..13] == "<span style=\"" && tag[13..end - 1] == style && tag[end - 1] == '"' && tag[end] == '>';
    assert forall k | 0 <= k < end :: h[k] == tag[k] && tag[k] != '>';
    assert h[end] == '>';
    assert Find(h, '>') == end;
    assert h[1..end] == tag[1..end];
    assert tag[1..end][0] == 's';
    assert h[1..13] == tag[1..13] == "span style=\"";
    assert h[13..end - 1] == style && h[end + 1..] == rest;
  }

  lemma ReadClose(rest: string, open: seq<string>)
    requires open != []
    ensures ReadHtml(CLOSE + rest, open) == ReadHtml(rest, open[..|open| - 1])
  {
    CloseShape();
    ReadTag(CLOSE, rest, open);
  }

  lemma CloseShape()
    ensures |CLOSE| == 7 && CLOSE[0] == '<' && CLOSE[6] == '>' && CLOSE[1..6] == "/span"
    ensures '>' !in CLOSE[..6]
  {
  }

  /** Any tag-shaped text is cut at its end; a closing one pops the innermost span. */
  lemma ReadTag(tag: string, rest: string, open: seq<string>)
    requires |tag| >= 2 && tag[0] == '<' && tag[|tag| - 1] == '>' && '>' !in tag[..|tag| - 1]
    requires tag[1..|tag| - 1] == "/span" && open != []
    ensures ReadHtml(tag + rest, open) == ReadHtml(rest, open[..|open| - 1])
  {
    var h := tag + rest;
    var end := |tag| - 1;
    assert forall k | 0 <= k < end :: h[k] == tag[..end][k];
    assert h[end] == '>';
    assert Find(h, '>') == end;
    assert h[1..end] == tag[1..end] && h[end + 1..] == rest;
  }

  lemma {:induction false} ReadClosers(n: nat, rest: string, open: seq<string>)
    requires n == |open|
    ensures ReadHtml(Closers(n) + rest, open) == ReadHtml(rest, [])
  {
    hide ReadHtml;
    if n == 0 {
      assert Closers(0) + rest == rest;
    } else {
      assert Closers(n) + rest == CLOSE + (Closers(n - 1) + rest);
      ReadClose(Closers(n - 1) + rest, open);
      ReadClosers(n - 1, rest, open[..n - 1]);
    }
  }

  lemma ReadChar(c: char, rest: string, open: seq<string>)
    ensures ReadHtml(EscapeChar(c) + rest, open) == Show(c, open, ReadHtml(rest, open))
  {
    var h := EscapeChar(c) + rest;
    if c == '&' {
      assert "&amp;" <= h && h[5..] == rest;
    } else if c == '<' {
      assert h[1] == 'l' && "&lt;" <= h && h[4..] == rest;
    } else if c == '>' {
      assert h[1] == 'g' && "&gt;" <= h && h[4..] == rest;
    } else {
      assert h[1..] == rest;
    }
  }

  lemma StylesAreTagSafe(code: nat)
    ensures StyleOf(code).Some? ==> TagSafe(StyleOf(code).value)
  {
  }

  lemma ReadCode(code: nat, rest: string, open: seq<string>)
    ensures ReadHtml(CodeHtml(|open|, code) + rest, open) == ReadHtml(rest, AfterCode(open, code))
    ensures |AfterCode(open, code)| == OpenAfter(|open|, code)
  {
    hide ReadHtml, StyleOf, OpenTag, TagSafe;
    if IsReset(code) {
      ReadClosers(|open|, rest, open);
    } else {
      StylesAreTagSafe(code);
      if StyleOf(code).Some? {
        ReadOpenTag(StyleOf(code).value, rest, open);
      } else {
        assert "" + rest == rest;
      }
    }
  }

  lemma {:induction false} ReadCodes(codes: seq<nat>, rest: string, open: seq<string>)
    ensures ReadHtml(CodesHtml(|open|, codes) + rest, open) == ReadHtml(rest, AfterCodes(open, codes))
    ensures |AfterCodes(open, codes)| == OpenAfterAll(|open|, codes)
    decreases |codes|
  {
    hide ReadHtml, CodeHtml, AfterCode, OpenAfter;
    if codes == [] {
      assert "" + rest == rest;
    } else {
      var next := AfterCode(open, codes[0]);
      ReadCode(codes[0], CodesHtml(OpenAfter(|open|, codes[0]), codes[1..]) + rest, open);
      ReadCodes(codes[1..], rest, next);
      assert CodesHtml(|open|, codes) + rest
          == CodeHtml(|open|, codes[0]) + (CodesHtml(OpenAfter(|open|, codes[0]), codes[1..]) + rest);
    }
  }

  /**
   * The translation preserves meaning: for every input the output is well nested and closed, and
   * reading it gives every character of the input, each inside exactly the spans of the style
   * codes seen since the last reset.
   */
  lemma {:induction false} HtmlMeansInput(s: string, open: seq<string>)
    ensures ReadHtml(Html(s, |open|), open) == Some(Meaning(s, open))
    decreases |s|
  {
    hide ReadHtml, CodesHtml, AfterCodes, OpenAfterAll, EscapeChar, SgrCodes, SgrLength;
    if s == "" {
      ReadClosers(|open|, "", open);
      assert Closers(|open|) + "" == Closers(|open|);
      ReadNothing();
    } else {
      var n := SgrLength(s);
      if n > 0 {
        var codes := SgrCodes(s);
        var next := AfterCodes(open, codes);
        ReadCodes(codes, Html(s[n..], OpenAfterAll(|open|, codes)), open);
        HtmlMeansInput(s[n..], next);
      } else {
        ReadChar(s[0], Html(s[1..], |open|), open);
        HtmlMeansInput(s[1..], open);
      }
    }
  }

  lemma ReadNothing()
    ensures ReadHtml("", []) == Some([])
  {
  }

  function Characters(shown: seq<Shown>): string {
    if shown == [] then "" else [shown[0].c] + Characters(shown[1..])
  }

  /** Forgetting the styles, the meaning is the stripped text. */
  lemma {:induction false} MeaningIsStripped(s: string, styles: seq<string>)
    ensures Characters(Meaning(s, styles)) == StripAnsi(s)
    decreases |s|
  {
    hide SgrLength, SgrCodes, AfterCodes;
    if s != "" {
      var n := SgrLength(s);
      if n > 0 {
        MeaningIsStripped(s[n..], AfterCodes(styles, SgrCodes(s)));
      } else {
        MeaningIsStripped(s[1..], styles);
        var rest := Meaning(s[1..], styles);
        assert ([Shown(s[0], styles)] + rest)[1..] == rest;
      }
    }
  }

  /** Deleting the tags of the output and decoding its entities gives exactly the stripped input. */
  lemma HtmlTextIsStripped(s: string)
    ensures ReadHtml(Html(s, 0), []).Some? && Characters(ReadHtml(Html(s, 0), []).value) == StripAnsi(s)
  {
    hide ReadHtml, Html, Meaning;
    HtmlMeansInput(s, []);
    MeaningIsStripped(s, []);
  }

  /** Text without escape characters is left alone. */
  lemma {:induction false} StripKeepsPlain(s: string)
    requires ESC !in s
    ensures StripAnsi(s) == s
  {
    if s != "" {
      assert s[0] in s;
      StripKeepsPlain(s[1..]);
    }
  }
}
