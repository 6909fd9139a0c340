/** The line scan that decides whether a compose stack may be moved (api/migration.rs). */
module ComposeScan {
  import opened Text

  datatype Reason = TopLevelVolumes | NonBindEntry(entry: string)

  datatype Verdict = Stateless | Stateful(reason: Reason)

  /** What the scan sees of one line: its indentation and its text without indentation and trailing space. */
  datatype Line = Line(indent: nat, text: string)

  function IndentOf(s: string): nat {
    if s != "" && (s[0] == ' ' || s[0] == '\t') then 1 + IndentOf(s[1..]) else 0
  }

  lemma {:induction false} IndentFits(s: string)
    ensures IndentOf(s) <= |s|
  {
    if s != "" { IndentFits(s[1..]); }
  }

  const VOLUMES := "volumes:"

  predicate IsVolumesKey(s: string) { VOLUMES <= s }

  predicate IsItem(s: string) { "- " <= s }

  /** The text of a list entry, up to an inline comment. */
  function EntryOf(item: string): string
    requires IsItem(item)
  {
    var entry := Trim(item[2..]);
    Trim(entry[..Find(entry, '#')])
  }

  /** A path, plain or quoted: what the scan takes for a bind mount. */
  predicate LooksBind(entry: string) {
    || (entry != "" && (entry[0] == '/' || entry[0] == '.'))
    || (|entry| > 1 && (entry[0] == '"' || entry[0] == '\'') && (entry[1] == '/' || entry[1] == '.'))
  }

  // ----- the scan as a fold over lines ----------------------------------------------------

  /** The scan's variables: the block's indentation while inside a service's volumes, or the answer. */
  datatype Scan = Scanning(block: Option<nat>) | Found(reason: Reason)

  function Skipped(raw: string): bool {
    var line := TrimEnd(raw);
    line == "" || TrimStart(line) == "" || TrimStart(line)[0] == '#'
  }

  function LineOf(raw: string): Line {
    var line := TrimEnd(raw);
    IndentFits(line);
    Line(IndentOf(line), line[IndentOf(line)..])
  }

  function ScanLine(sc: Scan, raw: string): Scan {
    if sc.Found? || Skipped(raw) then sc else ScanText(sc.block, LineOf(raw))
  }

  function ScanText(block0: Option<nat>, line: Line): Scan {
    var block := if block0.Some? && line.indent <= block0.value then None else block0;
    var item := TrimStart(line.text);
    if line.indent == 0 && IsVolumesKey(line.text) then Found(TopLevelVolumes)
    else if line.indent > 0 && IsVolumesKey(item) then Scanning(Some(line.indent))
    else if block.None? then Scanning(None)
    else if IsItem(item) then
      if LooksBind(EntryOf(item)) then Scanning(block)
      else Found(NonBindEntry(EntryOf(item)))
    else if item != "" && item[0] == '-' then Scanning(block)
    else Scanning(None)
  }

  function ScanAll(sc: Scan, raws: seq<string>): Scan {
    if raws == [] then sc else ScanLine(ScanAll(sc, raws[..|raws| - 1]), raws[|raws| - 1])
  }

  function VerdictOf(sc: Scan): Verdict { if sc.Found? then Stateful(sc.reason) else Stateless }

  function Checked(yaml: string): Verdict { VerdictOf(ScanAll(Scanning(None), Lines(yaml))) }

  function BlockOf(inBlock: bool, currentIndent: nat): Option<nat> { if inBlock then Some(currentIndent) else None }

  /** One round of the scan's loop: the two variables afterwards, or the reason to refuse. */
  method CheckLine(raw: string, inBlock0: bool, currentIndent0: nat)
    returns (inBlock: bool, currentIndent: nat, reason: Option<Reason>)
    ensures ScanLine(Scanning(BlockOf(inBlock0, currentIndent0)), raw)
         == if reason.Some? then Found(reason.value) else Scanning(BlockOf(inBlock, currentIndent))
  {
    hide Text.TrimStart, Text.TrimEnd, IndentOf, LooksBind, EntryOf, IsItem, IsVolumesKey;
    inBlock, currentIndent, reason := inBlock0, currentIndent0, None;
    var line := TrimEnd(raw);
    if line == "" || TrimStart(line) == "" || TrimStart(line)[0] == '#' {
      return;
    }
    var indent := IndentOf(line);
    IndentFits(line);
    var stripped := line[indent..];
    if inBlock && indent <= currentIndent {
      inBlock := false;
    }
    if indent == 0 && IsVolumesKey(stripped) {
      reason := Some(TopLevelVolumes);
      return;
    }
    if indent > 0 && IsVolumesKey(TrimStart(stripped)) {
      inBlock, currentIndent := true, indent;
      return;
    }
    if inBlock {
      var item := TrimStart(stripped);
      if IsItem(item) {
        var entry := EntryOf(item);
        if !LooksBind(entry) {
          reason := Some(NonBindEntry(entry));
        }
      } else if item == "" || item[0] != '-' {
        inBlock := false;
      }
    }
  }

  method CheckStackStateless(yaml: string) returns (v: Verdict)
    ensures v == Checked(yaml)
  {
    hide Text.Lines, ScanLine;
    var raws := Lines(yaml);
    var inServiceVolumesBlock := false;
    var currentIndent: nat := 0;
    for n := 0 to |raws|
      invariant ScanAll(Scanning(None), raws[..n]) == Scanning(BlockOf(inServiceVolumesBlock, currentIndent))
    {
      assert raws[..n + 1][..n] == raws[..n];
      ghost var before := Scanning(BlockOf(inServiceVolumesBlock, currentIndent));
      var inBlock, indent, reason := CheckLine(raws[n], inServiceVolumesBlock, currentIndent);
      if reason.Some? {
        FoundStays(before, raws, n);
        return Stateful(reason.value);
      }
      inServiceVolumesBlock, currentIndent := inBlock, indent;
    }
    assert raws[..|raws|] == raws;
    return Stateless;
  }

  /** Once a line gives an answer, the lines behind it do not change it. */
  lemma {:induction false} FoundStays(before: Scan, raws: seq<string>, n: nat)
    requires n < |raws| && ScanAll(Scanning(None), raws[..n]) == before && ScanLine(before, raws[n]).Found?
    ensures ScanAll(Scanning(None), raws) == ScanLine(before, raws[n])
  {
    hide ScanLine;
    assert raws[..n + 1][..n] == raws[..n];
    FoundIsFinal(raws, n + 1);
  }

  lemma {:induction false} FoundIsFinal(raws: seq<string>, n: nat)
    requires n <= |raws| && ScanAll(Scanning(None), raws[..n]).Found?
    ensures ScanAll(Scanning(None), raws) == ScanAll(Scanning(None), raws[..n])
    decreases |raws| - n
  {
    hide Skipped, ScanText;
    if n == |raws| {
      assert raws[..n] == raws;
    } else {
      assert raws[..n + 1][..n] == raws[..n];
      FoundIsFinal(raws, n + 1);
    }
  }

  // ----- one line inside a service's volumes ----------------------------------------------

  /** A list entry inside the block: a path goes on, anything else is the answer, with the entry as its reason. */
  lemma EntryInBlock(block: nat, indent: nat, e: string)
    requires indent > block && e != "" && Trim(e) == e && '#' !in e
    ensures ScanText(Some(block), Line(indent, "- " + e))
         == if "/" <= e || "." <= e || "\"/" <= e || "\"." <= e || "'/" <= e || "'." <= e
            then Scanning(Some(block)) else Found(NonBindEntry(e))
  {
    hide Text.Trim, LooksBind, IsVolumesKey;
    var item := "- " + e;
    assert item[0] == '-' && item[2..] == e;
    assert TrimStart(item) == item;
    assert !IsVolumesKey(item) by { NotTheKey(item); }
    assert Find(e, '#') == |e| && e[..|e|] == e;
    PathPrefixes(e);
  }

  lemma NotTheKey(item: string)
    requires item != "" && item[0] == '-'
    ensures !IsVolumesKey(item)
  {
  }

  lemma PathPrefixes(e: string)
    ensures LooksBind(e) <==> "/" <= e || "." <= e || "\"/" <= e || "\"." <= e || "'/" <= e || "'." <= e
  {
  }

  /** Any other line inside it: one that starts with a dash goes on, one that does not ends the block. */
  lemma OtherInBlock(block: nat, indent: nat, text: string)
    requires indent > block && text != "" && !IsSpace(text[0]) && !("volumes:" <= text) && !("- " <= text)
    ensures ScanText(Some(block), Line(indent, text)) == Scanning(if text[0] == '-' then Some(block) else None)
  {
    assert TrimStart(text) == text;
  }
}
