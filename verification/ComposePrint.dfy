/** Structured compose stacks, their block-style text, and what the line scan makes of it. */
module ComposePrint {
  import opened Text
  import opened ComposeScan

  datatype Quote = Bare | Single | Double

  /** A short-form volume entry: `source:rest`, or only a container path. */
  datatype Entry = Entry(source: Option<string>, rest: string, quote: Quote)

  /** A field of a service; the entries of a list may stand at any indentation from that of its key on. */
  datatype Item =
    | Field(text: string)
    | Nested(text: string, lines: seq<Line>)
    | Volumes(indent: nat, entries: seq<Entry>)

  /** A service and the indentation of its fields. */
  datatype Service = Service(header: string, indent: nat, items: seq<Item>)

  /** A top-level section; the services have one indentation for their names. */
  datatype Section =
    | Services(indent: nat, services: seq<Service>)
    | TopVolumes(lines: seq<Line>)
    | Other(header: string, lines: seq<Line>)

  type Compose = seq<Section>

  // ----- block-style text -----------------------------------------------------------------

  /** A line's text: something, neither indented nor a comment nor trailed by spaces. */
  predicate Plain(t: string) {
    t != "" && !IsSpace(t[0]) && t[0] != '#' && !IsSpace(t[|t| - 1]) && '\n' !in t
  }

  predicate PlainLines(ls: seq<Line>, above: nat) {
    forall i | 0 <= i < |ls| :: Plain(ls[i].text) && !IsVolumesKey(ls[i].text) && ls[i].indent >= above
  }

  function Content(e: Entry): string { if e.source.Some? then e.source.value + ":" + e.rest else e.rest }

  function EntryText(e: Entry): string {
    match e.quote
    case Bare => Content(e)
    case Single => "'" + Content(e) + "'"
    case Double => "\"" + Content(e) + "\""
  }

  function EntryLines(es: seq<Entry>, indent: nat): (r: seq<Line>)
    ensures |r| == |es| && forall i | 0 <= i < |es| :: r[i] == Line(indent, "- " + EntryText(es[i]))
  {
    seq(|es|, i requires 0 <= i < |es| => Line(indent, "- " + EntryText(es[i])))
  }

  function ItemLines(field: nat, it: Item): seq<Line> {
    match it
    case Field(t) => [Line(field, t)]
    case Nested(t, ls) => [Line(field, t)] + ls
    case Volumes(indent, es) => [Line(field, "volumes:")] + EntryLines(es, indent)
  }

  function ItemsLines(field: nat, its: seq<Item>): seq<Line> {
    if its == [] then [] else ItemLines(field, its[0]) + ItemsLines(field, its[1..])
  }

  function ServiceLines(name: nat, s: Service): seq<Line> { [Line(name, s.header)] + ItemsLines(s.indent, s.items) }

  function ServicesLines(name: nat, ss: seq<Service>): seq<Line> {
    if ss == [] then []
    else ServiceLines(name, ss[0]) + ServicesLines(name, ss[1..])
  }

  function SectionLines(s: Section): seq<Line> {
    match s
    case Services(name, ss) => [Line(0, "services:")] + ServicesLines(name, ss)
    case TopVolumes(ls) => [Line(0, "volumes:")] + ls
    case Other(h, ls) => [Line(0, h)] + ls
  }

  function ComposeLines(c: Compose): seq<Line> {
    if c == [] then [] else SectionLines(c[0]) + ComposeLines(c[1..])
  }

  function Spaces(n: nat): string { if n == 0 then "" else " " + Spaces(n - 1) }

  function Raw(l: Line): string { Spaces(l.indent) + l.text }

  function Raws(ls: seq<Line>): (r: seq<string>)
    ensures |r| == |ls| && forall i | 0 <= i < |ls| :: r[i] == Raw(ls[i])
  {
    seq(|ls|, i requires 0 <= i < |ls| => Raw(ls[i]))
  }

  function Printed(c: Compose): string { Unlines(Raws(ComposeLines(c))) }

  /** The lines a reader sees: blank and comment lines drop out, and so does trailing space. */
  function SeenLines(raws: seq<string>): seq<Line> {
    if raws == [] then []
    else
      var n := |raws| - 1;
      SeenLines(raws[..n]) + if Skipped(raws[n]) then [] else [LineOf(raws[n])]
  }

  /** The text is the stack in block style, with blank lines, comment lines and trailing space anywhere. */
  predicate Shows(text: string, c: Compose) { SeenLines(Lines(text)) == ComposeLines(c) }

  predicate ValidEntry(e: Entry) {
    && Plain("- " + EntryText(e))
    && EntryText(e) != "" && !IsSpace(EntryText(e)[0]) && EntryText(e)[0] != '#'
    && (e.quote.Bare? && Content(e) != "" ==> Content(e)[0] != '"' && Content(e)[0] != '\'')
  }

  predicate ValidItem(field: nat, it: Item) {
    match it
    case Field(t) => Plain(t) && !IsVolumesKey(t)
    case Nested(t, ls) => Plain(t) && !IsVolumesKey(t) && PlainLines(ls, field)
    case Volumes(indent, es) => field <= indent && forall i | 0 <= i < |es| :: ValidEntry(es[i])
  }

  /** In particular no service is named `volumes`. */
  predicate ValidService(name: nat, s: Service) {
    && Plain(s.header) && !IsVolumesKey(s.header) && 0 < name < s.indent
    && forall i | 0 <= i < |s.items| :: ValidItem(s.indent, s.items[i])
  }

  predicate ValidSection(s: Section) {
    match s
    case Services(name, ss) => forall i | 0 <= i < |ss| :: ValidService(name, ss[i])
    case TopVolumes(ls) => forall i | 0 <= i < |ls| :: Plain(ls[i].text)
    case Other(h, ls) => Plain(h) && !IsVolumesKey(h) && PlainLines(ls, 0)
  }

  predicate ValidCompose(c: Compose) { forall i | 0 <= i < |c| :: ValidSection(c[i]) }

  // ----- what the stack holds -------------------------------------------------------------

  /** The volume entries of a service; without `all`, only those indented deeper than their key. */
  function ItemEntries(field: nat, its: seq<Item>, all: bool): seq<Entry> {
    if its == [] then []
    else OwnEntries(field, its[0], all) + ItemEntries(field, its[1..], all)
  }

  function OwnEntries(field: nat, it: Item, all: bool): seq<Entry> {
    if it.Volumes? && (all || field < it.indent) then it.entries else []
  }

  function ServiceEntries(ss: seq<Service>, all: bool): seq<Entry> {
    if ss == [] then [] else ItemEntries(ss[0].indent, ss[0].items, all) + ServiceEntries(ss[1..], all)
  }

  function EntriesOf(c: Compose, all: bool): seq<Entry> {
    if c == [] then [] else SectionEntries(c[0], all) + EntriesOf(c[1..], all)
  }

  function SectionEntries(s: Section, all: bool): seq<Entry> {
    if s.Services? then ServiceEntries(s.services, all) else []
  }

  /** Every volume entry of every service. */
  function Entries(c: Compose): seq<Entry> { EntriesOf(c, true) }

  /** Those in lists indented deeper than their key. */
  function Indented(c: Compose): seq<Entry> { EntriesOf(c, false) }

  predicate HasTopVolumes(c: Compose) { exists i | 0 <= i < |c| :: c[i].TopVolumes? }

  predicate IsPath(s: string) { s != "" && (s[0] == '/' || s[0] == '.') }

  /** A bind mount names a host path in front of the container path. */
  predicate IsBindMount(e: Entry) { e.source.Some? && IsPath(e.source.value) }

  /** A container path alone makes an anonymous volume. */
  predicate IsAnonymousPath(e: Entry) { e.source.None? && IsPath(e.rest) }

  /** Safe to move: no top-level volumes, and every entry is a bind mount. */
  predicate Movable(c: Compose) { !HasTopVolumes(c) && forall e | e in Entries(c) :: IsBindMount(e) }

  // ----- one printed line -----------------------------------------------------------------

  lemma {:induction false} IndentOfSpaces(n: nat, t: string)
    requires t != "" && !IsSpace(t[0])
    ensures |Spaces(n)| == n
    ensures IndentOf(Spaces(n) + t) == n && (Spaces(n) + t)[n..] == t
  {
    if n == 0 {
      assert "" + t == t;
    } else {
      IndentOfSpaces(n - 1, t);
      assert Spaces(n) + t == " " + (Spaces(n - 1) + t);
      assert (Spaces(n) + t)[1..] == Spaces(n - 1) + t;
      assert (Spaces(n) + t)[n..] == (Spaces(n - 1) + t)[n - 1..];
    }
  }

  lemma {:induction false} TrimStartSpaces(n: nat, t: string)
    requires t != "" && !IsSpace(t[0])
    ensures TrimStart(Spaces(n) + t) == t
  {
    if n == 0 {
      assert "" + t == t;
    } else {
      assert (Spaces(n) + t)[1..] == Spaces(n - 1) + t;
      TrimStartSpaces(n - 1, t);
    }
  }

  lemma RawLine(l: Line)
    requires Plain(l.text)
    ensures !Skipped(Raw(l)) && LineOf(Raw(l)) == l
  {
    hide IndentOf, Text.TrimStart;
    var raw := Raw(l);
    IndentOfSpaces(l.indent, l.text);
    TrimStartSpaces(l.indent, l.text);
    assert raw[|raw| - 1] == l.text[|l.text| - 1];
    assert TrimEnd(raw) == raw;
  }

  // ----- the scan over structured lines ---------------------------------------------------

  function ScanLines(sc: Scan, ls: seq<Line>): Scan
    decreases |ls|
  {
    if ls == [] then sc
    else ScanLines(if sc.Found? then sc else ScanText(sc.block, ls[0]), ls[1..])
  }

  lemma {:induction false} ScanLinesAppend(sc: Scan, a: seq<Line>, b: seq<Line>)
    ensures ScanLines(sc, a + b) == ScanLines(ScanLines(sc, a), b)
    decreases |a|
  {
    hide ScanText;
    if a == [] {
      assert a + b == b;
    } else {
      assert (a + b)[1..] == a[1..] + b;
      ScanLinesAppend(if sc.Found? then sc else ScanText(sc.block, a[0]), a[1..], b);
    }
  }

  lemma {:induction false} FoundStaysFound(sc: Scan, ls: seq<Line>)
    requires sc.Found?
    ensures ScanLines(sc, ls) == sc
    decreases |ls|
  {
    if ls != [] { FoundStaysFound(sc, ls[1..]); }
  }

  /** The scan of a text is the scan of the lines a reader sees in it. */
  lemma {:induction false} ScanSeen(raws: seq<string>)
    ensures ScanAll(Scanning(None), raws) == ScanLines(Scanning(None), SeenLines(raws))
  {
    hide Skipped, LineOf, ScanText;
    if raws != [] {
      var n := |raws| - 1;
      ScanSeen(raws[..n]);
      var ls := SeenLines(raws[..n]);
      if Skipped(raws[n]) {
        assert ls + [] == ls;
      } else {
        ScanLinesAppend(Scanning(None), ls, [LineOf(raws[n])]);
        assert [LineOf(raws[n])][1..] == [];
      }
    }
  }

  lemma {:induction false} SeenSplits(a: seq<string>, b: seq<string>)
    ensures SeenLines(a + b) == SeenLines(a) + SeenLines(b)
    decreases |b|
  {
    hide Skipped, LineOf;
    if b == [] {
      assert a + b == a;
    } else {
      var n := |b| - 1;
      assert (a + b)[..|a + b| - 1] == a + b[..n];
      SeenSplits(a, b[..n]);
      assert (a + b)[|a + b| - 1] == b[n];
    }
  }

  /** A blank or comment line may stand anywhere. */
  lemma NoiseIsUnseen(a: seq<string>, noise: string, b: seq<string>)
    requires Skipped(noise)
    ensures SeenLines(a + [noise] + b) == SeenLines(a + b)
  {
    hide Skipped, LineOf;
    SeenSplits(a + [noise], b);
    SeenSplits(a, [noise]);
    SeenSplits(a, b);
    assert [noise][..0] == [];
  }

  lemma {:induction false} RawsAreSeen(ls: seq<Line>)
    requires forall i | 0 <= i < |ls| :: Plain(ls[i].text)
    ensures SeenLines(Raws(ls)) == ls
  {
    hide Skipped, LineOf, Plain, Raw;
    if ls != [] {
      var n := |ls| - 1;
      RawsAreSeen(ls[..n]);
      assert Raws(ls)[..n] == Raws(ls[..n]);
      RawLine(ls[n]);
      assert ls == ls[..n] + [ls[n]];
    }
  }

  /** Before a line indented by at most `level` the scan is outside any block, or leaves it there. */
  predicate Ready(sc: Scan, level: nat) { sc.Scanning? && (sc.block.None? || level <= sc.block.value) }

  /** The piece is passed without an answer, or gives one: the latter exactly when `bad` holds. */
  predicate Passes(sc: Scan, level: nat, bad: bool) { if bad then sc.Found? else Ready(sc, level) }

  lemma HeaderText(sc: Scan, l: Line)
    requires Ready(sc, l.indent) && Plain(l.text) && !IsVolumesKey(l.text)
    ensures ScanText(sc.block, l) == Scanning(None)
  {
    hide IsVolumesKey;
    assert TrimStart(l.text) == l.text;
  }

  lemma {:induction false} OutsideLines(ls: seq<Line>, above: nat)
    requires PlainLines(ls, above)
    ensures ScanLines(Scanning(None), ls) == Scanning(None)
    decreases |ls|
  {
    if ls != [] {
      hide IsVolumesKey;
      assert TrimStart(ls[0].text) == ls[0].text;
      assert forall i | 0 <= i < |ls[1..]| :: ls[1..][i] == ls[i + 1];
      OutsideLines(ls[1..], above);
    }
  }

  // ----- volume entries -------------------------------------------------------------------

  lemma EntryShape(e: Entry)
    requires ValidEntry(e)
    ensures LooksBind(EntryText(e)) <==> IsPath(Content(e))
  {
    var t := EntryText(e);
    match e.quote
    case Bare =>
    case Single => assert t[0] == '\'' && (Content(e) != "" ==> t[1] == Content(e)[0])
        && (Content(e) == "" ==> t[1] == '\'');
    case Double => assert t[0] == '"' && (Content(e) != "" ==> t[1] == Content(e)[0])
        && (Content(e) == "" ==> t[1] == '"');
  }

  /** Cutting an inline comment and trimming does not change whether an entry looks like a path. */
  lemma CutKeepsLook(t: string, k: nat)
    requires t != "" && !IsSpace(t[0]) && 0 < k <= |t|
    requires k < |t| ==> t[k] == '#'
    ensures LooksBind(Trim(t[..k])) <==> LooksBind(t)
  {
    var u := TrimEnd(t[..k]);
    TrimEndPrefix(t[..k]);
    FirstStays(t[..k]);
    assert u[0] == t[0];
    assert Trim(t[..k]) == u;
    if |u| > 1 {
      assert u[1] == t[1];
    } else if |t| > 1 {
      if k > 1 { SecondIsSpace(t[..k]); }
    }
  }

  lemma {:induction false} FirstStays(s: string)
    requires s != "" && !IsSpace(s[0])
    ensures TrimEnd(s) != "" && TrimEnd(s)[0] == s[0]
  {
    if IsSpace(s[|s| - 1]) { FirstStays(s[..|s| - 1]); }
  }

  lemma {:induction false} SecondIsSpace(s: string)
    requires |s| > 1 && |TrimEnd(s)| == 1
    ensures IsSpace(s[1])
  {
    if |s| > 2 { SecondIsSpace(s[..|s| - 1]); }
  }

  lemma EntryLook(e: Entry)
    requires ValidEntry(e)
    ensures IsItem("- " + EntryText(e))
    ensures LooksBind(EntryOf("- " + EntryText(e))) <==> IsPath(Content(e))
  {
    hide LooksBind, IsPath;
    var t := EntryText(e);
    var item := "- " + t;
    assert item[2..] == t;
    assert item[|item| - 1] == t[|t| - 1];
    assert TrimEnd(t) == t && Trim(t) == t;
    var k := Find(t, '#');
    assert k > 0;
    CutKeepsLook(t, k);
    EntryShape(e);
  }

  lemma EntryScan(field: nat, indent: nat, e: Entry)
    requires field < indent && ValidEntry(e)
    ensures var sc := ScanText(Some(field), Line(indent, "- " + EntryText(e)));
            if IsPath(Content(e)) then sc == Scanning(Some(field)) else sc.Found?
  {
    hide LooksBind, EntryOf, IsPath;
    EntryLook(e);
    var item := "- " + EntryText(e);
    assert item[0] == '-' && TrimStart(item) == item;
    assert !IsVolumesKey(item);
  }

  lemma {:induction false} EntriesScan(field: nat, indent: nat, es: seq<Entry>)
    requires field < indent && forall i | 0 <= i < |es| :: ValidEntry(es[i])
    ensures var sc := ScanLines(Scanning(Some(field)), EntryLines(es, indent));
            if forall e | e in es :: IsPath(Content(e)) then sc == Scanning(Some(field)) else sc.Found?
  {
    hide ScanText, ValidEntry, IsPath, EntryText, Content;
    if es != [] {
      EntryScan(field, indent, es[0]);
      var ls := EntryLines(es, indent);
      assert ls[1..] == EntryLines(es[1..], indent);
      assert forall e | e in es :: e == es[0] || e in es[1..];
      var first := ScanText(Some(field), ls[0]);
      if IsPath(Content(es[0])) {
        EntriesScan(field, indent, es[1..]);
      } else {
        FoundStaysFound(first, ls[1..]);
        assert es[0] in es;
      }
    }
  }

  // ----- items, services, sections --------------------------------------------------------

  predicate AllPaths(es: seq<Entry>) { forall e | e in es :: IsPath(Content(e)) }

  lemma AllPathsAppend(a: seq<Entry>, b: seq<Entry>)
    ensures AllPaths(a + b) <==> AllPaths(a) && AllPaths(b)
  {
    hide IsPath, Content;
    if AllPaths(a + b) {
      assert forall e | e in a :: e in a + b;
      assert forall e | e in b :: e in a + b;
    }
  }

  lemma VolumesKeyScan(field: nat, sc: Scan)
    requires 0 < field && Ready(sc, field)
    ensures ScanText(sc.block, Line(field, VOLUMES)) == Scanning(Some(field))
  {
    assert TrimStart(VOLUMES) == VOLUMES;
  }

  lemma ItemScan(field: nat, sc: Scan, it: Item)
    requires 0 < field && Ready(sc, field) && ValidItem(field, it)
    ensures Passes(ScanLines(sc, ItemLines(field, it)), field, !AllPaths(OwnEntries(field, it, false)))
  {
    hide ScanText, Plain, IsVolumesKey, ValidEntry, IsPath, Content, EntryText;
    var ls := ItemLines(field, it);
    match it
    case Field(t) =>
      NoPaths();
      HeaderText(sc, ls[0]);
      assert ls[1..] == [];
    case Nested(t, more) =>
      NoPaths();
      HeaderText(sc, ls[0]);
      assert ls[1..] == more;
      OutsideLines(more, field);
    case Volumes(indent, es) =>
      VolumesKeyScan(field, sc);
      assert ls[1..] == EntryLines(es, indent);
      NoPaths();
      if field < indent { EntriesScan(field, indent, es); } else { UnindentedScan(field, Some(field), es); }
  }

  /** A list at the indentation of its key ends the block: none of its entries is looked at. */
  lemma {:induction false} UnindentedScan(field: nat, block: Option<nat>, es: seq<Entry>)
    requires 0 < field && (block.None? || block.value == field) && forall i | 0 <= i < |es| :: ValidEntry(es[i])
    ensures Ready(ScanLines(Scanning(block), EntryLines(es, field)), field)
    decreases |es|
  {
    hide ValidEntry, EntryText, IsVolumesKey;
    if es != [] {
      var ls := EntryLines(es, field);
      ItemIsNoKey(es[0]);
      assert ScanText(block, ls[0]) == Scanning(None);
      assert ls[1..] == EntryLines(es[1..], field);
      UnindentedScan(field, None, es[1..]);
    }
  }

  lemma ItemIsNoKey(e: Entry)
    ensures var item := "- " + EntryText(e); TrimStart(item) == item && !IsVolumesKey(item)
  {
    var item := "- " + EntryText(e);
    assert item[0] == '-';
  }

  lemma {:induction false} ItemsScan(field: nat, sc: Scan, its: seq<Item>)
    requires 0 < field && Ready(sc, field) && forall i | 0 <= i < |its| :: ValidItem(field, its[i])
    ensures Passes(ScanLines(sc, ItemsLines(field, its)), field, !AllPaths(ItemEntries(field, its, false)))
    decreases |its|
  {
    hide ValidItem, ItemLines, AllPaths, OwnEntries;
    if its == [] {
      NoPaths();
    } else {
      var a, b := ItemLines(field, its[0]), ItemsLines(field, its[1..]);
      ItemScan(field, sc, its[0]);
      ScanLinesAppend(sc, a, b);
      AllPathsAppend(OwnEntries(field, its[0], false), ItemEntries(field, its[1..], false));
      NoPaths();
      var mid := ScanLines(sc, a);
      if mid.Found? { FoundStaysFound(mid, b); } else { ItemsScan(field, mid, its[1..]); }
    }
  }

  lemma NoPaths()
    ensures AllPaths([])
  {
  }

  lemma ServiceScan(name: nat, sc: Scan, s: Service)
    requires Ready(sc, name) && ValidService(name, s)
    ensures Passes(ScanLines(sc, ServiceLines(name, s)), name, !AllPaths(ItemEntries(s.indent, s.items, false)))
  {
    hide ValidItem, AllPaths, Plain, IsVolumesKey, ScanText, ItemsLines, ItemEntries;
    var ls := ServiceLines(name, s);
    HeaderText(sc, ls[0]);
    assert ls[1..] == ItemsLines(s.indent, s.items);
    ItemsScan(s.indent, Scanning(None), s.items);
  }

  lemma {:induction false} ServicesScan(name: nat, sc: Scan, ss: seq<Service>)
    requires Ready(sc, name) && forall i | 0 <= i < |ss| :: ValidService(name, ss[i])
    ensures Passes(ScanLines(sc, ServicesLines(name, ss)), name, !AllPaths(ServiceEntries(ss, false)))
    decreases |ss|
  {
    hide ValidService, ServiceLines, AllPaths, ScanText, ItemEntries;
    if ss == [] {
      NoPaths();
    } else {
      var a, b := ServiceLines(name, ss[0]), ServicesLines(name, ss[1..]);
      ServiceScan(name, sc, ss[0]);
      ScanLinesAppend(sc, a, b);
      AllPathsAppend(ItemEntries(ss[0].indent, ss[0].items, false), ServiceEntries(ss[1..], false));
      var mid := ScanLines(sc, a);
      if mid.Found? { FoundStaysFound(mid, b); } else { ServicesScan(name, mid, ss[1..]); }
    }
  }

  lemma SectionScan(sc: Scan, s: Section)
    requires Ready(sc, 0) && ValidSection(s)
    ensures Passes(ScanLines(sc, SectionLines(s)), 0, s.TopVolumes? || !AllPaths(SectionEntries(s, false)))
  {
    hide ValidService, AllPaths, Plain;
    NoPaths();
    var ls := SectionLines(s);
    match s
    case Services(name, ss) =>
      PlainServices();
      HeaderText(sc, ls[0]);
      assert ls[1..] == ServicesLines(name, ss);
      ServicesScan(name, Scanning(None), ss);
    case TopVolumes(more) =>
      assert ScanText(sc.block, ls[0]) == Found(TopLevelVolumes);
      FoundStaysFound(Found(TopLevelVolumes), ls[1..]);
    case Other(h, more) =>
      HeaderText(sc, ls[0]);
      assert ls[1..] == more;
      OutsideLines(more, 0);
  }

  lemma PlainServices()
    ensures Plain("services:") && !IsVolumesKey("services:")
  {
  }

  lemma {:induction false} ComposeScans(sc: Scan, c: Compose)
    requires Ready(sc, 0) && ValidCompose(c)
    ensures Passes(ScanLines(sc, ComposeLines(c)), 0, HasTopVolumes(c) || !AllPaths(Indented(c)))
    decreases |c|
  {
    hide ValidSection, SectionLines, AllPaths;
    if c == [] {
      NoPaths();
    } else {
      var a, b := SectionLines(c[0]), ComposeLines(c[1..]);
      SectionScan(sc, c[0]);
      ScanLinesAppend(sc, a, b);
      AllPathsAppend(SectionEntries(c[0], false), EntriesOf(c[1..], false));
      NoPaths();
      assert HasTopVolumes(c) <==> c[0].TopVolumes? || HasTopVolumes(c[1..]) by { TopVolumesSplit(c); }
      var mid := ScanLines(sc, a);
      if mid.Found? { FoundStaysFound(mid, b); } else { ComposeScans(mid, c[1..]); }
    }
  }

  lemma TopVolumesSplit(c: Compose)
    requires c != []
    ensures HasTopVolumes(c) <==> c[0].TopVolumes? || HasTopVolumes(c[1..])
  {
    if HasTopVolumes(c[1..]) {
      var i :| 0 <= i < |c[1..]| && c[1..][i].TopVolumes?;
      assert c[i + 1].TopVolumes?;
    }
    if HasTopVolumes(c) && !c[0].TopVolumes? {
      var i :| 0 <= i < |c| && c[i].TopVolumes?;
      assert c[1..][i - 1].TopVolumes?;
    }
  }

  // ----- every printed line is plain ------------------------------------------------------

  predicate AllPlain(ls: seq<Line>) { forall i | 0 <= i < |ls| :: Plain(ls[i].text) }

  lemma ItemPlain(field: nat, it: Item)
    requires ValidItem(field, it)
    ensures AllPlain(ItemLines(field, it))
  {
    hide IsVolumesKey, EntryText, Plain;
    if it.Volumes? {
      PlainVolumes();
      forall i | 0 <= i < |it.entries| ensures Plain("- " + EntryText(it.entries[i])) {
        assert ValidEntry(it.entries[i]);
      }
    }
  }

  lemma PlainVolumes()
    ensures Plain(VOLUMES)
  {
  }

  lemma {:induction false} ItemsPlain(field: nat, its: seq<Item>)
    requires forall i | 0 <= i < |its| :: ValidItem(field, its[i])
    ensures AllPlain(ItemsLines(field, its))
  {
    hide ValidItem, ItemLines, Plain;
    if its != [] {
      ItemPlain(field, its[0]);
      ItemsPlain(field, its[1..]);
    }
  }

  lemma {:induction false} ServicesPlain(name: nat, ss: seq<Service>)
    requires forall i | 0 <= i < |ss| :: ValidService(name, ss[i])
    ensures AllPlain(ServicesLines(name, ss))
  {
    hide ValidItem, Plain, IsVolumesKey, ItemsLines;
    if ss != [] {
      assert ValidService(name, ss[0]);
      ItemsPlain(ss[0].indent, ss[0].items);
      ServicesPlain(name, ss[1..]);
    }
  }

  lemma {:induction false} ComposePlain(c: Compose)
    requires ValidCompose(c)
    ensures AllPlain(ComposeLines(c))
  {
    hide ValidService, Plain, IsVolumesKey, ServicesLines;
    if c != [] {
      assert ValidSection(c[0]);
      PlainServices();
      PlainVolumes();
      if c[0].Services? { ServicesPlain(c[0].indent, c[0].services); }
      ComposePlain(c[1..]);
      assert AllPlain(SectionLines(c[0]));
    }
  }

  lemma PlainRaw(l: Line)
    requires Plain(l.text)
    ensures '\n' !in Raw(l) && StripCr(Raw(l)) == Raw(l)
  {
    SpacesPlain(l.indent);
    var raw := Raw(l);
    assert raw[|raw| - 1] == l.text[|l.text| - 1];
  }

  lemma {:induction false} SpacesPlain(n: nat)
    ensures '\n' !in Spaces(n)
  {
    if n > 0 { SpacesPlain(n - 1); }
  }

  /** The printed text reads back as the printed lines. */
  lemma PrintedLines(ls: seq<Line>)
    requires AllPlain(ls)
    ensures Lines(Unlines(Raws(ls))) == Raws(ls)
  {
    hide Plain, Raw, Text.Lines, Text.Unlines, Text.StripCr;
    forall i | 0 <= i < |ls| ensures '\n' !in Raws(ls)[i] && StripCr(Raws(ls)[i]) == Raws(ls)[i] {
      PlainRaw(ls[i]);
    }
    LinesOfUnlines(Raws(ls));
  }

  /** The plain print, with nothing added, is one such text. */
  lemma PrintedShows(c: Compose)
    requires ValidCompose(c)
    ensures Shows(Printed(c), c)
  {
    hide Text.Lines, Text.Unlines, SeenLines, Raws, Plain, ComposeLines, ValidCompose;
    ComposePlain(c);
    PrintedLines(ComposeLines(c));
    RawsAreSeen(ComposeLines(c));
  }

  /** On any text of a block-style stack the scan answers Stateless exactly when every entry it sees is a path. */
  lemma ScanDecides(text: string, c: Compose)
    requires ValidCompose(c) && Shows(text, c)
    ensures Checked(text).Stateless? <==> !HasTopVolumes(c) && AllPaths(Indented(c))
  {
    hide Text.Lines, ScanAll, ScanLines, AllPaths, ValidCompose, HasTopVolumes, SeenLines;
    ScanSeen(Lines(text));
    ComposeScans(Scanning(None), c);
  }

  // ----- when the answer is right ---------------------------------------------------------

  /**
   * What the scan does not see: every entry of an indented list starts as a path, and yet some entry
   * is no bind mount, being a bare container path or standing in a list at the indentation of its key.
   */
  predicate HidesVolume(c: Compose) {
    && !HasTopVolumes(c)
    && (forall e | e in Indented(c) :: IsBindMount(e) || IsAnonymousPath(e))
    && exists e | e in Entries(c) :: !IsBindMount(e)
  }

  lemma {:induction false} ItemsIndented(field: nat, its: seq<Item>)
    ensures forall e | e in ItemEntries(field, its, false) :: e in ItemEntries(field, its, true)
  {
    if its != [] { ItemsIndented(field, its[1..]); }
  }

  lemma {:induction false} ServicesIndented(ss: seq<Service>)
    ensures forall e | e in ServiceEntries(ss, false) :: e in ServiceEntries(ss, true)
  {
    if ss != [] {
      ItemsIndented(ss[0].indent, ss[0].items);
      ServicesIndented(ss[1..]);
    }
  }

  lemma {:induction false} IndentedAreEntries(c: Compose)
    ensures forall e | e in EntriesOf(c, false) :: e in EntriesOf(c, true)
  {
    if c != [] {
      if c[0].Services? { ServicesIndented(c[0].services); }
      IndentedAreEntries(c[1..]);
    }
  }

  lemma ContentIsPath(e: Entry)
    ensures IsPath(Content(e)) <==> IsBindMount(e) || IsAnonymousPath(e)
  {
    if e.source.Some? && e.source.value == "" { assert Content(e)[0] == ':'; }
  }

  /** The answer is right exactly for the stacks that hide no volume; for the others it is Stateless. */
  lemma VerdictIsRightIff(text: string, c: Compose)
    requires ValidCompose(c) && Shows(text, c)
    ensures (Checked(text).Stateless? <==> Movable(c)) <==> !HidesVolume(c)
    ensures HidesVolume(c) ==> Checked(text).Stateless? && !Movable(c)
  {
    hide Checked, Shows, ValidCompose, HasTopVolumes, EntriesOf, IsPath, Content, IsBindMount, IsAnonymousPath;
    ScanDecides(text, c);
    IndentedAreEntries(c);
    forall e | e in Indented(c) ensures IsPath(Content(e)) <==> IsBindMount(e) || IsAnonymousPath(e) {
      ContentIsPath(e);
    }
    forall e ensures !(IsBindMount(e) && IsAnonymousPath(e)) { BindOrAnonymous(e); }
  }

  lemma BindOrAnonymous(e: Entry)
    ensures !(IsBindMount(e) && IsAnonymousPath(e))
  {
  }

  function OneVolume(indent: nat, e: Entry): Compose {
    [Services(2, [Service("web:", 4, [Volumes(indent, [e])])])]
  }

  lemma OneVolumeEntries(indent: nat, e: Entry)
    ensures Entries(OneVolume(indent, e)) == [e] && Indented(OneVolume(indent, e)) == if indent > 4 then [e] else []
  {
    var its := [Volumes(indent, [e])];
    assert its[1..] == [];
    assert forall all :: ItemEntries(4, its, all) == OwnEntries(4, its[0], all) + [];
    var ss := [Service("web:", 4, its)];
    assert ss[1..] == [];
    assert forall all :: ServiceEntries(ss, all) == ItemEntries(4, its, all) + [];
    var c := OneVolume(indent, e);
    assert c[1..] == [];
    assert forall all :: EntriesOf(c, all) == SectionEntries(c[0], all) + [];
  }

  /** Both happen: a bare container path, and a named volume in a list at the indentation of its key. */
  lemma VolumesCanHide()
    ensures var c := OneVolume(6, Entry(None, "/data", Bare)); ValidCompose(c) && HidesVolume(c)
    ensures var c := OneVolume(4, Entry(Some("data"), "/data", Bare)); ValidCompose(c) && HidesVolume(c)
  {
    hide EntriesOf;
    OneVolumeEntries(6, Entry(None, "/data", Bare));
    OneVolumeEntries(4, Entry(Some("data"), "/data", Bare));
    PlainWitness();
    assert Entry(None, "/data", Bare) in Entries(OneVolume(6, Entry(None, "/data", Bare)));
    assert Entry(Some("data"), "/data", Bare) in Entries(OneVolume(4, Entry(Some("data"), "/data", Bare)));
  }

  lemma PlainWitness()
    ensures Plain("web:") && !IsVolumesKey("web:")
    ensures ValidEntry(Entry(None, "/data", Bare)) && ValidEntry(Entry(Some("data"), "/data", Bare))
  {
    assert "data" + ":" + "/data" == "data:/data";
    assert "- " + "data:/data" == "- data:/data" && "- " + "/data" == "- /data";
  }
}
