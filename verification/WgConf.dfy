/** The helper's wg0.conf whitelist and its private-key injection (pier-net-helper, protocol.rs). */
module WgConf {
  import opened Text

  datatype Section = NoSection | Interface | Peer

  datatype Reason = UnknownSection | NotKeyValue | PrivateKeyOverWire | OutsideSection | NotAllowed

  datatype Verdict = Accept | Reject(line: nat, reason: Reason)

  // ----- the grammar ----------------------------------------------------------------------

  /** Directive names, sorted by the whitelist they are on. */
  datatype Name = PrivateKeyName | InterfaceName | PeerName | OtherName

  function NameOf(key: string): Name {
    if key == "PrivateKey" then PrivateKeyName
    else if key in {"Address", "ListenPort", "DNS", "MTU", "Table"} then InterfaceName
    else if key in {"PublicKey", "PresharedKey", "AllowedIPs", "Endpoint", "PersistentKeepalive"} then PeerName
    else OtherName
  }

  /** What one line is, whatever stands around it. */
  datatype Kind = Blank | Head(section: Section) | BadHead | Entry(name: Name) | Junk

  function KindOf(line: string): Kind { KindOfTrimmed(Trim(line)) }

  function KindOfTrimmed(t: string): Kind {
    if t == "" || t[0] == '#' then Blank
    else if t[0] == '[' && t[|t| - 1] == ']' then
      if t == "[Interface]" then Head(Interface) else if t == "[Peer]" then Head(Peer) else BadHead
    else if Find(t, '=') < |t| then Entry(NameOf(Trim(t[..Find(t, '=')])))
    else Junk
  }

  function Kinds(ls: seq<string>): (ks: seq<Kind>)
    ensures |ks| == |ls|
    ensures forall i | 0 <= i < |ls| :: ks[i] == KindOf(ls[i])
  {
    seq(|ls|, i requires 0 <= i < |ls| => KindOf(ls[i]))
  }

  predicate Allowed(sec: Section, n: Name) {
    match sec
    case NoSection => false
    case Interface => n == PrivateKeyName || n == InterfaceName
    case Peer => n == PeerName
  }

  predicate IsPrivateKey(k: Kind) { k == Entry(PrivateKeyName) }

  /** Lines the whitelist admits in section `sec`; `forbid` is the form used over the wire. */
  predicate Admitted(sec: Section, k: Kind, forbid: bool) {
    || k.Blank?
    || k.Head?
    || (k.Entry? && Allowed(sec, k.name) && !(forbid && IsPrivateKey(k)))
  }

  /** The section of the nearest header among the first `i` lines, or `sec` when there is none. */
  function SectionFrom(sec: Section, ks: seq<Kind>, i: nat): Section
    requires i <= |ks|
  {
    if i == 0 then sec else if ks[i - 1].Head? then ks[i - 1].section else SectionFrom(sec, ks, i - 1)
  }

  predicate AcceptedFrom(sec: Section, ks: seq<Kind>, forbid: bool) {
    forall i | 0 <= i < |ks| :: Admitted(SectionFrom(sec, ks, i), ks[i], forbid)
  }

  /** What the whitelist promises about a whole text. */
  predicate Accepted(ks: seq<Kind>, forbid: bool) { AcceptedFrom(NoSection, ks, forbid) }

  predicate AcceptedText(content: string, forbid: bool) { Accepted(Kinds(Lines(content)), forbid) }

  /** Why a line that is not admitted is refused. */
  function Fault(sec: Section, k: Kind, forbid: bool): Reason
    requires !Admitted(sec, k, forbid)
  {
    if k.BadHead? then UnknownSection
    else if k.Junk? then NotKeyValue
    else if forbid && sec == Interface && IsPrivateKey(k) then PrivateKeyOverWire
    else if sec == NoSection then OutsideSection
    else NotAllowed
  }

  // ----- the validator loop ---------------------------------------------------------------

  const ALLOWED_INTERFACE := ["PrivateKey", "Address", "ListenPort", "DNS", "MTU", "Table"]
  const ALLOWED_PEER := ["PublicKey", "PresharedKey", "AllowedIPs", "Endpoint", "PersistentKeepalive"]

  lemma WhitelistNames(key: string)
    ensures key == "PrivateKey" <==> NameOf(key) == PrivateKeyName
    ensures key in ALLOWED_INTERFACE <==> NameOf(key) == PrivateKeyName || NameOf(key) == InterfaceName
    ensures key in ALLOWED_PEER <==> NameOf(key) == PeerName
  {
    assert key in ALLOWED_INTERFACE <==> key == "PrivateKey" || key in {"Address", "ListenPort", "DNS", "MTU", "Table"};
    assert key in ALLOWED_PEER <==> key in {"PublicKey", "PresharedKey", "AllowedIPs", "Endpoint",
        "PersistentKeepalive"};
  }

  lemma HeaderText(t: string)
    requires t != "" && t[0] == '[' && t[|t| - 1] == ']'
    ensures |t| >= 2
    ensures t[1..|t| - 1] == "Interface" <==> t == "[Interface]"
    ensures t[1..|t| - 1] == "Peer" <==> t == "[Peer]"
  {
    assert t == ['['] + t[1..|t| - 1] + [']'];
    assert "[Interface]" == ['['] + "Interface" + [']'];
    assert "[Peer]" == ['['] + "Peer" + [']'];
  }

  /** One round of the validator's loop: the section afterwards, or why the line is refused. */
  method CheckLine(raw: string, section: Section, forbid: bool) returns (next: Section, fault: Option<Reason>)
    ensures fault.None? <==> Admitted(section, KindOf(raw), forbid)
    ensures fault.None? ==> next == if KindOf(raw).Head? then KindOf(raw).section else section
    ensures fault.Some? ==> fault.value == Fault(section, KindOf(raw), forbid)
  {
    hide Text.Trim, NameOf;
    next, fault := section, None;
    var line := Trim(raw);
    assert KindOf(raw) == KindOfTrimmed(line);
    if line == "" || line[0] == '#' {
      return;
    }
    if line[0] == '[' && line[|line| - 1] == ']' {
      HeaderText(line);
      var name := line[1..|line| - 1];
      if name == "Interface" {
        next := Interface;
      } else if name == "Peer" {
        next := Peer;
      } else {
        fault := Some(UnknownSection);
      }
      return;
    }
    var eq := Find(line, '=');
    if eq == |line| {
      fault := Some(NotKeyValue);
      return;
    }
    var key := Trim(line[..eq]);
    WhitelistNames(key);
    if forbid && section == Interface && key == "PrivateKey" {
      fault := Some(PrivateKeyOverWire);
    } else if section == NoSection {
      fault := Some(OutsideSection);
    } else if key !in (if section == Interface then ALLOWED_INTERFACE else ALLOWED_PEER) {
      fault := Some(NotAllowed);
    }
  }

  method Validate(content: string, forbid: bool) returns (v: Verdict)
    ensures v.Accept? <==> AcceptedText(content, forbid)
    ensures v.Reject? ==>
      var ks := Kinds(Lines(content));
      && 1 <= v.line <= |ks|
      && (forall i | 0 <= i < v.line - 1 :: Admitted(SectionFrom(NoSection, ks, i), ks[i], forbid))
      && !Admitted(SectionFrom(NoSection, ks, v.line - 1), ks[v.line - 1], forbid)
      && v.reason == Fault(SectionFrom(NoSection, ks, v.line - 1), ks[v.line - 1], forbid)
  {
    hide Text.Lines, KindOf;
    var ls := Lines(content);
    ghost var ks := Kinds(ls);
    var section := NoSection;
    for n := 0 to |ls|
      invariant section == SectionFrom(NoSection, ks, n)
      invariant forall i | 0 <= i < n :: Admitted(SectionFrom(NoSection, ks, i), ks[i], forbid)
    {
      var next, fault := CheckLine(ls[n], section, forbid);
      if fault.Some? {
        return Reject(n + 1, fault.value);
      }
      section := next;
    }
    return Accept;
  }

  /** The no-private-key form accepts exactly the accepted texts without a PrivateKey directive. */
  lemma NoPrivateKeyForm(ks: seq<Kind>)
    ensures Accepted(ks, true) <==>
            Accepted(ks, false) && forall i | 0 <= i < |ks| :: !IsPrivateKey(ks[i])
  {
    if Accepted(ks, true) {
      forall i | 0 <= i < |ks|
        ensures Admitted(SectionFrom(NoSection, ks, i), ks[i], false) && !IsPrivateKey(ks[i])
      {
        assert Admitted(SectionFrom(NoSection, ks, i), ks[i], true);
      }
    }
  }

  // ----- composing texts ------------------------------------------------------------------

  lemma {:induction false} SectionPrefix(sec: Section, a: seq<Kind>, b: seq<Kind>, i: nat)
    requires i <= |a|
    ensures SectionFrom(sec, a + b, i) == SectionFrom(sec, a, i)
  {
    if i > 0 { SectionPrefix(sec, a, b, i - 1); }
  }

  lemma {:induction false} SectionSuffix(sec: Section, a: seq<Kind>, b: seq<Kind>, i: nat)
    requires i <= |b|
    ensures SectionFrom(sec, a + b, |a| + i) == SectionFrom(SectionFrom(sec, a, |a|), b, i)
  {
    if i == 0 {
      SectionPrefix(sec, a, b, |a|);
    } else {
      SectionSuffix(sec, a, b, i - 1);
    }
  }

  /** A text is accepted exactly when its parts are, each from the section the part before ends in. */
  lemma AcceptedAppend(sec: Section, a: seq<Kind>, b: seq<Kind>, forbid: bool)
    ensures AcceptedFrom(sec, a + b, forbid) <==>
            && AcceptedFrom(sec, a, forbid)
            && AcceptedFrom(SectionFrom(sec, a, |a|), b, forbid)
  {
    var ab := a + b;
    var mid := SectionFrom(sec, a, |a|);
    forall i | 0 <= i < |a|
      ensures Admitted(SectionFrom(sec, ab, i), ab[i], forbid) <==> Admitted(SectionFrom(sec, a, i), a[i], forbid)
    {
      SectionPrefix(sec, a, b, i);
    }
    forall i | 0 <= i < |b|
      ensures Admitted(SectionFrom(sec, ab, |a| + i), ab[|a| + i], forbid) <==>
          Admitted(SectionFrom(mid, b, i), b[i], forbid)
    {
      SectionSuffix(sec, a, b, i);
    }
    if AcceptedFrom(sec, ab, forbid) {
      forall i | 0 <= i < |b|
        ensures Admitted(SectionFrom(mid, b, i), b[i], forbid)
      {
        assert Admitted(SectionFrom(sec, ab, |a| + i), ab[|a| + i], forbid);
      }
    }
    if AcceptedFrom(sec, a, forbid) && AcceptedFrom(mid, b, forbid) {
      forall j | 0 <= j < |ab|
        ensures Admitted(SectionFrom(sec, ab, j), ab[j], forbid)
      {
        if j >= |a| {
          var i := j - |a|;
          assert Admitted(SectionFrom(mid, b, i), b[i], forbid);
          assert |a| + i == j;
        }
      }
    }
  }

  lemma KindsAppend(a: seq<string>, b: seq<string>)
    ensures Kinds(a + b) == Kinds(a) + Kinds(b)
  {
  }

  lemma KindIgnoresCr(line: string)
    ensures KindOf(StripCr(line)) == KindOf(line)
  {
    TrimIgnoresCr(line);
  }

  lemma KindsStrip(ls: seq<string>)
    ensures Kinds(StripAll(ls)) == Kinds(ls)
  {
    forall i | 0 <= i < |ls| ensures Kinds(StripAll(ls))[i] == Kinds(ls)[i] { KindIgnoresCr(ls[i]); }
  }

  // ----- directives as the two writers print them -----------------------------------------

  /** A directive name as it may be printed in front of ` = `. */
  predicate PlainName(k: string) {
    && k != "" && k[0] != '#' && k[0] != '['
    && forall i | 0 <= i < |k| :: k[i] != '=' && !IsSpace(k[i])
  }

  lemma {:induction false} TrimEndKeeps(a: string, b: string)
    requires a != "" && !IsSpace(a[|a| - 1])
    ensures TrimEnd(a + b) == a + TrimEnd(b)
    decreases |b|
  {
    if b == "" {
      assert a + b == a;
    } else {
      assert (a + b)[|a + b| - 1] == b[|b| - 1];
      if IsSpace(b[|b| - 1]) {
        assert (a + b)[..|a + b| - 1] == a + b[..|b| - 1];
        TrimEndKeeps(a, b[..|b| - 1]);
      }
    }
  }

  lemma TrimPlain(k: string)
    requires PlainName(k)
    ensures Trim(k + " ") == k
  {
    assert (k + " ")[..|k|] == k;
    assert TrimEnd(k) == k;
    assert TrimEnd(k + " ") == TrimEnd((k + " ")[..|k|]);
  }

  lemma FindFirst(s: string, c: char, i: nat)
    requires i < |s| && s[i] == c && forall j | 0 <= j < i :: s[j] != c
    ensures Find(s, c) == i
  {
  }

  lemma TrimDirective(k: string, v: string)
    requires PlainName(k)
    ensures Trim(k + " = " + v) == k + " =" + TrimEnd(" " + v)
  {
    var head := k + " =";
    assert k + " = " + v == head + (" " + v);
    TrimEndKeeps(head, " " + v);
    assert (head + TrimEnd(" " + v))[0] == k[0];
  }

  lemma KindOfPlain(k: string, tail: string)
    requires PlainName(k)
    ensures KindOfTrimmed(k + " =" + tail) == Entry(NameOf(k))
  {
    hide Text.Trim, NameOf;
    var t := k + " =" + tail;
    assert t[0] == k[0];
    assert Find(t, '=') == |k| + 1 by {
      forall j | 0 <= j < |k| + 1 ensures t[j] != '=' { assert t[j] == (k + " ")[j]; }
      FindFirst(t, '=', |k| + 1);
    }
    assert t[..|k| + 1] == k + " ";
    TrimPlain(k);
  }

  /** `Name = anything` is an entry with that name, whatever the value holds. */
  lemma DirectiveKind(k: string, v: string)
    requires PlainName(k)
    ensures KindOf(k + " = " + v) == Entry(NameOf(k))
  {
    hide Text.Trim, NameOf, KindOfTrimmed, PlainName;
    TrimDirective(k, v);
    KindOfPlain(k, TrimEnd(" " + v));
  }

  /** The whitelist in the reader's terms: the directives each section admits. */
  lemma DirectiveAdmittedIff(sec: Section, k: string, v: string, forbid: bool)
    requires PlainName(k)
    ensures Admitted(sec, KindOf(k + " = " + v), forbid) <==>
            match sec
            case NoSection => false
            case Interface =>
              (k == "PrivateKey" && !forbid) || k in ["Address", "ListenPort", "DNS", "MTU", "Table"]
            case Peer => k in ["PublicKey", "PresharedKey", "AllowedIPs", "Endpoint", "PersistentKeepalive"]
  {
    hide KindOf, PlainName, NameOf;
    DirectiveKind(k, v);
    NamesByList(k);
  }

  /** Why a directive is refused: no section yet, a key sent over the wire, or a name the section does not list. */
  lemma DirectiveRefusal(sec: Section, k: string, v: string, forbid: bool)
    requires PlainName(k) && !Admitted(sec, KindOf(k + " = " + v), forbid)
    ensures Fault(sec, KindOf(k + " = " + v), forbid)
         == if sec == NoSection then OutsideSection
            else if sec == Interface && k == "PrivateKey" then PrivateKeyOverWire
            else NotAllowed
  {
    hide KindOf, PlainName, NameOf;
    DirectiveKind(k, v);
    NamesByList(k);
  }

  /** Why any other line is refused: an unknown header, or neither header nor directive. */
  lemma LineRefusal(sec: Section, line: string, forbid: bool)
    requires !Admitted(sec, KindOf(line), forbid)
    ensures var t := Trim(line);
            && t != "" && t[0] != '#'
            && (Fault(sec, KindOf(line), forbid) == UnknownSection <==> t[0] == '[' && t[|t| - 1] == ']')
            && (Fault(sec, KindOf(line), forbid) == NotKeyValue <==>
                  !(t[0] == '[' && t[|t| - 1] == ']') && '=' !in t)
  {
    hide Text.Trim, NameOf;
  }

  lemma NamesByList(k: string)
    ensures NameOf(k) == PrivateKeyName <==> k == "PrivateKey"
    ensures NameOf(k) == InterfaceName <==> k in ["Address", "ListenPort", "DNS", "MTU", "Table"]
    ensures NameOf(k) == PeerName <==>
            k in ["PublicKey", "PresharedKey", "AllowedIPs", "Endpoint", "PersistentKeepalive"]
  {
    assert NameOf(k) == InterfaceName <==> k in {"Address", "ListenPort", "DNS", "MTU", "Table"};
    assert NameOf(k) == PeerName <==>
        k in {"PublicKey", "PresharedKey", "AllowedIPs", "Endpoint", "PersistentKeepalive"};
  }

  // ----- injecting the node-local key -----------------------------------------------------

  function KeyLine(key: string): string { "PrivateKey = " + key }

  /** Index of the first `[Interface]` header, or `|ks|`. */
  function FirstInterface(ks: seq<Kind>): (k: nat)
    ensures k <= |ks|
    ensures k < |ks| ==> ks[k] == Head(Interface)
    ensures forall i | 0 <= i < k :: ks[i] != Head(Interface)
  {
    if ks == [] || ks[0] == Head(Interface) then 0 else 1 + FirstInterface(ks[1..])
  }

  /** The lines with the key line put behind line `k`. */
  function Insert<T>(ls: seq<T>, k: nat, line: T): seq<T>
    requires k < |ls|
  {
    ls[..k + 1] + [line] + ls[k + 1..]
  }

  /** The text `inject_private_key` returns, or None when there is no `[Interface]` header. */
  function InjectedText(content: string, key: string): Option<string> {
    var ls := Lines(content);
    var k := FirstInterface(Kinds(ls));
    if k < |ls| then Some(Unlines(Insert(ls, k, KeyLine(key)))) else None
  }

  lemma {:induction false} UnlinesAppend(a: seq<string>, b: seq<string>)
    ensures Unlines(a + b) == Unlines(a) + Unlines(b)
  {
    if a == [] {
      assert a + b == b;
    } else {
      calc {
        Unlines(a + b);
        { assert (a + b)[1..] == a[1..] + b; }
        a[0] + "\n" + Unlines(a[1..] + b);
        { UnlinesAppend(a[1..], b); }
        a[0] + "\n" + (Unlines(a[1..]) + Unlines(b));
        Unlines(a) + Unlines(b);
      }
    }
  }

  lemma UnlinesSnoc(a: seq<string>, line: string)
    ensures Unlines(a + [line]) == Unlines(a) + line + "\n"
  {
    UnlinesAppend(a, [line]);
    assert Unlines([line]) == line + "\n" + "";
    assert Unlines(a) + (line + "\n" + "") == Unlines(a) + line + "\n";
  }

  lemma InsertGrows<T>(ls: seq<T>, n: nat, k: nat, line: T)
    requires n < |ls|
    ensures ls[..n] + [ls[n]] == ls[..n + 1]
    ensures k < n ==> Insert(ls[..n], k, line) + [ls[n]] == Insert(ls[..n + 1], k, line)
    ensures k == n ==> ls[..n] + [ls[n]] + [line] == Insert(ls[..n + 1], k, line)
  {
    if k < n {
      assert Insert(ls[..n], k, line) == ls[..k + 1] + [line] + ls[k + 1..n];
      assert Insert(ls[..n + 1], k, line) == ls[..k + 1] + [line] + ls[k + 1..n + 1];
    }
  }

  lemma InterfaceKind(line: string)
    ensures Trim(line) == "[Interface]" <==> KindOf(line) == Head(Interface)
  {
    hide Text.Trim, NameOf;
  }

  /** What the injector has pushed after `n` lines, `k` being the first `[Interface]` header. */
  function Pushed(ls: seq<string>, n: nat, k: nat, key: string): string
    requires n <= |ls|
  {
    Unlines(if k < n then Insert(ls[..n], k, KeyLine(key)) else ls[..n])
  }

  lemma PushedStep(ls: seq<string>, n: nat, k: nat, key: string)
    requires n < |ls|
    ensures n != k ==> Pushed(ls, n + 1, k, key) == Pushed(ls, n, k, key) + ls[n] + "\n"
    ensures n == k ==> Pushed(ls, n + 1, k, key) == Pushed(ls, n, k, key) + ls[n] + "\n" + KeyLine(key) + "\n"
  {
    hide Text.Unlines, Insert, KeyLine;
    InsertGrows(ls, n, k, KeyLine(key));
    UnlinesSnoc(if k < n then Insert(ls[..n], k, KeyLine(key)) else ls[..n], ls[n]);
    if n == k { UnlinesSnoc(ls[..n] + [ls[n]], KeyLine(key)); }
  }

  lemma PushedAll(content: string, key: string)
    ensures var ls := Lines(content);
            var k := FirstInterface(Kinds(ls));
            Pushed(ls, 0, k, key) == "" &&
            InjectedText(content, key) == if k < |ls| then Some(Pushed(ls, |ls|, k, key)) else None
  {
    hide Text.Lines, FirstInterface, KindOf, KeyLine;
    assert Lines(content)[..|Lines(content)|] == Lines(content);
  }

  method InjectPrivateKey(content: string, privateKey: string) returns (r: Option<string>)
    ensures r == InjectedText(content, privateKey)
  {
    hide Text.Lines, Text.Trim, FirstInterface, Pushed, KindOf, InjectedText, KeyLine;
    var ls := Lines(content);
    var out := "";
    var injected := false;
    ghost var k := FirstInterface(Kinds(ls));
    PushedAll(content, privateKey);
    for n := 0 to |ls|
      invariant injected <==> k < n
      invariant out == Pushed(ls, n, k, privateKey)
    {
      PushedStep(ls, n, k, privateKey);
      InterfaceKind(ls[n]);
      out := out + ls[n] + "\n";
      if !injected && Trim(ls[n]) == "[Interface]" {
        out := out + KeyLine(privateKey) + "\n";
        injected := true;
      }
    }
    r := if injected then Some(out) else None;
  }

  lemma InjectionNeedsHeader(content: string, key: string)
    ensures InjectedText(content, key).Some? <==> FirstInterface(Kinds(Lines(content))) < |Lines(content)|
  {
  }

  /** The injected text reads back as the injected lines, up to one carriage return each. */
  lemma InjectedLines(content: string, key: string)
    requires '\n' !in key && InjectedText(content, key).Some?
    ensures var ls := Lines(content);
            Lines(InjectedText(content, key).value)
              == StripAll(Insert(ls, FirstInterface(Kinds(ls)), KeyLine(key)))
  {
    hide Text.Lines, Text.Unlines, Text.StripCr, KindOf, FirstInterface;
    var ls := Lines(content);
    LinesHaveNoNewline(content);
    assert '\n' !in "PrivateKey = ";
    LinesOfUnlines(Insert(ls, FirstInterface(Kinds(ls)), KeyLine(key)));
  }

  lemma KeyLineKind(key: string)
    ensures KindOf(KeyLine(key)) == Entry(PrivateKeyName)
  {
    hide KindOf;
    DirectiveKind("PrivateKey", key);
    assert NameOf("PrivateKey") == PrivateKeyName;
    assert KeyLine(key) == "PrivateKey" + " = " + key;
  }

  /** Putting a PrivateKey entry behind the first `[Interface]` header keeps the verdict. */
  lemma InsertKeepsVerdict(ks: seq<Kind>)
    requires Accepted(ks, true) && FirstInterface(ks) < |ks|
    ensures var k := FirstInterface(ks);
            var after := Insert(ks, k, Entry(PrivateKeyName));
            && Accepted(after, false)
            && (forall i | 0 <= i < |after| :: IsPrivateKey(after[i]) <==> i == k + 1)
            && SectionFrom(NoSection, after, k + 1) == Interface
  {
    hide AcceptedFrom, SectionFrom, FirstInterface;
    var k := FirstInterface(ks);
    var top, line, rest := ks[..k + 1], [Entry(PrivateKeyName)], ks[k + 1..];
    NoPrivateKeyForm(ks);
    assert ks == top + rest;
    assert Insert(ks, k, Entry(PrivateKeyName)) == top + (line + rest);
    EndsInInterface(top);
    KeyAccepted();
    AcceptedAppend(NoSection, top, rest, false);
    AcceptedAppend(Interface, line, rest, false);
    AcceptedAppend(NoSection, top, line + rest, false);
    SectionPrefix(NoSection, top, line + rest, k + 1);
    InsertedAt(ks, k, Entry(PrivateKeyName));
  }

  lemma EndsInInterface(top: seq<Kind>)
    requires top != [] && top[|top| - 1] == Head(Interface)
    ensures SectionFrom(NoSection, top, |top|) == Interface
  {
  }

  lemma KeyAccepted()
    ensures AcceptedFrom(Interface, [Entry(PrivateKeyName)], false)
    ensures SectionFrom(Interface, [Entry(PrivateKeyName)], 1) == Interface
  {
    assert SectionFrom(Interface, [Entry(PrivateKeyName)], 0) == Interface;
  }

  lemma InsertedAt<T>(ls: seq<T>, k: nat, line: T)
    requires k < |ls|
    ensures var after := Insert(ls, k, line);
            && |after| == |ls| + 1 && after[k + 1] == line
            && forall i | 0 <= i < |after| && i != k + 1 :: after[i] == ls[if i <= k then i else i - 1]
  {
  }

  /**
   * Injection keeps the verdict: a text accepted over the wire is, once the node's key is in,
   * accepted by the full whitelist, with exactly one PrivateKey directive, inside [Interface].
   */
  lemma InjectionKeepsVerdict(content: string, key: string)
    requires AcceptedText(content, true) && '\n' !in key
    requires InjectedText(content, key).Some?
    ensures AcceptedText(InjectedText(content, key).value, false)
    ensures var k := FirstInterface(Kinds(Lines(content)));
            var after := Kinds(Lines(InjectedText(content, key).value));
            && |after| == |Lines(content)| + 1
            && (forall i | 0 <= i < |after| :: IsPrivateKey(after[i]) <==> i == k + 1)
            && SectionFrom(NoSection, after, k + 1) == Interface
  {
    hide Text.Lines, Text.Unlines, KindOf, AcceptedFrom, FirstInterface, KeyLine;
    var ls := Lines(content);
    var k := FirstInterface(Kinds(ls));
    InjectedLines(content, key);
    KindsStrip(Insert(ls, k, KeyLine(key)));
    KeyLineKind(key);
    assert Kinds(Insert(ls, k, KeyLine(key))) == Insert(Kinds(ls), k, Entry(PrivateKeyName));
    InsertKeepsVerdict(Kinds(ls));
  }

  lemma InsertUndone<T>(ls: seq<T>, k: nat, line: T)
    requires k < |ls|
    ensures |Insert(ls, k, line)| == |ls| + 1
    ensures Insert(ls, k, line)[..k + 1] + Insert(ls, k, line)[k + 2..] == ls
  {
  }

  lemma StripInserted(ls: seq<string>, k: nat, line: string)
    requires k < |ls|
    ensures StripAll(Insert(ls, k, line)) == Insert(StripAll(ls), k, StripCr(line))
  {
  }

  /** A line sequence that survives being printed and read again. */
  predicate NoTrailingCr(ls: seq<string>) {
    forall i | 0 <= i < |ls| :: StripCr(ls[i]) == ls[i]
  }

  lemma StripsNothing(ls: seq<string>)
    ensures StripAll(ls) == ls <==> NoTrailingCr(ls)
  {
    hide Text.StripCr;
    if StripAll(ls) == ls {
      forall i | 0 <= i < |ls| ensures StripCr(ls[i]) == ls[i] { assert StripAll(ls)[i] == ls[i]; }
    }
  }

  /**
   * Dropping the injected line gives the original lines, each short of one carriage return:
   * so the original line sequence itself exactly when no original line ends in one.
   */
  lemma InjectionUndone(content: string, key: string)
    requires '\n' !in key && InjectedText(content, key).Some?
    ensures var k := FirstInterface(Kinds(Lines(content)));
            var after := Lines(InjectedText(content, key).value);
            && k + 1 < |after|
            && after[..k + 1] + after[k + 2..] == StripAll(Lines(content))
            && (after[..k + 1] + after[k + 2..] == Lines(content) <==> NoTrailingCr(Lines(content)))
  {
    hide Text.Lines, Text.Unlines, Text.StripCr, KindOf, FirstInterface, KeyLine, Insert, InjectedText;
    var ls := Lines(content);
    var k := FirstInterface(Kinds(ls));
    assert k < |ls| by { InjectionNeedsHeader(content, key); }
    InjectedLines(content, key);
    StripInserted(ls, k, KeyLine(key));
    InsertUndone(StripAll(ls), k, StripCr(KeyLine(key)));
    StripsNothing(ls);
  }

  predicate EndsInCr(s: string) { s != "" && s[|s| - 1] == '\r' }

  lemma {:induction false} LastLineKeepsCr(content: string)
    requires EndsInCr(content)
    ensures Lines(content) != [] && EndsInCr(Lines(content)[|Lines(content)| - 1])
  {
    hide Text.StripCr;
    var i := Find(content, '\n');
    if i < |content| {
      LastLineKeepsCr(content[i + 1..]);
    }
  }

  /** The family the round trip misses: any injectable text that ends in a carriage return. */
  lemma CarriageReturnLost(content: string, key: string)
    requires '\n' !in key && InjectedText(content, key).Some? && EndsInCr(content)
    ensures var k := FirstInterface(Kinds(Lines(content)));
            var after := Lines(InjectedText(content, key).value);
            k + 1 < |after| && after[..k + 1] + after[k + 2..] != Lines(content)
  {
    hide Text.Lines, FirstInterface, InjectedText, KindOf;
    var ls := Lines(content);
    LastLineKeepsCr(content);
    InjectionUndone(content, key);
    assert |StripCr(ls[|ls| - 1])| < |ls[|ls| - 1]|;
  }

  /** The shortest member of that family. */
  lemma CarriageReturnWitness(key: string)
    ensures InjectedText("[Interface]\r", key).Some? && EndsInCr("[Interface]\r")
  {
    hide Text.Lines, Text.Trim, NameOf, KeyLine, KindOf, FirstInterface;
    var content := "[Interface]\r";
    InterfaceCr(content);
    LastLine(content);
    assert Kinds([content])[0] == Head(Interface);
    InjectionNeedsHeader(content, key);
  }

  lemma InterfaceCr(content: string)
    requires content == "[Interface]\r"
    ensures '\n' !in content && KindOf(content) == Head(Interface)
  {
    hide NameOf, Text.Trim, Text.Find;
    assert content[..11] == "[Interface]";
    KindIgnoresCr(content);
    TrimSame("[Interface]");
  }
}
