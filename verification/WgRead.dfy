/** Reading a rendered wg0.conf back: which peers another reader finds in it (network/wireguard.rs). */
module WgRead {
  import opened Text
  import opened WgConf
  import opened WgRender

  /** What a reader makes of a line that is neither blank nor a comment. */
  datatype Item = Header(name: string) | Setting(key: string, value: string) | Other(text: string)

  function ItemsOfLine(line: string): seq<Item> { ItemsOfTrimmed(Trim(line)) }

  function ItemsOfTrimmed(t: string): (r: seq<Item>)
    ensures |r| <= 1
  {
    if t == "" || t[0] == '#' then []
    else if t[0] == '[' && |t| > 1 && t[|t| - 1] == ']' then [Header(t[1..|t| - 1])]
    else
      var i := Find(t, '=');
      if i < |t| then [Setting(Trim(t[..i]), Trim(t[i + 1..]))] else [Other(t)]
  }

  function Items(ls: seq<string>): seq<Item> {
    if ls == [] then [] else ItemsOfLine(ls[0]) + Items(ls[1..])
  }

  function TextItems(s: string): seq<Item> { Items(Lines(s)) }

  // ----- what was meant -------------------------------------------------------------------

  function PeerItems(p: Node, keepalive: nat): seq<Item>
    requires p.publicKey.Some?
  {
    [Header("Peer"), Setting("PublicKey", Trim(p.publicKey.value)), Setting("Endpoint", Trim(p.endpoint))]
    + TailItems(p, keepalive)
  }

  function TailItems(p: Node, keepalive: nat): seq<Item> {
    [Setting("AllowedIPs", DottedQuad(p.ip) + "/32")]
    + if keepalive > 0 then [Setting("PersistentKeepalive", Decimal(keepalive))] else []
  }

  function PeersItems(me: Node, peers: seq<Node>, keepalive: nat): seq<Item> {
    if peers == [] then []
    else
      var last := peers[|peers| - 1];
      PeersItems(me, peers[..|peers| - 1], keepalive) + if Listed(me, last) then PeerItems(last, keepalive) else []
  }

  /** The interface of the node and one section for each listed peer, with its own key, endpoint and address. */
  function MeantItems(me: Node, peers: seq<Node>, listenPort: nat, keepalive: nat): seq<Item> {
    [Header("Interface"), Setting("Address", DottedQuad(me.ip) + "/32"), Setting("ListenPort", Decimal(listenPort))]
    + PeersItems(me, peers, keepalive)
  }

  // ----- trimming -------------------------------------------------------------------------

  predicate AllSpace(s: string) { forall i | 0 <= i < |s| :: IsSpace(s[i]) }

  lemma {:induction false} TrimEndOfSpaces(a: string, w: string)
    requires AllSpace(w)
    ensures TrimEnd(a + w) == TrimEnd(a)
    decreases |w|
  {
    hide IsSpace;
    if w == "" {
      assert a + w == a;
    } else {
      assert (a + w)[..|a + w| - 1] == a + w[..|w| - 1];
      TrimEndOfSpaces(a, w[..|w| - 1]);
    }
  }

  lemma {:induction false} TrimEndOfMore(a: string, w: string)
    requires !AllSpace(w)
    ensures TrimEnd(a + w) == a + TrimEnd(w) && TrimEnd(w) != "" && TrimEnd(w) <= w
    decreases |w|
  {
    hide IsSpace;
    var last := w[|w| - 1];
    assert (a + w)[|a + w| - 1] == last;
    if IsSpace(last) {
      assert (a + w)[..|a + w| - 1] == a + w[..|w| - 1];
      assert !AllSpace(w[..|w| - 1]) by {
        var i :| 0 <= i < |w| && !IsSpace(w[i]);
        assert w[..|w| - 1][i] == w[i];
      }
      TrimEndOfMore(a, w[..|w| - 1]);
    }
  }

  lemma {:induction false} TrimStartOfSpaces(w: string, b: string)
    requires AllSpace(w)
    ensures TrimStart(w + b) == TrimStart(b)
  {
    hide IsSpace;
    if w == "" {
      assert w + b == b;
    } else {
      assert (w + b)[1..] == w[1..] + b;
      TrimStartOfSpaces(w[1..], b);
    }
  }

  lemma {:induction false} TrimStartOfMore(a: string, b: string)
    requires !AllSpace(a)
    ensures TrimStart(a + b) == TrimStart(a) + b
  {
    hide IsSpace;
    if IsSpace(a[0]) {
      assert (a + b)[1..] == a[1..] + b;
      assert !AllSpace(a[1..]) by {
        var i :| 0 <= i < |a| && !IsSpace(a[i]);
        assert a[1..][i - 1] == a[i];
      }
      TrimStartOfMore(a[1..], b);
    }
  }

  lemma TrimOfSpaces(s: string)
    requires AllSpace(s)
    ensures TrimStart(s) == "" && TrimEnd(s) == "" && Trim(s) == ""
  {
    TrimEndOfSpaces("", s);
    TrimStartOfSpaces(s, "");
    assert "" + s == s && s + "" == s;
  }

  lemma TrimAfterBlank(v: string)
    ensures Trim(TrimEnd(" " + v)) == Trim(v)
  {
    hide Text.TrimEnd, Text.TrimStart;
    assert AllSpace(" ");
    if AllSpace(v) {
      assert AllSpace(" " + v);
      TrimOfSpaces(" " + v);
      TrimOfSpaces(v);
      TrimOfSpaces("");
    } else {
      TrimEndOfMore(" ", v);
      TrimEndOfMore("", v);
      assert "" + v == v && "" + TrimEnd(v) == TrimEnd(v);
      TrimEndTwice(" " + v);
      TrimStartOfSpaces(" ", TrimEnd(v));
    }
  }

  lemma TrimEndTwice(s: string)
    ensures TrimEnd(TrimEnd(s)) == TrimEnd(s)
  {
  }

  /** Only whitespace from the first newline on. */
  predicate OneLiner(v: string) { AllSpace(v[Find(v, '\n')..]) }

  /** The first line carries the whole value exactly when nothing but whitespace follows it. */
  lemma FirstLineIsValueIff(v: string)
    ensures Trim(v[..Find(v, '\n')]) == Trim(v) <==> OneLiner(v)
  {
    hide Text.TrimEnd, Text.TrimStart, Text.Find, IsSpace;
    var i := Find(v, '\n');
    var l, w := v[..i], v[i..];
    assert v == l + w;
    if AllSpace(w) {
      TrimEndOfSpaces(l, w);
    } else {
      TrimEndOfMore(l, w);
      assert |w| > 0;
      assert w[0] == v[i] == '\n';
      var u := TrimEnd(w);
      assert u[0] == '\n';
      if AllSpace(l) {
        TrimOfSpaces(l);
        TrimStartOfSpaces(l, u);
        NotAllTrimmed(w);
      } else {
        TrimStartOfMore(l, u);
        assert (TrimStart(l) + u)[|TrimStart(l)|] == '\n';
        TrimKeepsLine(l);
      }
    }
  }

  lemma NotAllTrimmed(w: string)
    requires !AllSpace(w)
    ensures TrimStart(TrimEnd(w)) != ""
  {
    TrimEndOfMore("", w);
    var u := TrimEnd(w);
    assert "" + w == w && "" + u == u;
    assert !AllSpace(u) by { assert !IsSpace(u[|u| - 1]); }
    TrimStartOfMore(u, "");
    SomethingStays(u);
  }

  lemma {:induction false} SomethingStays(u: string)
    requires !AllSpace(u)
    ensures TrimStart(u) != ""
  {
    hide IsSpace;
    if IsSpace(u[0]) {
      assert !AllSpace(u[1..]) by {
        var i :| 0 <= i < |u| && !IsSpace(u[i]);
        assert u[1..][i - 1] == u[i];
      }
      SomethingStays(u[1..]);
    }
  }

  lemma TrimKeepsLine(l: string)
    requires '\n' !in l
    ensures '\n' !in Trim(l)
  {
    hide Text.TrimEnd, Text.TrimStart;
    TrimEndPrefix(l);
    var e := TrimEnd(l);
    assert forall c | c in e :: c in l;
    TrimStartIsSuffix(e);
    assert forall c | c in TrimStart(e) :: c in e;
  }

  // ----- texts ----------------------------------------------------------------------------

  lemma {:induction false} ItemsSplit(a: seq<string>, b: seq<string>)
    ensures Items(a + b) == Items(a) + Items(b)
  {
    hide ItemsOfLine;
    if a == [] {
      assert a + b == b;
    } else {
      assert (a + b)[1..] == a[1..] + b;
      ItemsSplit(a[1..], b);
    }
  }

  lemma ItemsAppend(a: string, b: string)
    requires Ended(a)
    ensures TextItems(a + b) == TextItems(a) + TextItems(b)
  {
    hide Text.Lines, Items;
    if a == "" {
      assert a + b == b;
      NothingThere();
    } else {
      var a' := a[..|a| - 1];
      assert a == a' + "\n";
      LinesAppend(a', b);
      ItemsSplit(Lines(a), Lines(b));
    }
  }

  lemma NothingThere()
    ensures TextItems("") == []
  {
  }

  lemma OneLineItems(line: string)
    requires '\n' !in line
    ensures TextItems(line + "\n") == ItemsOfLine(line)
  {
    hide Text.Lines, Text.Trim, ItemsOfTrimmed;
    OneLine(line);
    TrimIgnoresCr(line);
    assert Items([StripCr(line)]) == ItemsOfLine(StripCr(line)) + Items([]);
  }

  /** What the further lines of a field add. */
  function Extra(field: string): seq<Item> {
    var i := Find(field, '\n');
    if i == |field| then [] else TextItems(field[i + 1..] + "\n")
  }

  lemma FieldItems(prefix: string, field: string)
    requires '\n' !in prefix
    ensures TextItems(prefix + field + "\n") == ItemsOfLine(prefix + field[..Find(field, '\n')]) + Extra(field)
  {
    hide ItemsOfLine, Text.Lines, Items;
    var i := Find(field, '\n');
    var line := prefix + field[..i];
    OneLineItems(line);
    if i == |field| {
      assert field[..i] == field;
    } else {
      var rest := field[i + 1..] + "\n";
      assert prefix + field + "\n" == (line + "\n") + rest;
      ItemsAppend(line + "\n", rest);
    }
  }

  lemma SettingOf(k: string, v: string)
    requires PlainName(k)
    ensures ItemsOfLine(k + " = " + v) == [Setting(k, Trim(v))]
  {
    hide Text.Trim;
    TrimDirective(k, v);
    var tail := TrimEnd(" " + v);
    var t := k + " =" + tail;
    assert t[0] == k[0];
    assert Find(t, '=') == |k| + 1 by {
      forall j | 0 <= j < |k| + 1 ensures t[j] != '=' { assert t[j] == (k + " ")[j]; }
      FindFirst(t, '=', |k| + 1);
    }
    assert t[..|k| + 1] == k + " " && t[|k| + 2..] == tail;
    TrimPlain(k);
    TrimAfterBlank(v);
  }

  lemma DirectiveItems(k: string, v: string)
    requires PlainName(k)
    ensures TextItems(Directive(k, v)) == [Setting(k, Trim(v[..Find(v, '\n')]))] + Extra(v)
  {
    hide ItemsOfLine, Text.Trim, Extra;
    assert '\n' !in k + " = ";
    FieldItems(k + " = ", v);
    SettingOf(k, v[..Find(v, '\n')]);
  }

  lemma CommentItems(name: string)
    ensures TextItems("# " + name + "\n") == Extra(name)
  {
    hide Text.Trim, Extra;
    assert '\n' !in "# ";
    FieldItems("# ", name);
    TrimComment(name[..Find(name, '\n')]);
    assert [] + Extra(name) == Extra(name);
  }

  lemma {:induction false} SpacesHaveNoItems(s: string)
    requires AllSpace(s)
    ensures TextItems(s) == []
    decreases |s|
  {
    hide ItemsOfTrimmed, Text.Trim, IsSpace;
    BlankIsNothing();
    var i := Find(s, '\n');
    if s == "" {
    } else if i == |s| {
      TrimOfSpaces(s);
      assert Lines(s) == [s] && Items([s]) == ItemsOfLine(s) + Items([]);
    } else {
      SpacesHaveNoItems(s[i + 1..]);
      TrimOfSpaces(s[..i]);
      TrimIgnoresCr(s[..i]);
      assert Lines(s)[1..] == Lines(s[i + 1..]);
    }
  }

  lemma BlankIsNothing()
    ensures ItemsOfTrimmed("") == []
  {
  }

  lemma OneLinerAddsNothing(v: string)
    requires OneLiner(v)
    ensures Extra(v) == []
  {
    hide TextItems, IsSpace;
    var i := Find(v, '\n');
    if i < |v| {
      var rest := v[i + 1..] + "\n";
      assert AllSpace(rest) by {
        assert IsSpace('\n') by { NewlineIsSpace(); }
        forall k | 0 <= k < |rest| ensures IsSpace(rest[k]) { if k < |rest| - 1 { assert rest[k] == v[i..][k + 1]; } }
      }
      SpacesHaveNoItems(rest);
    }
  }

  lemma NewlineIsSpace()
    ensures IsSpace('\n')
  {
  }

  // ----- blocks ---------------------------------------------------------------------------

  lemma HeaderItems()
    ensures TextItems("\n") == [] && TextItems("[Peer]\n") == [Header("Peer")]
    ensures TextItems("[Interface]\n") == [Header("Interface")]
  {
    hide TextItems, Text.Trim;
    OneLineItems("");
    OneLineItems("[Peer]");
    OneLineItems("[Interface]");
    TrimSame("[Peer]");
    TrimSame("[Interface]");
    TrimOfSpaces("");
    assert "" + "\n" == "\n" && "[Peer]" + "\n" == "[Peer]\n" && "[Interface]" + "\n" == "[Interface]\n";
    assert "[Peer]"[1..5] == "Peer" && "[Interface]"[1..10] == "Interface";
  }

  lemma PlainItems(k: string, v: string)
    requires PlainName(k) && '\n' !in v && Trim(v) == v
    ensures TextItems(Directive(k, v)) == [Setting(k, v)]
  {
    hide TextItems, Text.Trim;
    assert forall j | 0 <= j < |v| :: v[j] != '\n';
    assert Find(v, '\n') == |v| && v[..|v|] == v;
    DirectiveItems(k, v);
  }

  lemma DecimalIsTrimmed(n: nat)
    ensures Decimal(n) != "" && '\n' !in Decimal(n) && Trim(Decimal(n)) == Decimal(n)
  {
    var d := Decimal(n);
    assert !IsSpace(d[0]) && !IsSpace(d[|d| - 1]);
    TrimSame(d);
  }

  lemma QuadIsTrimmed(ip: nat)
    ensures var q := DottedQuad(ip) + "/32"; '\n' !in q && Trim(q) == q
  {
    hide Text.Decimal;
    QuadIsPlain(ip);
    var q := DottedQuad(ip) + "/32";
    DecimalIsTrimmed(ip / 0x100_0000 % 0x100);
    assert q[0] == Decimal(ip / 0x100_0000 % 0x100)[0] && '0' <= q[0] <= '9';
    assert q[|q| - 1] == '2';
    TrimSame(q);
  }

  lemma TailText(p: Node, keepalive: nat)
    ensures TextItems(Directive("AllowedIPs", DottedQuad(p.ip) + "/32") + KeepaliveLine(keepalive))
        == TailItems(p, keepalive)
  {
    hide TextItems, NameOf, PlainName, DottedQuad, Text.Decimal, Text.Trim;
    PeerNames();
    QuadIsTrimmed(p.ip);
    var a := Directive("AllowedIPs", DottedQuad(p.ip) + "/32");
    PlainItems("AllowedIPs", DottedQuad(p.ip) + "/32");
    ItemsAppend(a, KeepaliveLine(keepalive));
    if keepalive > 0 {
      DecimalIsTrimmed(keepalive);
      PlainItems("PersistentKeepalive", Decimal(keepalive));
    } else {
      NothingThere();
    }
  }

  function BlockItems(p: Node, keepalive: nat): seq<Item>
    requires p.publicKey.Some?
  {
    var k, e := p.publicKey.value, p.endpoint;
    [Header("Peer")] + Extra(p.name)
    + ([Setting("PublicKey", Trim(k[..Find(k, '\n')]))] + Extra(k)
    + ([Setting("Endpoint", Trim(e[..Find(e, '\n')]))] + Extra(e) + TailItems(p, keepalive)))
  }

  lemma BlockReads(p: Node, keepalive: nat)
    requires p.publicKey.Some?
    ensures TextItems(PeerBlock(p, keepalive)) == BlockItems(p, keepalive)
  {
    hide TextItems, NameOf, PlainName, DottedQuad, Text.Decimal, Extra, KeepaliveLine, Text.Trim, TailItems;
    PeerNames();
    HeaderItems();
    var t4 := Directive("AllowedIPs", DottedQuad(p.ip) + "/32") + KeepaliveLine(keepalive);
    var d3 := Directive("Endpoint", p.endpoint);
    var d2 := Directive("PublicKey", p.publicKey.value);
    var d1 := "# " + p.name + "\n";
    TailText(p, keepalive);
    DirectiveItems("Endpoint", p.endpoint);
    DirectiveItems("PublicKey", p.publicKey.value);
    CommentItems(p.name);
    ItemsAppend(d3, t4);
    ItemsAppend(d2, d3 + t4);
    ItemsAppend(d1, d2 + (d3 + t4));
    ItemsAppend("[Peer]\n", d1 + (d2 + (d3 + t4)));
    ItemsAppend("\n", "[Peer]\n" + (d1 + (d2 + (d3 + t4))));
  }

  /** The comment's further lines are blank or comments; key and endpoint are one line each. */
  predicate Faithful(p: Node)
    requires p.publicKey.Some?
  {
    Extra(p.name) == [] && OneLiner(p.publicKey.value) && OneLiner(p.endpoint)
  }

  lemma BlockIsMeantIff(p: Node, keepalive: nat)
    requires p.publicKey.Some?
    ensures |BlockItems(p, keepalive)| >= |PeerItems(p, keepalive)|
    ensures BlockItems(p, keepalive) == PeerItems(p, keepalive) <==> Faithful(p)
  {
    hide Extra, Text.Trim, TailItems, OneLiner;
    var k, e := p.publicKey.value, p.endpoint;
    FirstLineIsValueIff(k);
    FirstLineIsValueIff(e);
    if OneLiner(k) { OneLinerAddsNothing(k); }
    if OneLiner(e) { OneLinerAddsNothing(e); }
    var b, m := BlockItems(p, keepalive), PeerItems(p, keepalive);
    assert |b| == |m| + |Extra(p.name)| + |Extra(k)| + |Extra(e)|;
    if |b| == |m| {
      assert Extra(p.name) == [] && Extra(k) == [] && Extra(e) == [];
      assert b[1] == Setting("PublicKey", Trim(k[..Find(k, '\n')])) && m[1] == Setting("PublicKey", Trim(k));
      assert b[2] == Setting("Endpoint", Trim(e[..Find(e, '\n')])) && m[2] == Setting("Endpoint", Trim(e));
    }
  }

  lemma SameParts<T>(a: seq<T>, b: seq<T>, c: seq<T>, d: seq<T>)
    requires |a| >= |c| && |b| >= |d|
    ensures a + b == c + d <==> a == c && b == d
  {
    if a + b == c + d {
      assert |a + b| == |c + d|;
      assert a == (a + b)[..|a|] && b == (a + b)[|a|..];
      assert c == (c + d)[..|c|] && d == (c + d)[|c|..];
    }
  }

  lemma {:induction false} BlocksAreMeantIff(me: Node, peers: seq<Node>, keepalive: nat)
    ensures |TextItems(PeerBlocks(me, peers, keepalive))| >= |PeersItems(me, peers, keepalive)|
    ensures TextItems(PeerBlocks(me, peers, keepalive)) == PeersItems(me, peers, keepalive)
            <==> forall i | 0 <= i < |peers| && Listed(me, peers[i]) :: Faithful(peers[i])
  {
    hide TextItems, PeerBlock, PeerItems, BlockItems, Faithful;
    if peers == [] {
      NothingThere();
    } else {
      var n := |peers| - 1;
      var before, last := peers[..n], peers[n];
      BlocksAreMeantIff(me, before, keepalive);
      assert forall i | 0 <= i < n :: peers[i] == before[i];
      var a, c := PeerBlocks(me, before, keepalive), PeersItems(me, before, keepalive);
      if Listed(me, last) {
        BlocksEnded(me, before, keepalive);
        ItemsAppend(a, PeerBlock(last, keepalive));
        BlockReads(last, keepalive);
        BlockIsMeantIff(last, keepalive);
        SameParts(TextItems(a), BlockItems(last, keepalive), c, PeerItems(last, keepalive));
      } else {
        assert a + "" == a && c + [] == c;
      }
    }
  }

  lemma InterfaceReads(me: Node, listenPort: nat)
    ensures TextItems(InterfaceBlock(me, listenPort))
         == [Header("Interface"), Setting("Address", DottedQuad(me.ip) + "/32"),
             Setting("ListenPort", Decimal(listenPort))]
  {
    hide TextItems, DottedQuad, Text.Decimal, NameOf, PlainName, Text.Trim;
    HeaderItems();
    InterfaceNames();
    QuadIsTrimmed(me.ip);
    DecimalIsTrimmed(listenPort);
    var a, b := Directive("Address", DottedQuad(me.ip) + "/32"), Directive("ListenPort", Decimal(listenPort));
    PlainItems("Address", DottedQuad(me.ip) + "/32");
    PlainItems("ListenPort", Decimal(listenPort));
    ItemsAppend(a, b);
    ItemsAppend("[Interface]\n", a + b);
  }

  /**
   * The rendered text reads back as the node's interface and exactly the listed peers, each with its
   * own key, endpoint and address, if and only if the further lines of every name are blank or
   * comments and nothing but whitespace follows the first line of every key and endpoint.
   */
  lemma RenderReadsBackIff(me: Node, peers: seq<Node>, listenPort: nat, keepalive: nat)
    ensures TextItems(Rendered(me, peers, listenPort, keepalive)) == MeantItems(me, peers, listenPort, keepalive)
            <==> forall i | 0 <= i < |peers| && Listed(me, peers[i]) :: Faithful(peers[i])
  {
    hide TextItems, InterfaceBlock, PeerBlocks, PeersItems, Faithful, DottedQuad, Text.Decimal;
    InterfaceReads(me, listenPort);
    InterfaceEnded(me, listenPort);
    ItemsAppend(InterfaceBlock(me, listenPort), PeerBlocks(me, peers, keepalive));
    BlocksAreMeantIff(me, peers, keepalive);
    SameParts(TextItems(InterfaceBlock(me, listenPort)), TextItems(PeerBlocks(me, peers, keepalive)),
              TextItems(InterfaceBlock(me, listenPort)), PeersItems(me, peers, keepalive));
  }

  /** Names the helper accepts that still change what is read: they give their peer further addresses. */
  lemma AcceptedNameCanMislead(me: Node, p: Node, listenPort: nat, keepalive: nat, a: string, b: string)
    requires Listed(me, p) && '\n' !in p.publicKey.value && '\n' !in p.endpoint
    requires p.name == a + "\n" + ("AllowedIPs" + " = " + b) && '\n' !in a && '\n' !in b
    ensures AcceptedText(Rendered(me, [p], listenPort, keepalive), true)
    ensures TextItems(Rendered(me, [p], listenPort, keepalive)) != MeantItems(me, [p], listenPort, keepalive)
  {
    hide Rendered, AcceptedText, TextItems, MeantItems, Faithful, CleanPeer, NameOf, PlainName;
    var line := "AllowedIPs" + " = " + b;
    assert p.name[|a|] == '\n' && forall j | 0 <= j < |a| :: p.name[j] == a[j] && a[j] != '\n';
    FindFirst(p.name, '\n', |a|);
    assert p.name[|a| + 1..] == line;
    PeerNames();
    assert '\n' !in "AllowedIPs" + " = ";
    NotFaithful(p, line, b);
    CleanDespite(p, line, b);
    RenderReadsBackIff(me, [p], listenPort, keepalive);
    RenderAcceptedIff(me, [p], listenPort, keepalive, true);
    assert [p][0] == p;
  }

  lemma NotFaithful(p: Node, line: string, b: string)
    requires p.publicKey.Some? && line == "AllowedIPs" + " = " + b && '\n' !in line && PlainName("AllowedIPs")
    requires Find(p.name, '\n') < |p.name| && p.name[Find(p.name, '\n') + 1..] == line
    ensures !Faithful(p)
  {
    hide Text.Trim, TextItems, ItemsOfLine, PlainName, NameOf;
    SettingOf("AllowedIPs", b);
    OneLineItems(line);
  }

  lemma CleanDespite(p: Node, line: string, b: string)
    requires p.publicKey.Some? && '\n' !in p.publicKey.value && '\n' !in p.endpoint
    requires line == "AllowedIPs" + " = " + b && '\n' !in line
    requires PlainName("AllowedIPs") && NameOf("AllowedIPs") == PeerName
    requires Find(p.name, '\n') < |p.name| && p.name[Find(p.name, '\n') + 1..] == line
    ensures CleanPeer(p, true)
  {
    hide Text.Trim, TextKinds, KindOf, PlainName, NameOf;
    DirectiveKind("AllowedIPs", b);
    OneKind(line);
    NoContinuation(p.publicKey.value);
    NoContinuation(p.endpoint);
    assert Continuation(p.name) == [PE];
  }

  // ----- the injected key -----------------------------------------------------------------

  lemma HeaderIsInterface(line: string)
    ensures ItemsOfLine(line) == [Header("Interface")] <==> KindOf(line) == Head(Interface)
  {
    hide Text.Trim, NameOf;
    var t := Trim(line);
    InterfaceKind(line);
    if |t| > 1 && t[0] == '[' && t[|t| - 1] == ']' { HeaderText(t); }
    assert "[Interface]"[1..10] == "Interface";
  }

  predicate IsInterfaceLine(line: string) { ItemsOfLine(line) == [Header("Interface")] }

  /** A key can be injected exactly when some line of the text is an [Interface] header. */
  lemma InjectableIff(content: string, key: string)
    ensures InjectedText(content, key).Some? <==>
            exists k | 0 <= k < |Lines(content)| :: IsInterfaceLine(Lines(content)[k])
  {
    hide Text.Lines, FirstInterface, ItemsOfLine, KindOf, InjectedText;
    var ls := Lines(content);
    InjectionNeedsHeader(content, key);
    forall k | 0 <= k < |ls| ensures IsInterfaceLine(ls[k]) <==> Kinds(ls)[k] == Head(Interface) {
      HeaderIsInterface(ls[k]);
    }
    var k := FirstInterface(Kinds(ls));
    if k < |ls| { assert IsInterfaceLine(ls[k]); }
  }

  /**
   * Reading the injected text: one line more, right behind the first [Interface] header, which sets
   * PrivateKey to the key; every other line reads as before.
   */
  lemma InjectionReads(content: string, key: string, k: nat)
    requires '\n' !in key && k < |Lines(content)| && IsInterfaceLine(Lines(content)[k])
    requires forall i | 0 <= i < k :: !IsInterfaceLine(Lines(content)[i])
    ensures InjectedText(content, key).Some?
    ensures var ls, after := Lines(content), Lines(InjectedText(content, key).value);
            && |after| == |ls| + 1
            && (forall j | 0 <= j <= k :: ItemsOfLine(after[j]) == ItemsOfLine(ls[j]))
            && ItemsOfLine(after[k + 1]) == [Setting("PrivateKey", Trim(key))]
            && (forall j | k < j < |ls| :: ItemsOfLine(after[j + 1]) == ItemsOfLine(ls[j]))
  {
    hide Text.Lines, Text.Trim, Text.StripCr, FirstInterface, ItemsOfTrimmed, KindOf, InjectedText, KeyLine;
    var ls := Lines(content);
    InjectableIff(content, key);
    InjectionNeedsHeader(content, key);
    forall i | 0 <= i < |ls| ensures IsInterfaceLine(ls[i]) <==> Kinds(ls)[i] == Head(Interface) {
      HeaderIsInterface(ls[i]);
    }
    assert FirstInterface(Kinds(ls)) == k;
    InjectedLines(content, key);
    StripInserted(ls, k, KeyLine(key));
    KeyLineReads(key);
    forall j | 0 <= j < |ls| ensures ItemsOfLine(StripCr(ls[j])) == ItemsOfLine(ls[j]) { TrimIgnoresCr(ls[j]); }
    TrimIgnoresCr(KeyLine(key));
  }

  lemma KeyLineReads(key: string)
    ensures ItemsOfLine(KeyLine(key)) == [Setting("PrivateKey", Trim(key))]
  {
    hide ItemsOfLine, Text.Trim;
    SettingOf("PrivateKey", key);
    assert KeyLine(key) == "PrivateKey" + " = " + key;
  }
}
