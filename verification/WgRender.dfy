/** Rendering wg0.conf on the core (pier-core, network/wireguard.rs) for the helper's whitelist. */
module WgRender {
  import opened Text
  import opened WgConf

  type ServerId = nat

  /** The columns of a mesh peer the renderer reads. Addresses are 32-bit numbers. */
  datatype Node = Node(serverId: ServerId, name: string, publicKey: Option<string>, endpoint: string, ip: nat)

  function DottedQuad(ip: nat): string {
    Decimal(ip / 0x100_0000 % 0x100) + "." + Decimal(ip / 0x1_0000 % 0x100) + "."
    + Decimal(ip / 0x100 % 0x100) + "." + Decimal(ip % 0x100)
  }

  // ----- the text -------------------------------------------------------------------------

  function Directive(name: string, value: string): string { name + " = " + value + "\n" }

  function InterfaceBlock(me: Node, listenPort: nat): string {
    "[Interface]\n" + (Directive("Address", DottedQuad(me.ip) + "/32") + Directive("ListenPort", Decimal(listenPort)))
  }

  function KeepaliveLine(keepalive: nat): string {
    if keepalive > 0 then Directive("PersistentKeepalive", Decimal(keepalive)) else ""
  }

  function PeerBlock(p: Node, keepalive: nat): string
    requires p.publicKey.Some?
  {
    "\n" + ("[Peer]\n" + ("# " + p.name + "\n" + (Directive("PublicKey", p.publicKey.value)
    + (Directive("Endpoint", p.endpoint)
    + (Directive("AllowedIPs", DottedQuad(p.ip) + "/32") + KeepaliveLine(keepalive))))))
  }

  /** A peer that gets a [Peer] block: keyed, and not the node itself. */
  predicate Listed(me: Node, p: Node) { p.serverId != me.serverId && p.publicKey.Some? }

  function PeerBlocks(me: Node, peers: seq<Node>, keepalive: nat): string {
    if peers == [] then ""
    else
      var last := peers[|peers| - 1];
      PeerBlocks(me, peers[..|peers| - 1], keepalive) + if Listed(me, last) then PeerBlock(last, keepalive) else ""
  }

  function Rendered(me: Node, peers: seq<Node>, listenPort: nat, keepalive: nat): string {
    InterfaceBlock(me, listenPort) + PeerBlocks(me, peers, keepalive)
  }

  method RenderWgConf(me: Node, peers: seq<Node>, listenPort: nat, keepalive: nat) returns (out: string)
    ensures out == Rendered(me, peers, listenPort, keepalive)
  {
    hide Text.Decimal, DottedQuad, PeerBlock;
    out := "[Interface]\n"
           + (Directive("Address", DottedQuad(me.ip) + "/32") + Directive("ListenPort", Decimal(listenPort)));
    ghost var head := out;
    assert head == InterfaceBlock(me, listenPort);
    for n := 0 to |peers|
      invariant out == head + PeerBlocks(me, peers[..n], keepalive)
    {
      assert peers[..n + 1][..n] == peers[..n];
      if peers[n].serverId == me.serverId || peers[n].publicKey.None? {
        continue;
      }
      out := out + PeerBlock(peers[n], keepalive);
    }
    assert peers[..|peers|] == peers;
  }

  // ----- what the whitelist sees in it ----------------------------------------------------

  function TextKinds(s: string): seq<Kind> { Kinds(Lines(s)) }

  predicate Ended(s: string) { s == "" || s[|s| - 1] == '\n' }

  lemma TextAppend(a: string, b: string)
    requires Ended(a)
    ensures TextKinds(a + b) == TextKinds(a) + TextKinds(b)
  {
    if a == "" {
      assert a + b == b;
    } else {
      var a' := a[..|a| - 1];
      assert a == a' + "\n";
      LinesAppend(a', b);
      KindsAppend(Lines(a), Lines(b));
    }
  }

  lemma OneKind(line: string)
    requires '\n' !in line
    ensures TextKinds(line + "\n") == [KindOf(line)]
  {
    OneLine(line);
    KindIgnoresCr(line);
  }

  /** The lines a field adds to the file beyond the one it is printed on. */
  function Continuation(field: string): seq<Kind> {
    var i := Find(field, '\n');
    if i == |field| then [] else TextKinds(field[i + 1..] + "\n")
  }

  lemma FieldKinds(prefix: string, field: string)
    requires '\n' !in prefix
    ensures TextKinds(prefix + field + "\n") == [KindOf(prefix + field[..Find(field, '\n')])] + Continuation(field)
  {
    hide KindOf, Text.Lines;
    var i := Find(field, '\n');
    var line := prefix + field[..i];
    OneKind(line);
    if i == |field| {
      assert field[..i] == field;
    } else {
      var rest := field[i + 1..] + "\n";
      assert prefix + field + "\n" == (line + "\n") + rest;
      TextAppend(line + "\n", rest);
    }
  }

  lemma DirectiveKinds(k: string, value: string)
    requires PlainName(k)
    ensures TextKinds(Directive(k, value)) == [Entry(NameOf(k))] + Continuation(value)
  {
    hide KindOf, Text.Lines, NameOf, Continuation;
    var v := value[..Find(value, '\n')];
    assert '\n' !in k + " = ";
    FieldKinds(k + " = ", value);
    DirectiveKind(k, v);
  }

  lemma TrimComment(text: string)
    ensures Trim("# " + text) == "#" + TrimEnd(" " + text)
  {
    TrimEndKeeps("#", " " + text);
    assert "# " + text == "#" + (" " + text);
    assert ("#" + TrimEnd(" " + text))[0] == '#';
  }

  lemma CommentKinds(name: string)
    ensures TextKinds("# " + name + "\n") == [Blank] + Continuation(name)
  {
    hide Text.Lines, Text.Trim, Continuation, NameOf, Text.TrimEnd;
    assert '\n' !in "# ";
    FieldKinds("# ", name);
    TrimComment(name[..Find(name, '\n')]);
  }

  /** A field whose continuation lines are admitted in a [Peer] section and leave it a [Peer] section. */
  predicate Clean(field: string, forbid: bool) {
    var ks := Continuation(field);
    AcceptedFrom(Peer, ks, forbid) && SectionFrom(Peer, ks, |ks|) == Peer
  }

  predicate CleanPeer(p: Node, forbid: bool)
    requires p.publicKey.Some?
  {
    Clean(p.name, forbid) && Clean(p.publicKey.value, forbid) && Clean(p.endpoint, forbid)
  }

  const PE := Entry(PeerName)

  function BlockKinds(p: Node, keepalive: nat): seq<Kind>
    requires p.publicKey.Some?
  {
    [Blank, Head(Peer)] + ([Blank] + Continuation(p.name) + ([PE] + Continuation(p.publicKey.value)
    + ([PE] + Continuation(p.endpoint) + (if keepalive > 0 then [PE, PE] else [PE]))))
  }

  lemma PeerNames()
    ensures PlainName("PublicKey") && NameOf("PublicKey") == PeerName
    ensures PlainName("Endpoint") && NameOf("Endpoint") == PeerName
    ensures PlainName("AllowedIPs") && NameOf("AllowedIPs") == PeerName
    ensures PlainName("PersistentKeepalive") && NameOf("PersistentKeepalive") == PeerName
  {
    hide PlainName, NameOf;
    KeyNames();
    AddressNames();
  }

  lemma KeyNames()
    ensures PlainName("PublicKey") && NameOf("PublicKey") == PeerName
    ensures PlainName("Endpoint") && NameOf("Endpoint") == PeerName
  {
  }

  lemma AddressNames()
    ensures PlainName("AllowedIPs") && NameOf("AllowedIPs") == PeerName
    ensures PlainName("PersistentKeepalive") && NameOf("PersistentKeepalive") == PeerName
  {
  }

  lemma NoContinuation(field: string)
    requires '\n' !in field
    ensures Continuation(field) == []
  {
    assert forall j | 0 <= j < |field| :: field[j] != '\n';
    assert Find(field, '\n') == |field|;
  }

  lemma QuadIsPlain(ip: nat)
    ensures '\n' !in DottedQuad(ip) + "/32"
  {
    hide Text.Decimal;
  }

  lemma PlainDirective(k: string, value: string)
    requires PlainName(k) && '\n' !in value
    ensures TextKinds(Directive(k, value)) == [Entry(NameOf(k))]
  {
    hide TextKinds, NameOf, Continuation;
    DirectiveKinds(k, value);
    NoContinuation(value);
  }

  lemma TailKinds(p: Node, keepalive: nat)
    ensures TextKinds(Directive("AllowedIPs", DottedQuad(p.ip) + "/32") + KeepaliveLine(keepalive))
      == if keepalive > 0 then [PE, PE] else [PE]
  {
    hide TextKinds, NameOf, PlainName, DottedQuad, Text.Decimal;
    PeerNames();
    QuadIsPlain(p.ip);
    var a := Directive("AllowedIPs", DottedQuad(p.ip) + "/32");
    PlainDirective("AllowedIPs", DottedQuad(p.ip) + "/32");
    TextAppend(a, KeepaliveLine(keepalive));
    if keepalive > 0 {
      PlainDirective("PersistentKeepalive", Decimal(keepalive));
    } else {
      EmptyText();
    }
  }

  lemma EmptyText()
    ensures TextKinds("") == []
  {
  }

  lemma HeaderKind(t: string)
    requires t == "[Peer]" || t == "[Interface]"
    ensures TextKinds(t + "\n") == [Head(if t == "[Peer]" then Peer else Interface)]
  {
    hide Text.Lines, Text.Trim, NameOf;
    TrimSame(t);
    assert '\n' !in t;
    OneKind(t);
  }

  lemma BlankKind()
    ensures TextKinds("\n") == [Blank]
  {
    hide Text.Lines, NameOf;
    OneKind("");
    assert "" + "\n" == "\n";
  }

  lemma HeaderKinds()
    ensures TextKinds("\n") == [Blank]
    ensures TextKinds("[Peer]\n") == [Head(Peer)]
    ensures TextKinds("[Interface]\n") == [Head(Interface)]
  {
    hide TextKinds;
    BlankKind();
    HeaderKind("[Peer]");
    HeaderKind("[Interface]");
    assert "[Peer]" + "\n" == "[Peer]\n" && "[Interface]" + "\n" == "[Interface]\n";
  }

  lemma BlockText(p: Node, keepalive: nat)
    requires p.publicKey.Some?
    ensures TextKinds(PeerBlock(p, keepalive)) == BlockKinds(p, keepalive)
  {
    hide TextKinds, NameOf, PlainName, DottedQuad, Text.Decimal, Continuation, KeepaliveLine;
    PeerNames();
    HeaderKinds();
    var t4 := Directive("AllowedIPs", DottedQuad(p.ip) + "/32") + KeepaliveLine(keepalive);
    var d3 := Directive("Endpoint", p.endpoint);
    var d2 := Directive("PublicKey", p.publicKey.value);
    var d1 := "# " + p.name + "\n";
    TailKinds(p, keepalive);
    DirectiveKinds("Endpoint", p.endpoint);
    DirectiveKinds("PublicKey", p.publicKey.value);
    CommentKinds(p.name);
    TextAppend(d3, t4);
    TextAppend(d2, d3 + t4);
    TextAppend(d1, d2 + (d3 + t4));
    TextAppend("[Peer]\n", d1 + (d2 + (d3 + t4)));
    TextAppend("\n", "[Peer]\n" + (d1 + (d2 + (d3 + t4))));
  }

  /** One printed line and its continuation, with a [Peer] directive printed next. */
  lemma Chunk(first: Kind, cont: seq<Kind>, rest: seq<Kind>, forbid: bool)
    requires first == Blank || first == PE
    requires rest != [] && rest[0] == PE
    ensures AcceptedFrom(Peer, [first] + cont + rest, forbid) <==>
            && AcceptedFrom(Peer, cont, forbid)
            && SectionFrom(Peer, cont, |cont|) == Peer
            && AcceptedFrom(Peer, rest, forbid)
    ensures SectionFrom(Peer, cont, |cont|) == Peer ==>
            SectionFrom(Peer, [first] + cont + rest, 1 + |cont| + |rest|) == SectionFrom(Peer, rest, |rest|)
  {
    hide AcceptedFrom, SectionFrom;
    var one := [first];
    var sec := SectionFrom(Peer, cont, |cont|);
    assert one + cont + rest == one + (cont + rest);
    OneAccepted(first, forbid);
    AcceptedAppend(Peer, one, cont + rest, forbid);
    AcceptedAppend(Peer, cont, rest, forbid);
    NeedsPeer(sec, rest, forbid);
    SectionSuffix(Peer, one, cont + rest, |cont + rest|);
    SectionSuffix(Peer, cont, rest, |rest|);
  }

  lemma OneAccepted(first: Kind, forbid: bool)
    requires first == Blank || first == PE
    ensures AcceptedFrom(Peer, [first], forbid) && SectionFrom(Peer, [first], 1) == Peer
  {
    assert SectionFrom(Peer, [first], 0) == Peer;
  }

  lemma NeedsPeer(sec: Section, ks: seq<Kind>, forbid: bool)
    requires ks != [] && ks[0] == PE
    ensures AcceptedFrom(sec, ks, forbid) ==> sec == Peer
  {
    assert SectionFrom(sec, ks, 0) == sec;
  }

  /** A block is accepted, whatever stands before it, exactly when its three fields are clean. */
  lemma BlockAccepted(sec: Section, p: Node, keepalive: nat, forbid: bool)
    requires p.publicKey.Some?
    ensures AcceptedFrom(sec, BlockKinds(p, keepalive), forbid) <==> CleanPeer(p, forbid)
  {
    hide Continuation, AcceptedFrom;
    var tail := if keepalive > 0 then [PE, PE] else [PE];
    var k3 := [PE] + Continuation(p.endpoint) + tail;
    var k2 := [PE] + Continuation(p.publicKey.value) + k3;
    var k1 := [Blank] + Continuation(p.name) + k2;
    TailAccepted(tail, forbid);
    Chunk(PE, Continuation(p.endpoint), tail, forbid);
    Chunk(PE, Continuation(p.publicKey.value), k3, forbid);
    Chunk(Blank, Continuation(p.name), k2, forbid);
    HeadAccepted(sec, forbid);
    AcceptedAppend(sec, [Blank, Head(Peer)], k1, forbid);
  }

  lemma TailAccepted(tail: seq<Kind>, forbid: bool)
    requires forall i | 0 <= i < |tail| :: tail[i] == PE
    ensures AcceptedFrom(Peer, tail, forbid)
  {
    forall i | 0 <= i < |tail| ensures SectionFrom(Peer, tail, i) == Peer { SectionOfTail(tail, i); }
  }

  lemma {:induction false} SectionOfTail(tail: seq<Kind>, i: nat)
    requires i <= |tail| && forall j | 0 <= j < |tail| :: tail[j] == PE
    ensures SectionFrom(Peer, tail, i) == Peer
  {
    if i > 0 { SectionOfTail(tail, i - 1); }
  }

  lemma HeadAccepted(sec: Section, forbid: bool)
    ensures AcceptedFrom(sec, [Blank, Head(Peer)], forbid)
    ensures SectionFrom(sec, [Blank, Head(Peer)], 2) == Peer
  {
  }

  lemma DirectiveEnded(name: string, value: string, rest: string)
    requires Ended(rest)
    ensures Ended(Directive(name, value) + rest)
  {
  }

  lemma BlockEnded(p: Node, keepalive: nat)
    requires p.publicKey.Some?
    ensures Ended(PeerBlock(p, keepalive))
  {
    hide DottedQuad, Text.Decimal, Directive;
    assert Ended(KeepaliveLine(keepalive)) by {
      DirectiveEnded("PersistentKeepalive", Decimal(keepalive), "");
      assert Directive("PersistentKeepalive", Decimal(keepalive)) + ""
          == Directive("PersistentKeepalive", Decimal(keepalive));
    }
    var d4 := Directive("AllowedIPs", DottedQuad(p.ip) + "/32") + KeepaliveLine(keepalive);
    DirectiveEnded("AllowedIPs", DottedQuad(p.ip) + "/32", KeepaliveLine(keepalive));
    DirectiveEnded("Endpoint", p.endpoint, d4);
    DirectiveEnded("PublicKey", p.publicKey.value, Directive("Endpoint", p.endpoint) + d4);
  }

  lemma {:induction false} BlocksEnded(me: Node, peers: seq<Node>, keepalive: nat)
    ensures Ended(PeerBlocks(me, peers, keepalive))
  {
    hide PeerBlock;
    if peers != [] {
      var n := |peers| - 1;
      BlocksEnded(me, peers[..n], keepalive);
      if Listed(me, peers[n]) { BlockEnded(peers[n], keepalive); }
    }
  }

  lemma {:induction false} BlocksAccepted(sec: Section, me: Node, peers: seq<Node>, keepalive: nat, forbid: bool)
    ensures AcceptedFrom(sec, TextKinds(PeerBlocks(me, peers, keepalive)), forbid) <==>
            forall i | 0 <= i < |peers| && Listed(me, peers[i]) :: CleanPeer(peers[i], forbid)
  {
    hide TextKinds, PeerBlock, AcceptedFrom, CleanPeer, BlockKinds;
    if peers == [] {
      EmptyText();
      TailAccepted([], forbid);
      NothingAccepted(sec, forbid);
    } else {
      var n := |peers| - 1;
      var before := peers[..n];
      var a := PeerBlocks(me, before, keepalive);
      BlocksAccepted(sec, me, before, keepalive, forbid);
      assert forall i | 0 <= i < n :: peers[i] == before[i];
      if Listed(me, peers[n]) {
        var b := PeerBlock(peers[n], keepalive);
        BlocksEnded(me, before, keepalive);
        TextAppend(a, b);
        BlockText(peers[n], keepalive);
        var ks := TextKinds(a);
        AcceptedAppend(sec, ks, TextKinds(b), forbid);
        BlockAccepted(SectionFrom(sec, ks, |ks|), peers[n], keepalive, forbid);
      } else {
        assert a + "" == a;
      }
    }
  }

  lemma NothingAccepted(sec: Section, forbid: bool)
    ensures AcceptedFrom(sec, [], forbid)
  {
  }

  lemma InterfaceKinds(me: Node, listenPort: nat)
    ensures TextKinds(InterfaceBlock(me, listenPort)) == [Head(Interface), Entry(InterfaceName), Entry(InterfaceName)]
  {
    hide TextKinds, DottedQuad, Text.Decimal, NameOf, PlainName;
    HeaderKinds();
    InterfaceNames();
    QuadIsPlain(me.ip);
    var a, b := Directive("Address", DottedQuad(me.ip) + "/32"), Directive("ListenPort", Decimal(listenPort));
    PlainDirective("Address", DottedQuad(me.ip) + "/32");
    PlainDirective("ListenPort", Decimal(listenPort));
    TextAppend(a, b);
    TextAppend("[Interface]\n", a + b);
  }

  lemma InterfaceNames()
    ensures PlainName("Address") && NameOf("Address") == InterfaceName
    ensures PlainName("ListenPort") && NameOf("ListenPort") == InterfaceName
  {
  }

  /**
   * The renderer's documentation promises that the helper always accepts its output. It does
   * exactly when every listed peer's name, key and endpoint is clean.
   */
  lemma RenderAcceptedIff(me: Node, peers: seq<Node>, listenPort: nat, keepalive: nat, forbid: bool)
    ensures AcceptedText(Rendered(me, peers, listenPort, keepalive), forbid) <==>
            forall i | 0 <= i < |peers| && Listed(me, peers[i]) :: CleanPeer(peers[i], forbid)
  {
    hide TextKinds, CleanPeer, InterfaceBlock, PeerBlocks, AcceptedFrom;
    var head := [Head(Interface), Entry(InterfaceName), Entry(InterfaceName)];
    InterfaceKinds(me, listenPort);
    InterfaceEnded(me, listenPort);
    TextAppend(InterfaceBlock(me, listenPort), PeerBlocks(me, peers, keepalive));
    InterfaceAccepted(forbid);
    AcceptedAppend(NoSection, head, TextKinds(PeerBlocks(me, peers, keepalive)), forbid);
    BlocksAccepted(Interface, me, peers, keepalive, forbid);
    TextIs(Rendered(me, peers, listenPort, keepalive), forbid);
  }

  lemma TextIs(s: string, forbid: bool)
    ensures AcceptedText(s, forbid) <==> AcceptedFrom(NoSection, TextKinds(s), forbid)
  {
  }

  lemma InterfaceEnded(me: Node, listenPort: nat)
    ensures Ended(InterfaceBlock(me, listenPort))
  {
  }

  lemma InterfaceAccepted(forbid: bool)
    ensures var head := [Head(Interface), Entry(InterfaceName), Entry(InterfaceName)];
            AcceptedFrom(NoSection, head, forbid) && SectionFrom(NoSection, head, 3) == Interface
  {
    var head := [Head(Interface), Entry(InterfaceName), Entry(InterfaceName)];
    assert SectionFrom(NoSection, head, 1) == Interface;
    assert SectionFrom(NoSection, head, 2) == Interface;
  }

  /** The check a caller can make: fields without a newline are always clean. */
  lemma NewlineFreeIsClean(p: Node, forbid: bool)
    requires p.publicKey.Some?
    requires '\n' !in p.name && '\n' !in p.publicKey.value && '\n' !in p.endpoint
    ensures CleanPeer(p, forbid)
  {
    hide Continuation;
    NoContinuation(p.name);
    NoContinuation(p.publicKey.value);
    NoContinuation(p.endpoint);
  }

  /** A server name whose second line is neither blank, a header nor a directive spoils the file. */
  lemma NameCanSpoilRender(me: Node, p: Node, listenPort: nat, keepalive: nat, forbid: bool, a: string, b: string)
    requires Listed(me, p) && p.name == a + "\n" + b
    requires '\n' !in a && '\n' !in b && (KindOf(b).Junk? || KindOf(b).BadHead?)
    ensures !AcceptedText(Rendered(me, [p], listenPort, keepalive), forbid)
  {
    hide KindOf, Rendered, AcceptedText;
    RenderAcceptedIff(me, [p], listenPort, keepalive, forbid);
    assert p.name[|a|] == '\n' && forall j | 0 <= j < |a| :: p.name[j] == a[j] && a[j] != '\n';
    FindFirst(p.name, '\n', |a|);
    assert p.name[|a| + 1..] == b;
    OneKind(b);
    assert !Admitted(SectionFrom(Peer, [KindOf(b)], 0), [KindOf(b)][0], forbid);
    assert !Clean(p.name, forbid);
    assert Listed(me, [p][0]) && !CleanPeer([p][0], forbid);
  }

  /**
   * From the core's rows to the node's disk: with newline-free fields and a newline-free key, the
   * helper accepts the rendered text, finds its [Interface] header, and accepts the injected result.
   */
  lemma ProvisionedConfigIsWritable(me: Node, peers: seq<Node>, listenPort: nat, keepalive: nat, key: string)
    requires '\n' !in key
    requires forall i | 0 <= i < |peers| && peers[i].publicKey.Some? ::
               '\n' !in peers[i].name && '\n' !in peers[i].publicKey.value && '\n' !in peers[i].endpoint
    ensures var text := Rendered(me, peers, listenPort, keepalive);
            && AcceptedText(text, true)
            && InjectedText(text, key).Some?
            && AcceptedText(InjectedText(text, key).value, false)
  {
    hide Rendered, AcceptedText, TextKinds, InjectedText, CleanPeer;
    var text := Rendered(me, peers, listenPort, keepalive);
    forall i | 0 <= i < |peers| && Listed(me, peers[i]) ensures CleanPeer(peers[i], true) {
      NewlineFreeIsClean(peers[i], true);
    }
    RenderAcceptedIff(me, peers, listenPort, keepalive, true);
    RenderHasInterface(me, peers, listenPort, keepalive);
    InjectionNeedsHeader(text, key);
    InjectionKeepsVerdict(text, key);
  }

  lemma RenderHasInterface(me: Node, peers: seq<Node>, listenPort: nat, keepalive: nat)
    ensures FirstInterface(Kinds(Lines(Rendered(me, peers, listenPort, keepalive))))
            < |Lines(Rendered(me, peers, listenPort, keepalive))|
  {
    hide Text.Lines, KindOf, InterfaceBlock, PeerBlocks;
    InterfaceKinds(me, listenPort);
    InterfaceEnded(me, listenPort);
    TextAppend(InterfaceBlock(me, listenPort), PeerBlocks(me, peers, keepalive));
    assert TextKinds(Rendered(me, peers, listenPort, keepalive))[0] == Head(Interface);
  }
}
