/**
 * What the configurations pushed to the nodes of a mesh say, read back from their text: who is
 * listed, under which key, address and endpoint (network/wireguard.rs, network/address.rs).
 */
module ConfigRead {
  import opened Text
  import opened WgRender
  import opened WgRead
  import opened ConfigurePlan
  import Mesh

  // ----- reading addresses and endpoints --------------------------------------------------

  predicate AllDigits(s: string) { s != "" && forall i | 0 <= i < |s| :: IsDigit(s[i]) }

  /** The parts between the separators. */
  function Parts(s: string, c: char): (r: seq<string>)
    ensures r != []
  {
    var i := Find(s, c);
    if i == |s| then [s] else [s[..i]] + Parts(s[i + 1..], c)
  }

  /** An IPv4 address in dotted form: four decimal bytes, the first one highest. */
  function ReadAddress(s: string): Option<nat> {
    var p := Parts(s, '.');
    if |p| == 4 && forall i | 0 <= i < 4 :: AllDigits(p[i]) && DigitsValue(p[i]) < 256
    then Some(DigitsValue(p[0]) * 0x100_0000 + DigitsValue(p[1]) * 0x1_0000 + DigitsValue(p[2]) * 0x100
              + DigitsValue(p[3]))
    else None
  }

  /** A single host in the notation of routes. */
  function ReadHostRoute(s: string): Option<nat> {
    if |s| >= 3 && s[|s| - 3..] == "/32" then ReadAddress(s[..|s| - 3]) else None
  }

  datatype Endpoint = Endpoint(host: string, port: nat)

  /** `host:port`; a host with colons stands in brackets, as in section 3.2.2 of RFC 3986. */
  function ReadEndpoint(s: string): Option<Endpoint> {
    if s != "" && s[0] == '[' then
      var i := Find(s, ']');
      if i + 2 < |s| && ':' in s[1..i] && s[i + 1] == ':' && AllDigits(s[i + 2..])
      then Some(Endpoint(s[1..i], DigitsValue(s[i + 2..]))) else None
    else
      var i := Find(s, ':');
      if i + 1 < |s| && AllDigits(s[i + 1..]) then Some(Endpoint(s[..i], DigitsValue(s[i + 1..]))) else None
  }

  lemma DecimalIsRead(n: nat)
    ensures AllDigits(Decimal(n)) && DigitsValue(Decimal(n)) == n
    ensures forall i | 0 <= i < |Decimal(n)| :: Decimal(n)[i] != '.' && Decimal(n)[i] != ':' && Decimal(n)[i] != ']'
  {
    DecimalReads(n);
  }

  lemma PartsCons(first: string, rest: string, c: char)
    requires c !in first
    ensures Parts(first + [c] + rest, c) == [first] + Parts(rest, c)
    ensures Parts(first, c) == [first]
  {
    var s := first + [c] + rest;
    assert s[|first|] == c && forall i | 0 <= i < |first| :: s[i] == first[i] && first[i] != c;
    assert Find(s, c) == |first|;
    assert s[..|first|] == first && s[|first| + 1..] == rest;
    assert Find(first, c) == |first|;
  }

  /** Printed addresses are read back, as 32-bit numbers. */
  lemma AddressReads(ip: nat)
    ensures ReadHostRoute(DottedQuad(ip) + "/32") == Some(ip % 0x1_0000_0000)
  {
    hide Text.Decimal, Text.DigitsValue, Parts;
    var a, b, c, d := ip / 0x100_0000 % 0x100, ip / 0x1_0000 % 0x100, ip / 0x100 % 0x100, ip % 0x100;
    var q := DottedQuad(ip);
    DecimalIsRead(a);
    DecimalIsRead(b);
    DecimalIsRead(c);
    DecimalIsRead(d);
    var r2 := Decimal(c) + "." + Decimal(d);
    var r1 := Decimal(b) + "." + r2;
    assert q == Decimal(a) + "." + r1;
    PartsCons(Decimal(a), r1, '.');
    PartsCons(Decimal(b), r2, '.');
    PartsCons(Decimal(c), Decimal(d), '.');
    PartsCons(Decimal(d), "", '.');
    assert Parts(q, '.') == [Decimal(a), Decimal(b), Decimal(c), Decimal(d)];
    BytesOf(ip);
    var s := q + "/32";
    assert s[|s| - 3..] == "/32" && s[..|s| - 3] == q;
  }

  lemma BytesOf(ip: nat)
    ensures ip / 0x100_0000 % 0x100 * 0x100_0000 + ip / 0x1_0000 % 0x100 * 0x1_0000 + ip / 0x100 % 0x100 * 0x100
            + ip % 0x100 == ip % 0x1_0000_0000
  {
    var x, y, z := ip / 0x100, ip / 0x1_0000, ip / 0x100_0000;
    assert ip == x * 0x100 + ip % 0x100;
    assert y == x / 0x100 && x == y * 0x100 + x % 0x100;
    assert z == y / 0x100 && y == z * 0x100 + y % 0x100;
    assert z == ip / 0x1_0000_0000 * 0x100 + z % 0x100;
  }

  predicate DoubleColon(s: string) { exists i | 0 <= i < |s| - 1 :: s[i] == ':' == s[i + 1] }

  predicate TwoColons(s: string) { exists i, j | 0 <= i < j < |s| :: s[i] == ':' == s[j] }

  /** The host is written so that the endpoint reads back as this host and port. */
  predicate Readable(host: string) {
    if DoubleColon(host) || (TwoColons(host) && '.' !in host) then ']' !in host
    else ':' !in host && (host == "" || host[0] != '[')
  }

  /**
   * An endpoint reads back as its host and port exactly when the host is taken for an IPv6 literal,
   * or has no colon; and brackets of its own spoil it.
   */
  lemma AuthorityReadsIff(host: string, port: nat)
    ensures ReadEndpoint(Authority(host, port)) == Some(Endpoint(host, port)) <==> Readable(host)
  {
    hide Text.Decimal, Text.DigitsValue, Colons, TwoColons;
    var d, t := Decimal(port), Authority(host, port);
    DecimalIsRead(port);
    TwoColonsCounted(host);
    if IsIpv6Literal(host) {
      BracketsRead(host, port);
    } else {
      assert t == host + ":" + d;
      PlainReads(host, port);
    }
  }

  lemma {:induction false} ColonIsThere(s: string)
    ensures Colons(s) > 0 <==> ':' in s
  {
    if s != "" {
      ColonIsThere(s[1..]);
      assert ':' in s <==> s[0] == ':' || ':' in s[1..];
    }
  }

  lemma {:induction false} TwoColonsCounted(s: string)
    ensures Colons(s) >= 2 <==> TwoColons(s)
  {
    hide TwoColons;
    if s == "" {
      NoColons();
    } else {
      TwoColonsCounted(s[1..]);
      ColonIsThere(s[1..]);
      TwoColonsSplit(s);
    }
  }

  lemma NoColons()
    ensures !TwoColons("")
  {
  }

  lemma TwoColonsSplit(s: string)
    requires s != ""
    ensures TwoColons(s) <==> TwoColons(s[1..]) || (s[0] == ':' && ':' in s[1..])
  {
    var t := s[1..];
    assert forall i | 0 < i < |s| :: s[i] == t[i - 1];
    if TwoColons(t) {
      var i, j :| 0 <= i < j < |t| && t[i] == ':' == t[j];
      assert s[i + 1] == ':' == s[j + 1];
    }
    if s[0] == ':' && ':' in t {
      var j :| 0 <= j < |t| && t[j] == ':';
      assert s[0] == ':' == s[j + 1];
    }
    if TwoColons(s) {
      var i, j :| 0 <= i < j < |s| && s[i] == ':' == s[j];
      if i > 0 { assert t[i - 1] == ':' == t[j - 1]; }
    }
  }

  lemma BracketsRead(host: string, port: nat)
    requires IsIpv6Literal(host)
    ensures ReadEndpoint("[" + host + "]" + ":" + Decimal(port)) == Some(Endpoint(host, port)) <==> ']' !in host
  {
    hide Text.Decimal, Text.DigitsValue;
    var d := Decimal(port);
    var t := "[" + host + "]" + ":" + d;
    DecimalIsRead(port);
    ColonIsThere(host);
    var i := Find(t, ']');
    assert t[|host| + 1] == ']' && forall j | 0 <= j < |host| :: t[j + 1] == host[j];
    if ']' in host {
      var j :| 0 <= j < |host| && host[j] == ']';
      assert t[j + 1] == ']';
      assert i <= |host|;
      assert |t[1..i]| < |host|;
    } else {
      assert i == |host| + 1;
      assert t[1..i] == host && t[i + 2..] == d;
    }
  }

  lemma PlainReads(host: string, port: nat)
    ensures ReadEndpoint(host + ":" + Decimal(port)) == Some(Endpoint(host, port)) <==>
            ':' !in host && (host == "" || host[0] != '[')
  {
    hide Text.Decimal, Text.DigitsValue;
    var d := Decimal(port);
    var t := host + ":" + d;
    DecimalIsRead(port);
    assert t[|host|] == ':' && forall j | 0 <= j < |host| :: t[j] == host[j];
    assert forall j | |host| < j < |t| :: t[j] == d[j - |host| - 1];
    if host != "" && host[0] == '[' {
      var i := Find(t, ']');
      assert i < |t| ==> i < |host|;
      if i < |t| { assert |t[1..i]| < |host|; }
    } else {
      var i := Find(t, ':');
      if ':' in host {
        var j :| 0 <= j < |host| && host[j] == ':';
        assert t[j] == ':' && i < |host|;
        assert |t[..i]| < |host|;
      } else {
        assert i == |host|;
        assert t[..i] == host && t[i + 1..] == d;
      }
    }
  }

  /** The family that fails: colons and a dot but no double colon, so that no brackets are put around it. */
  lemma TailedAddressIsLost(host: string, port: nat)
    requires ':' in host && '.' in host && !DoubleColon(host) && host[0] != '['
    ensures ReadEndpoint(Authority(host, port)).None?
  {
    hide Text.Decimal, Text.DigitsValue, Colons;
    var d := Decimal(port);
    var t := host + ":" + d;
    assert !IsIpv6Literal(host);
    assert Authority(host, port) == t;
    var i := Find(t, ':');
    var j :| 0 <= j < |host| && host[j] == ':';
    assert t[j] == ':' && t[|host|] == ':' && i <= j;
    assert t[i + 1..][|host| - i - 1] == ':';
  }

  /** One of its members is a valid IPv6 address: one with an IPv4 tail, written in full. */
  lemma MappedAddressIsLost()
    ensures var host := "0:0:0:0:0:ffff:192.0.2.1";
            ':' in host && '.' in host && !DoubleColon(host) && host[0] != '['
  {
    var host := "0:0:0:0:0:ffff:192.0.2.1";
    assert host[1] == ':' && host[18] == '.';
  }

  // ----- reading a file -------------------------------------------------------------------

  /** One [Peer] section; a missing keepalive is 0. */
  datatype PeerSeen = PeerSeen(key: string, endpoint: string, ip: nat, keepalive: nat)

  datatype FileSeen = FileSeen(ip: nat, listenPort: nat, peers: seq<PeerSeen>)

  predicate Sets(item: Item, key: string) { item.Setting? && item.key == key }

  function ReadPeers(items: seq<Item>): Option<seq<PeerSeen>> {
    if items == [] then Some([])
    else if |items| >= 4 && items[0] == Header("Peer") && Sets(items[1], "PublicKey") && Sets(items[2], "Endpoint")
            && Sets(items[3], "AllowedIPs") && ReadHostRoute(items[3].value).Some? then
      var alive := |items| >= 5 && Sets(items[4], "PersistentKeepalive") && AllDigits(items[4].value);
      var rest := ReadPeers(items[if alive then 5 else 4..]);
      if rest.None? then None
      else Some([PeerSeen(items[1].value, items[2].value, ReadHostRoute(items[3].value).value,
                          if alive then DigitsValue(items[4].value) else 0)] + rest.value)
    else None
  }

  /** The interface and its peers, None when the text says anything else. */
  function ReadFile(text: string): Option<FileSeen> {
    var items := TextItems(text);
    if |items| >= 3 && items[0] == Header("Interface") && Sets(items[1], "Address") && Sets(items[2], "ListenPort")
       && ReadHostRoute(items[1].value).Some? && AllDigits(items[2].value) && ReadPeers(items[3..]).Some?
    then Some(FileSeen(ReadHostRoute(items[1].value).value, DigitsValue(items[2].value), ReadPeers(items[3..]).value))
    else None
  }

  // ----- what a rendered file shows -------------------------------------------------------

  function Seen(p: Node, keepalive: nat): PeerSeen
    requires p.publicKey.Some?
  {
    PeerSeen(Trim(p.publicKey.value), Trim(p.endpoint), p.ip % 0x1_0000_0000, keepalive)
  }

  function ListedNodes(me: Node, nodes: seq<Node>): (r: seq<Node>)
    ensures forall i | 0 <= i < |r| :: Listed(me, r[i])
  {
    if nodes == [] then []
    else
      var n := |nodes| - 1;
      ListedNodes(me, nodes[..n]) + if Listed(me, nodes[n]) then [nodes[n]] else []
  }

  function AllSeen(nodes: seq<Node>, keepalive: nat): (r: seq<PeerSeen>)
    requires forall i | 0 <= i < |nodes| :: nodes[i].publicKey.Some?
    ensures |r| == |nodes| && forall i | 0 <= i < |r| :: r[i] == Seen(nodes[i], keepalive)
  {
    seq(|nodes|, i requires 0 <= i < |nodes| => Seen(nodes[i], keepalive))
  }

  lemma SectionReads(p: Node, keepalive: nat, rest: seq<Item>)
    requires p.publicKey.Some? && ReadPeers(rest).Some?
    ensures ReadPeers(PeerItems(p, keepalive) + rest) == Some([Seen(p, keepalive)] + ReadPeers(rest).value)
  {
    hide Text.Trim, Text.Decimal, Text.DigitsValue, DottedQuad, ReadHostRoute;
    var items := PeerItems(p, keepalive) + rest;
    AddressReads(p.ip);
    assert items[0] == Header("Peer") && items[1] == Setting("PublicKey", Trim(p.publicKey.value));
    assert items[2] == Setting("Endpoint", Trim(p.endpoint));
    assert items[3] == Setting("AllowedIPs", DottedQuad(p.ip) + "/32");
    if keepalive > 0 {
      DecimalReads(keepalive);
      assert items[4] == Setting("PersistentKeepalive", Decimal(keepalive)) && items[5..] == rest;
    } else {
      assert items[4..] == rest;
      assert rest != [] ==> items[4] == rest[0] && rest[0] == Header("Peer");
    }
  }

  lemma {:induction false} SectionsRead(me: Node, nodes: seq<Node>, keepalive: nat, rest: seq<Item>)
    requires ReadPeers(rest).Some?
    ensures ReadPeers(PeersItems(me, nodes, keepalive) + rest)
         == Some(AllSeen(ListedNodes(me, nodes), keepalive) + ReadPeers(rest).value)
    decreases |nodes|
  {
    hide PeerItems, Seen, ReadPeers;
    if nodes == [] {
      assert PeersItems(me, nodes, keepalive) + rest == rest;
      assert AllSeen([], keepalive) + ReadPeers(rest).value == ReadPeers(rest).value;
    } else {
      var n := |nodes| - 1;
      var before, last := nodes[..n], nodes[n];
      var a := PeersItems(me, before, keepalive);
      if Listed(me, last) {
        SectionReads(last, keepalive, rest);
        SectionsRead(me, before, keepalive, PeerItems(last, keepalive) + rest);
        assert a + PeerItems(last, keepalive) + rest == a + (PeerItems(last, keepalive) + rest);
        SeenSnoc(ListedNodes(me, before), last, keepalive);
        assert ListedNodes(me, nodes) == ListedNodes(me, before) + [last];
        var x, y := AllSeen(ListedNodes(me, before), keepalive), ReadPeers(rest).value;
        assert x + [Seen(last, keepalive)] + y == x + ([Seen(last, keepalive)] + y);
      } else {
        SectionsRead(me, before, keepalive, rest);
        assert a + [] == a && ListedNodes(me, before) + [] == ListedNodes(me, before);
      }
    }
  }

  lemma SeenSnoc(nodes: seq<Node>, last: Node, keepalive: nat)
    requires last.publicKey.Some? && forall i | 0 <= i < |nodes| :: nodes[i].publicKey.Some?
    ensures AllSeen(nodes + [last], keepalive) == AllSeen(nodes, keepalive) + [Seen(last, keepalive)]
  {
  }

  predicate NewlineFree(p: Node) {
    '\n' !in p.name && '\n' !in p.endpoint && (p.publicKey.Some? ==> '\n' !in p.publicKey.value)
  }

  lemma NewlineFreeIsFaithful(p: Node)
    requires NewlineFree(p) && p.publicKey.Some?
    ensures Faithful(p)
  {
    hide TextItems, Text.Find;
    EndsAtNewline(p.name);
    EndsAtNewline(p.publicKey.value);
    EndsAtNewline(p.endpoint);
  }

  lemma EndsAtNewline(s: string)
    requires '\n' !in s
    ensures Find(s, '\n') == |s|
  {
  }

  /** A rendered file with newline-free fields reads as its interface and the listed nodes, in order. */
  lemma RenderedReads(me: Node, nodes: seq<Node>, listenPort: nat, keepalive: nat)
    requires forall i | 0 <= i < |nodes| :: NewlineFree(nodes[i])
    ensures ReadFile(Rendered(me, nodes, listenPort, keepalive))
         == Some(FileSeen(me.ip % 0x1_0000_0000, listenPort, AllSeen(ListedNodes(me, nodes), keepalive)))
  {
    hide TextItems, Rendered, PeersItems, ReadPeers, Text.Decimal, Text.DigitsValue, DottedQuad, ReadHostRoute,
      Faithful, NewlineFree, ListedNodes, AllSeen;
    forall i | 0 <= i < |nodes| && Listed(me, nodes[i]) ensures Faithful(nodes[i]) { NewlineFreeIsFaithful(nodes[i]); }
    RenderReadsBackIff(me, nodes, listenPort, keepalive);
    var items := TextItems(Rendered(me, nodes, listenPort, keepalive));
    AddressReads(me.ip);
    DecimalIsRead(listenPort);
    NoSections();
    SectionsRead(me, nodes, keepalive, []);
    var p := PeersItems(me, nodes, keepalive);
    assert items == MeantItems(me, nodes, listenPort, keepalive);
    assert items[3..] == p && p + [] == p;
    var all := AllSeen(ListedNodes(me, nodes), keepalive);
    assert all + [] == all;
  }

  lemma NoSections()
    ensures ReadPeers([]) == Some([])
  {
  }

  // ----- what a node of the mesh is told --------------------------------------------------

  /** The section for a mesh node: its key, its address alone, and where to reach it. */
  predicate ShowsNode(seen: PeerSeen, row: Mesh.Row, keepalive: nat) {
    && row.key.Some? && seen.key == Trim(row.key.value)
    && seen.ip == row.ip % 0x1_0000_0000
    && seen.keepalive == keepalive
    && (Readable(row.host) && TrimStart(row.host) == row.host ==>
          ReadEndpoint(seen.endpoint) == Some(Endpoint(row.host, row.port)))
  }

  /** The nodes of paired cores that have a key, in order. */
  function KeyedElsewhere(nodes: seq<Node>, sid: ServerId): (r: seq<Node>)
    ensures forall i | 0 <= i < |r| :: r[i].publicKey.Some?
  {
    if nodes == [] then []
    else
      (if nodes[0].publicKey.Some? && nodes[0].serverId != sid then [nodes[0]] else [])
      + KeyedElsewhere(nodes[1..], sid)
  }

  predicate PlainFields(plan: Plan, rows: map<ServerId, Row>)
    requires Covers(plan, rows)
  {
    && (forall s | s in rows :: '\n' !in plan.names[s] && '\n' !in rows[s].host
                               && (rows[s].key.Some? ==> '\n' !in rows[s].key.value))
    && (forall i | 0 <= i < |plan.externals| :: NewlineFree(plan.externals[i]))
  }

  /**
   * The file for node number `m` of the mesh: its own address and the mesh's port, then one section
   * for every other node in order, then one for every keyed node of a paired core.
   */
  predicate ShowsMesh(text: string, plan: Plan, rows: map<ServerId, Row>, m: nat)
    requires Covers(plan, rows) && m < |plan.order|
  {
    var file, sid := ReadFile(text), plan.order[m];
    var own, paired := |plan.order| - 1, KeyedElsewhere(plan.externals, sid);
    && file.Some?
    && file.value.ip == rows[sid].ip % 0x1_0000_0000
    && file.value.listenPort == plan.cfg.listenPort
    && |file.value.peers| == own + |paired|
    && (forall i | 0 <= i < |plan.order| && i != m ::
          ShowsNode(file.value.peers[if i < m then i else i - 1], rows[plan.order[i]], plan.cfg.keepalive))
    && (forall j | 0 <= j < |paired| ::
          file.value.peers[own + j] == PeerSeen(Trim(paired[j].publicKey.value), Trim(paired[j].endpoint),
                                                paired[j].ip % 0x1_0000_0000, plan.cfg.keepalive))
  }

  lemma {:induction false} ListedAppend(me: Node, a: seq<Node>, b: seq<Node>)
    ensures ListedNodes(me, a + b) == ListedNodes(me, a) + ListedNodes(me, b)
    decreases |b|
  {
    hide Listed;
    if b == [] {
      assert a + b == a;
    } else {
      var n := |b| - 1;
      assert (a + b)[..|a + b| - 1] == a + b[..n];
      ListedAppend(me, a, b[..n]);
    }
  }

  lemma {:induction false} PairedAreListed(me: Node, nodes: seq<Node>)
    ensures ListedNodes(me, nodes) == KeyedElsewhere(nodes, me.serverId)
  {
    if nodes != [] {
      PairedAreListed(me, nodes[1..]);
      assert nodes == [nodes[0]] + nodes[1..];
      ListedAppend(me, [nodes[0]], nodes[1..]);
      assert ListedNodes(me, [nodes[0]]) == if Listed(me, nodes[0]) then [nodes[0]] else [] by {
        assert [nodes[0]][..0] == [];
      }
    }
  }

  lemma {:induction false} AllAreListed(me: Node, nodes: seq<Node>)
    requires forall i | 0 <= i < |nodes| :: Listed(me, nodes[i])
    ensures ListedNodes(me, nodes) == nodes
  {
    hide Listed;
    if nodes != [] {
      var n := |nodes| - 1;
      assert Listed(me, nodes[n]);
      AllAreListed(me, nodes[..n]);
      assert nodes == nodes[..n] + [nodes[n]];
    }
  }

  /** All but the node itself, whose own entry is left out. */
  lemma OthersAreListed(me: Node, own: seq<Node>, m: nat)
    requires m < |own| && own[m].serverId == me.serverId
    requires forall i | 0 <= i < |own| && i != m :: Listed(me, own[i])
    ensures ListedNodes(me, own) == own[..m] + own[m + 1..]
  {
    hide Listed;
    var self := [own[m]];
    assert own == own[..m] + self + own[m + 1..];
    ListedAppend(me, own[..m] + self, own[m + 1..]);
    ListedAppend(me, own[..m], self);
    AllAreListed(me, own[..m]);
    AllAreListed(me, own[m + 1..]);
    SelfIsLeftOut(me, own[m]);
    assert own[..m] + [] == own[..m];
  }

  lemma SelfIsLeftOut(me: Node, p: Node)
    requires p.serverId == me.serverId
    ensures ListedNodes(me, [p]) == []
  {
    assert [p][..0] == [];
  }

  lemma EndpointIsSeen(host: string, port: nat)
    requires Readable(host) && TrimStart(host) == host
    ensures ReadEndpoint(Trim(Authority(host, port))) == Some(Endpoint(host, port))
  {
    hide Text.Decimal, Text.TrimEnd, Readable, Text.DigitsValue, IsIpv6Literal, ReadEndpoint;
    AuthorityReadsIff(host, port);
    var t := Authority(host, port);
    var d := Decimal(port);
    DecimalIsRead(port);
    assert t[|t| - 1] == d[|d| - 1];
    assert !IsSpace(t[|t| - 1]) && !IsSpace(t[0]);
    TrimSame(t);
  }

  lemma AuthorityIsOneLine(host: string, port: nat)
    requires '\n' !in host
    ensures '\n' !in Authority(host, port)
  {
    hide Text.Decimal, IsIpv6Literal;
    DecimalIsRead(port);
  }

  lemma OwnNodes(plan: Plan, rows: map<ServerId, Row>) returns (own: seq<Node>)
    requires Covers(plan, rows)
    ensures |own| == |plan.order| && RenderNodes(plan, rows) == own + plan.externals
    ensures forall i | 0 <= i < |own| ::
              own[i] == RenderNode(plan.order[i], plan.names[plan.order[i]], rows[plan.order[i]])
  {
    own := RenderNodes(plan, rows)[..|plan.order|];
  }

  lemma NodeIsSeen(row: Mesh.Row, sid: ServerId, name: string, keepalive: nat)
    requires row.key.Some?
    ensures ShowsNode(Seen(RenderNode(sid, name, row), keepalive), row, keepalive)
  {
    hide Authority, Readable, Text.Trim, ReadEndpoint, Text.TrimStart;
    if Readable(row.host) && TrimStart(row.host) == row.host { EndpointIsSeen(row.host, row.port); }
  }

  lemma ConfigLists(plan: Plan, rows: map<ServerId, Row>, own: seq<Node>, m: nat)
    requires Covers(plan, rows) && AllKeyed(rows) && m < |plan.order| == |own|
    requires RenderNodes(plan, rows) == own + plan.externals
    requires forall i | 0 <= i < |own| ::
               own[i] == RenderNode(plan.order[i], plan.names[plan.order[i]], rows[plan.order[i]])
    ensures ListedNodes(own[m], RenderNodes(plan, rows))
         == own[..m] + own[m + 1..] + KeyedElsewhere(plan.externals, plan.order[m])
  {
    hide Authority, ListedNodes, KeyedElsewhere, RenderNodes;
    forall i | 0 <= i < |own| && i != m ensures Listed(own[m], own[i]) {
      assert plan.order[i] != plan.order[m];
    }
    OthersAreListed(own[m], own, m);
    ListedAppend(own[m], own, plan.externals);
    PairedAreListed(own[m], plan.externals);
  }

  lemma ConfigReads(plan: Plan, rows: map<ServerId, Row>, m: nat) returns (own: seq<Node>)
    requires Covers(plan, rows) && AllKeyed(rows) && PlainFields(plan, rows) && m < |plan.order|
    ensures |own| == |plan.order|
    ensures forall i | 0 <= i < |own| ::
               own[i] == RenderNode(plan.order[i], plan.names[plan.order[i]], rows[plan.order[i]])
    ensures ReadFile(ConfigFor(plan, rows, plan.order[m]))
         == Some(FileSeen(rows[plan.order[m]].ip % 0x1_0000_0000, plan.cfg.listenPort,
                          AllSeen(ListedNodes(own[m], RenderNodes(plan, rows)), plan.cfg.keepalive)))
    ensures ListedNodes(own[m], RenderNodes(plan, rows))
         == own[..m] + own[m + 1..] + KeyedElsewhere(plan.externals, plan.order[m])
  {
    hide Rendered, Seen, Authority, NewlineFree, ListedNodes, ReadFile, KeyedElsewhere, AllSeen;
    own := OwnNodes(plan, rows);
    var nodes := RenderNodes(plan, rows);
    forall i | 0 <= i < |nodes| ensures NewlineFree(nodes[i]) {
      if i < |own| { OwnIsPlain(plan, rows, i); }
    }
    RenderedReads(own[m], nodes, plan.cfg.listenPort, plan.cfg.keepalive);
    ConfigLists(plan, rows, own, m);
  }

  lemma OwnAreShown(plan: Plan, rows: map<ServerId, Row>, own: seq<Node>, paired: seq<Node>, all: seq<Node>, m: nat,
                    i: nat)
    requires Covers(plan, rows) && AllKeyed(rows) && |own| == |plan.order| && m < |own| && i < |own| && i != m
    requires own[i] == RenderNode(plan.order[i], plan.names[plan.order[i]], rows[plan.order[i]])
    requires all == own[..m] + own[m + 1..] + paired && forall k | 0 <= k < |all| :: all[k].publicKey.Some?
    ensures ShowsNode(AllSeen(all, plan.cfg.keepalive)[if i < m then i else i - 1],
                      rows[plan.order[i]], plan.cfg.keepalive)
  {
    hide Seen, ShowsNode, Authority, RenderNode;
    NodeIsSeen(rows[plan.order[i]], plan.order[i], plan.names[plan.order[i]], plan.cfg.keepalive);
    assert all[if i < m then i else i - 1] == own[i];
  }

  /** What provisioning writes to a node shows the whole mesh. */
  lemma ConfigShowsMesh(plan: Plan, rows: map<ServerId, Row>, m: nat)
    requires Covers(plan, rows) && AllKeyed(rows) && PlainFields(plan, rows) && m < |plan.order|
    ensures ShowsMesh(ConfigFor(plan, rows, plan.order[m]), plan, rows, m)
  {
    hide ConfigFor, Seen, ShowsNode, Authority, ListedNodes, RenderNodes, RenderNode, ReadFile, KeyedElsewhere,
      PlainFields, Covers, AllKeyed, Text.Trim;
    var keepalive := plan.cfg.keepalive;
    var own := ConfigReads(plan, rows, m);
    var paired := KeyedElsewhere(plan.externals, plan.order[m]);
    var all := ListedNodes(own[m], RenderNodes(plan, rows));
    var peers := AllSeen(all, keepalive);
    forall i | 0 <= i < |plan.order| && i != m
      ensures plan.order[i] in rows
      ensures ShowsNode(peers[if i < m then i else i - 1], rows[plan.order[i]], keepalive)
    {
      CoversNode(plan, rows, i);
      OwnAreShown(plan, rows, own, paired, all, m, i);
    }
    forall j | 0 <= j < |paired|
      ensures peers[|own| - 1 + j] == PeerSeen(Trim(paired[j].publicKey.value), Trim(paired[j].endpoint),
                                               paired[j].ip % 0x1_0000_0000, keepalive)
    {
      assert all[|own| - 1 + j] == paired[j];
      SeenIs(paired[j], keepalive);
    }
    CoversNode(plan, rows, m);
  }

  lemma CoversNode(plan: Plan, rows: map<ServerId, Row>, i: nat)
    requires Covers(plan, rows) && i < |plan.order|
    ensures plan.order[i] in rows
  {
  }

  lemma SeenIs(p: Node, keepalive: nat)
    requires p.publicKey.Some?
    ensures Seen(p, keepalive)
         == PeerSeen(Trim(p.publicKey.value), Trim(p.endpoint), p.ip % 0x1_0000_0000, keepalive)
  {
  }

  lemma OwnIsPlain(plan: Plan, rows: map<ServerId, Row>, i: nat)
    requires Covers(plan, rows) && PlainFields(plan, rows) && i < |plan.order|
    ensures NewlineFree(RenderNode(plan.order[i], plan.names[plan.order[i]], rows[plan.order[i]]))
  {
    hide Authority;
    AuthorityIsOneLine(rows[plan.order[i]].host, rows[plan.order[i]].port);
  }

  /** Call number `at` wrote `text` to the node, which accepted it and then its start. */
  predicate Written(sent: seq<Sent>, at: nat, sid: ServerId, text: string) {
    && at + 1 < |sent|
    && sent[at].call == WriteConfig(sid, text) && sent[at].reply.Answer? && sent[at].reply.ok
    && sent[at + 1].call == Up(sid) && sent[at + 1].reply.Answer? && sent[at + 1].reply.ok
  }

  function Minting(plan: Plan, rows: map<ServerId, Row>): nat
    requires Covers(plan, rows)
  {
    2 * |Unkeyed(plan.order, rows, |plan.order|)|
  }

  /**
   * A finished provisioning: the file written to each node shows the whole mesh, with the keys the
   * nodes have now.
   */
  lemma FullScriptShowsMesh(plan: Plan, before: map<ServerId, Row>, after: map<ServerId, Row>, sent: seq<Sent>, m: nat)
    returns (text: string)
    requires Covers(plan, before) && Covers(plan, after) && FullScript(plan, before, after, sent)
    requires AllKeyed(after) && PlainFields(plan, after) && m < |plan.order|
    ensures Written(sent, Minting(plan, before) + 2 * m, plan.order[m], text)
    ensures ShowsMesh(text, plan, after, m)
  {
    hide MintScript, ShowsMesh, ConfigFor, PlainFields;
    var from := Minting(plan, before);
    var pushing := sent[from..];
    text := ConfigFor(plan, after, plan.order[m]);
    assert PushedBy(pushing[2 * m..2 * m + 2], plan.order[m], text);
    assert pushing[2 * m..2 * m + 2][0] == sent[from + 2 * m];
    assert pushing[2 * m..2 * m + 2][1] == sent[from + 2 * m + 1];
    ConfigShowsMesh(plan, after, m);
  }

  /** Whether it finishes or not: every write was sent when all nodes had keys, and shows them all. */
  lemma WellSentShowsMesh(plan: Plan, x: Sent, m: nat)
    requires WellSent(plan, x) && x.call.WriteConfig? && m < |plan.order| && plan.order[m] == x.call.sid
    requires Covers(plan, x.rows) && PlainFields(plan, x.rows)
    ensures (forall s | s in x.rows :: x.rows[s].key.Some?) && ShowsMesh(x.call.text, plan, x.rows, m)
  {
    hide ShowsMesh, ConfigFor, PlainFields;
    ConfigShowsMesh(plan, x.rows, m);
  }

  /** A finished provisioning asked each unkeyed node in turn to install and to make a key, and stored its answer. */
  lemma FullScriptKeys(plan: Plan, before: map<ServerId, Row>, after: map<ServerId, Row>, sent: seq<Sent>, k: nat)
    requires Covers(plan, before) && Covers(plan, after) && FullScript(plan, before, after, sent)
    requires k < |Unkeyed(plan.order, before, |plan.order|)|
    ensures var sid := Unkeyed(plan.order, before, |plan.order|)[k];
            && 2 * k + 1 < |sent| && sid in after
            && sent[2 * k].call == Install(sid) && sent[2 * k].reply.Answer? && sent[2 * k].reply.ok
            && sent[2 * k + 1].call == GenKey(sid) && sent[2 * k + 1].reply.Answer? && sent[2 * k + 1].reply.ok
            && sent[2 * k + 1].reply.result == Some(after[sid].key)
  {
    hide PushScript;
    var u := Unkeyed(plan.order, before, |plan.order|);
    var minting := sent[..2 * |u|];
    var two := minting[2 * k..2 * k + 2];
    assert MintedBy(two, u[k], after[u[k]].key.value);
    assert two[0] == sent[2 * k] && two[1] == sent[2 * k + 1];
  }

  /**
   * After a finished provisioning any two nodes find each other: the file written to each lists the
   * other's present key at the address the other's own file takes, and both listen on the same port.
   */
  lemma ProvisionedNodesFindEachOther(plan: Plan, before: map<ServerId, Row>, after: map<ServerId, Row>,
                                      sent: seq<Sent>, a: nat, b: nat)
    returns (toA: string, toB: string)
    requires Covers(plan, before) && Covers(plan, after) && FullScript(plan, before, after, sent)
    requires AllKeyed(after) && PlainFields(plan, after) && a < b < |plan.order|
    ensures Written(sent, Minting(plan, before) + 2 * a, plan.order[a], toA)
    ensures Written(sent, Minting(plan, before) + 2 * b, plan.order[b], toB)
    ensures Connected(ReadFile(toA), ReadFile(toB), b - 1, a,
                      Trim(after[plan.order[a]].key.value), Trim(after[plan.order[b]].key.value))
  {
    hide FullScript, ShowsMesh, ReadFile, Text.Trim, PlainFields, Written, Minting, Connected;
    toA := FullScriptShowsMesh(plan, before, after, sent, a);
    toB := FullScriptShowsMesh(plan, before, after, sent, b);
    NodesFindEachOther(plan, after, a, b, toA, toB);
  }

  /** Section `i` of A's file is for B, section `j` of B's file is for A. */
  predicate Connected(fileA: Option<FileSeen>, fileB: Option<FileSeen>, i: nat, j: nat, keyA: string, keyB: string) {
    && fileA.Some? && fileB.Some? && i < |fileA.value.peers| && j < |fileB.value.peers|
    && fileA.value.peers[i].key == keyB && fileA.value.peers[i].ip == fileB.value.ip
    && fileB.value.peers[j].key == keyA && fileB.value.peers[j].ip == fileA.value.ip
    && fileA.value.listenPort == fileB.value.listenPort
  }

  lemma NodesFindEachOther(plan: Plan, rows: map<ServerId, Row>, a: nat, b: nat, toA: string, toB: string)
    requires Covers(plan, rows) && AllKeyed(rows) && a < b < |plan.order|
    requires ShowsMesh(toA, plan, rows, a) && ShowsMesh(toB, plan, rows, b)
    ensures Connected(ReadFile(toA), ReadFile(toB), b - 1, a,
                      Trim(rows[plan.order[a]].key.value), Trim(rows[plan.order[b]].key.value))
  {
    hide ReadFile, Text.Trim, KeyedElsewhere, ReadEndpoint;
    assert ShowsNode(ReadFile(toA).value.peers[b - 1], rows[plan.order[b]], plan.cfg.keepalive);
    assert ShowsNode(ReadFile(toB).value.peers[a], rows[plan.order[a]], plan.cfg.keepalive);
  }
}
