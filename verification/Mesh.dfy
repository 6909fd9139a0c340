/**
 * The mesh tables of pier-core and the requests that change them: put, enable, disable
 * (api/network.rs) and propose, teardown (api/peer_mesh.rs).
 */
module Mesh {
  import opened Text
  import opened Addresses

  type ServerId = nat

  datatype Config = Config(enabled: bool, subnet: Cidr, listenPort: nat, keepalive: nat)

  datatype Server = Server(id: ServerId, host: string, isLocal: bool, isPeerCore: bool)

  datatype Status = Pending | Keyed | Active | Error(message: string)

  /** One `wireguard_peers` row; the endpoint is the host and the port of the enabling request. */
  datatype Row = Row(ip: nat, host: string, port: nat, key: Option<string>, status: Status)

  datatype External = External(owner: ServerId, ip: nat, key: Option<string>)

  /** `servers` is in order of creation; `peerUids` is their peer_core_uid column. */
  datatype Db = Db(cfg: Config, servers: seq<Server>, rows: map<ServerId, Row>, externals: map<string, External>,
                   peerUids: map<ServerId, string>)

  datatype Step =
    | Put(subnet: Option<Cidr>, port: Option<nat>, keepalive: Option<nat>)
    | Enable
    | Disable
    | Propose(owner: Option<ServerId>, uid: string, plan: Config, assign: map<ServerId, nat>,
              nodes: seq<(string, External)>)
    | Teardown(peer: Option<ServerId>)
    | Configure(after: map<ServerId, Row>)
    | Pair(remote: ServerId, uid: string, nodes: seq<(string, External)>)
    | AddServer(server: Server)
    | RemoveServer(sid: ServerId)

  // ----- the servers this core provisions -------------------------------------------------

  predicate Before(a: Server, b: Server) {
    if a.isLocal != b.isLocal then a.isLocal else a.id <= b.id
  }

  function Insert(s: Server, ss: seq<Server>): seq<Server> {
    if ss == [] || Before(s, ss[0]) then [s] + ss else [ss[0]] + Insert(s, ss[1..])
  }

  /** Servers of this core, the local node first, then by id: the order addresses are handed out in. */
  function Provisioned(ss: seq<Server>): seq<Server> {
    if ss == [] then []
    else if ss[0].isPeerCore then Provisioned(ss[1..])
    else Insert(ss[0], Provisioned(ss[1..]))
  }

  predicate InOrder(ss: seq<Server>) { forall i, j | 0 <= i < j < |ss| :: Before(ss[i], ss[j]) }

  predicate DistinctIds(ss: seq<Server>) { forall i, j | 0 <= i < j < |ss| :: ss[i].id != ss[j].id }

  lemma {:induction false} InsertAdds(s: Server, ss: seq<Server>)
    ensures multiset(Insert(s, ss)) == multiset{s} + multiset(ss)
  {
    hide Before;
    if ss != [] {
      InsertAdds(s, ss[1..]);
      assert ss == [ss[0]] + ss[1..];
    }
  }

  lemma {:induction false} InsertFacts(s: Server, ss: seq<Server>)
    requires InOrder(ss)
    ensures InOrder(Insert(s, ss)) && multiset(Insert(s, ss)) == multiset{s} + multiset(ss)
  {
    InsertAdds(s, ss);
    if ss != [] && !Before(s, ss[0]) {
      InsertFacts(s, ss[1..]);
      var rest := Insert(s, ss[1..]);
      forall k | 0 <= k < |rest| ensures Before(ss[0], rest[k]) {
        assert rest[k] in multiset(rest);
        assert rest[k] == s || rest[k] in ss[1..];
      }
    }
  }

  function OwnWith(ss: seq<Server>, local: bool): seq<Server> {
    if ss == [] then []
    else (if ss[0].isPeerCore || ss[0].isLocal != local then [] else [ss[0]]) + OwnWith(ss[1..], local)
  }

  /** The same servers as a proposal seats them: the local node first, then by creation. */
  function OwnServers(ss: seq<Server>): seq<Server> { OwnWith(ss, true) + OwnWith(ss, false) }

  lemma {:induction false} ProvisionedSorts(ss: seq<Server>)
    ensures InOrder(Provisioned(ss))
    ensures multiset(Provisioned(ss)) == multiset(OwnServers(ss))
  {
    if ss != [] {
      ProvisionedSorts(ss[1..]);
      if !ss[0].isPeerCore { InsertFacts(ss[0], Provisioned(ss[1..])); }
    }
  }

  lemma {:induction false} ProvisionedMember(ss: seq<Server>, s: Server)
    ensures s in Provisioned(ss) <==> s in ss && !s.isPeerCore
  {
    ProvisionedSorts(ss);
    assert s in Provisioned(ss) <==> s in multiset(Provisioned(ss));
    assert s in OwnServers(ss) <==> s in multiset(OwnServers(ss));
    OwnMember(ss, s);
  }

  lemma {:induction false} OwnWithMember(ss: seq<Server>, local: bool, s: Server)
    ensures s in OwnWith(ss, local) <==> s in ss && !s.isPeerCore && s.isLocal == local
  {
    if ss != [] {
      OwnWithMember(ss[1..], local, s);
      assert s in ss <==> s == ss[0] || s in ss[1..];
    }
  }

  lemma OwnMember(ss: seq<Server>, s: Server)
    ensures s in OwnServers(ss) <==> s in ss && !s.isPeerCore
  {
    OwnWithMember(ss, true, s);
    OwnWithMember(ss, false, s);
  }

  lemma {:induction false} OwnWithDistinct(ss: seq<Server>, local: bool)
    requires DistinctIds(ss)
    ensures DistinctIds(OwnWith(ss, local))
  {
    if ss != [] {
      OwnWithDistinct(ss[1..], local);
      var rest := OwnWith(ss[1..], local);
      forall k | 0 <= k < |rest| ensures rest[k].id != ss[0].id {
        OwnWithMember(ss[1..], local, rest[k]);
        var i :| 0 <= i < |ss[1..]| && ss[1..][i] == rest[k];
        assert ss[i + 1] == rest[k];
      }
    }
  }

  lemma OwnDistinct(ss: seq<Server>)
    requires DistinctIds(ss)
    ensures DistinctIds(OwnServers(ss))
  {
    hide OwnWith;
    OwnWithDistinct(ss, true);
    OwnWithDistinct(ss, false);
    var a, b := OwnWith(ss, true), OwnWith(ss, false);
    forall i, j | 0 <= i < |a| && 0 <= j < |b| ensures a[i].id != b[j].id {
      OwnWithMember(ss, true, a[i]);
      OwnWithMember(ss, false, b[j]);
      var k :| 0 <= k < |ss| && ss[k] == a[i];
      var l :| 0 <= l < |ss| && ss[l] == b[j];
    }
  }

  lemma {:induction false} InsertDistinct(s: Server, ss: seq<Server>)
    requires DistinctIds(ss) && forall t | t in ss :: t.id != s.id
    ensures DistinctIds(Insert(s, ss))
    ensures forall t | t in Insert(s, ss) :: t == s || t in ss
  {
    if ss != [] && !Before(s, ss[0]) {
      assert forall t | t in ss[1..] :: t in ss;
      InsertDistinct(s, ss[1..]);
      var rest := Insert(s, ss[1..]);
      forall k | 0 <= k < |rest| ensures rest[k].id != ss[0].id {
        assert rest[k] == s || rest[k] in ss[1..];
      }
    }
  }

  lemma {:induction false} ProvisionedDistinct(ss: seq<Server>)
    requires DistinctIds(ss)
    ensures DistinctIds(Provisioned(ss))
  {
    if ss != [] {
      ProvisionedDistinct(ss[1..]);
      if !ss[0].isPeerCore {
        forall t | t in Provisioned(ss[1..]) ensures t.id != ss[0].id {
          ProvisionedMember(ss[1..], t);
          var k :| 0 <= k < |ss[1..]| && ss[1..][k] == t;
          assert ss[k + 1] == t;
        }
        InsertDistinct(ss[0], Provisioned(ss[1..]));
      }
    }
  }

  /** Same nodes, same addresses and endpoints, and every key that was there is still the same. */
  predicate KeepsNodes(before: map<ServerId, Row>, after: map<ServerId, Row>) {
    && after.Keys == before.Keys
    && forall sid | sid in before ::
         && after[sid].ip == before[sid].ip
         && after[sid].host == before[sid].host && after[sid].port == before[sid].port
         && (before[sid].key.Some? ==> after[sid].key == before[sid].key)
  }

  // ----- the requests ---------------------------------------------------------------------

  function UsedIps(rows: map<ServerId, Row>): set<nat> { set sid | sid in rows :: rows[sid].ip }

  function NewRow(s: Server, ip: nat, port: nat): Row { Row(ip, s.host, port, None, Pending) }

  /** The rows of the first servers, one address each. */
  function Seat(ss: seq<Server>, ips: seq<nat>, port: nat): map<ServerId, Row>
    requires |ss| == |ips|
  {
    if ss == [] then map[]
    else
      var n := |ss| - 1;
      Seat(ss[..n], ips[..n], port)[ss[n].id := NewRow(ss[n], ips[n], port)]
  }

  function AddressPlan(db: Db): Option<seq<nat>> {
    match ParseSubnet(db.cfg.subnet)
    case None => None
    case Some(s) => Plan(FirstHost(s), LastHost(s), UsedIps(db.rows), |Provisioned(db.servers)|)
  }

  predicate EnableSucceeds(db: Db) {
    && !db.cfg.enabled
    && AddressPlan(db).Some?
    && forall s | s in Provisioned(db.servers) :: s.id !in db.rows
  }

  lemma PlanLength(lo: nat, hi: nat, used: set<nat>, n: nat)
    ensures Plan(lo, hi, used, n).Some? ==> |Plan(lo, hi, used, n).value| == n
  {
    PlanIsFresh(lo, hi, used, n);
  }

  function Enabled(db: Db): Db {
    if !EnableSucceeds(db) then db
    else
      var ss := Provisioned(db.servers);
      var s := ParseSubnet(db.cfg.subnet).value;
      PlanLength(FirstHost(s), LastHost(s), UsedIps(db.rows), |ss|);
      db.(cfg := db.cfg.(enabled := true), rows := db.rows + Seat(ss, AddressPlan(db).value, db.cfg.listenPort))
  }

  predicate PutAllowed(db: Db, subnet: Option<Cidr>, port: Option<nat>) {
    && (subnet.Some? ==> ParseSubnet(subnet.value).Some?)
    && (port.Some? ==> port.value >= 1024)
    && !db.cfg.enabled
    && db.rows == map[]
  }

  function Or<T>(o: Option<T>, default: T): T { if o.Some? then o.value else default }

  /** INSERT OR REPLACE: a row with the same server or the same (unique) address makes way. */
  function Replace(rows: map<ServerId, Row>, sid: ServerId, row: Row): map<ServerId, Row> {
    (map s | s in rows && s != sid && rows[s].ip != row.ip :: rows[s])[sid := row]
  }

  function Adopt(rows: map<ServerId, Row>, ss: seq<Server>, assign: map<ServerId, nat>, port: nat): map<ServerId, Row>
    requires forall s | s in ss :: s.id in assign
  {
    if ss == [] then rows
    else
      var n := |ss| - 1;
      Replace(Adopt(rows, ss[..n], assign, port), ss[n].id, NewRow(ss[n], assign[ss[n].id], port))
  }

  predicate ProposeSucceeds(db: Db, owner: Option<ServerId>, assign: map<ServerId, nat>) {
    !db.cfg.enabled && owner.Some? && forall s | s in OwnServers(db.servers) :: s.id in assign
  }

  function WithoutOwner(ext: map<string, External>, owner: ServerId): map<string, External> {
    map u | u in ext && ext[u].owner != owner :: ext[u]
  }

  function StoreNodes(ext: map<string, External>, owner: ServerId, nodes: seq<(string, External)>)
    : map<string, External>
  {
    if nodes == [] then ext
    else
      var n := |nodes| - 1;
      StoreNodes(ext, owner, nodes[..n])[nodes[n].0 := nodes[n].1.(owner := owner)]
  }

  function Proposed(db: Db, owner: Option<ServerId>, uid: string, plan: Config, assign: map<ServerId, nat>,
                    nodes: seq<(string, External)>): Db {
    if !ProposeSucceeds(db, owner, assign) then db
    else
      db.(cfg := plan.(enabled := true),
          rows := Adopt(db.rows, OwnServers(db.servers), assign, plan.listenPort),
          externals := StoreNodes(WithoutOwner(db.externals, owner.value), owner.value, nodes),
          peerUids := db.peerUids[owner.value := uid])
  }

  /** A remote node without a key is skipped; pairing again picks it up. */
  function KeyedNodes(nodes: seq<(string, External)>): seq<(string, External)> {
    if nodes == [] then []
    else
      var n := |nodes| - 1;
      KeyedNodes(nodes[..n]) + if nodes[n].1.key.Some? then [nodes[n]] else []
  }

  /** Pairing needs this core's own mesh on and all its nodes keyed. */
  predicate PairSucceeds(db: Db) {
    db.cfg.enabled && forall s | s in OwnServers(db.servers) :: s.id in db.rows && db.rows[s.id].key.Some?
  }

  /** The owner's side of a pairing: the nodes the other core reports replace those it had before. */
  function Paired(db: Db, peer: ServerId, uid: string, nodes: seq<(string, External)>): Db {
    if !PairSucceeds(db) then db
    else
      db.(externals := StoreNodes(WithoutOwner(db.externals, peer), peer, KeyedNodes(nodes)),
          peerUids := db.peerUids[peer := uid])
  }

  function Without(ss: seq<Server>, sid: ServerId): seq<Server> {
    if ss == [] then [] else (if ss[0].id == sid then [] else [ss[0]]) + Without(ss[1..], sid)
  }

  function Next(db: Db, step: Step): Db {
    match step
    case Put(subnet, port, keepalive) =>
      if PutAllowed(db, subnet, port) then
        db.(cfg := db.cfg.(subnet := Or(subnet, db.cfg.subnet), listenPort := Or(port, db.cfg.listenPort),
                           keepalive := Or(keepalive, db.cfg.keepalive)))
      else db
    case Enable => Enabled(db)
    case Disable => db.(cfg := db.cfg.(enabled := false), rows := map[])
    case Propose(owner, uid, plan, assign, nodes) => Proposed(db, owner, uid, plan, assign, nodes)
    case Teardown(peer) =>
      if peer.None? then db
      else db.(externals := WithoutOwner(db.externals, peer.value), peerUids := db.peerUids - {peer.value})
    // any run of the provisioning keeps the nodes: see Configure.Provisioner.ConfigureMesh
    case Configure(after) => if KeepsNodes(db.rows, after) then db.(rows := after) else db
    case Pair(peer, uid, nodes) => Paired(db, peer, uid, nodes)
    case AddServer(s) =>
      if exists t | t in db.servers :: t.id == s.id then db else db.(servers := db.servers + [s])
    case RemoveServer(sid) =>
      db.(servers := Without(db.servers, sid), rows := db.rows - {sid}, externals := WithoutOwner(db.externals, sid),
          peerUids := db.peerUids - {sid})
  }

  // ----- the handlers ---------------------------------------------------------------------

  class MeshTables {
    var cfg: Config
    var servers: seq<Server>
    var rows: map<ServerId, Row>
    var externals: map<string, External>
    var peerUids: map<ServerId, string>

    function Model(): Db
      reads this
    {
      Db(cfg, servers, rows, externals, peerUids)
    }

    constructor (cfg: Config, servers: seq<Server>)
      ensures Model() == Db(cfg, servers, map[], map[], map[])
    {
      this.cfg, this.servers, rows, externals, peerUids := cfg, servers, map[], map[], map[];
    }

    method PutMesh(subnet: Option<Cidr>, port: Option<nat>, keepalive: Option<nat>) returns (ok: bool)
      modifies this
      ensures Model() == Next(old(Model()), Put(subnet, port, keepalive))
      ensures ok == PutAllowed(old(Model()), subnet, port)
    {
      if subnet.Some? && subnet.value.prefix > 30 {
        return false;
      }
      if port.Some? && port.value < 1024 {
        return false;
      }
      if cfg.enabled || |rows| > 0 {
        return false;
      }
      assert |rows| == 0 ==> rows == map[];
      cfg := cfg.(subnet := Or(subnet, cfg.subnet), listenPort := Or(port, cfg.listenPort),
                  keepalive := Or(keepalive, cfg.keepalive));
      return true;
    }

    /** The transaction works on a copy of the rows; any early return drops it. */
    method EnableMesh() returns (ok: bool)
      modifies this
      ensures Model() == Next(old(Model()), Enable)
      ensures ok == EnableSucceeds(old(Model()))
    {
      hide Provisioned, Plan, LowestFree, Seat;
      if cfg.enabled || cfg.subnet.prefix > 30 {
        return false;
      }
      var subnet := ParseSubnet(cfg.subnet).value;
      var used := UsedIps(rows);
      var ss := Provisioned(servers);
      var tx := rows;
      ghost var ips: seq<nat> := [];
      NothingSeated(cfg.listenPort);
      PlanNothing(FirstHost(subnet), LastHost(subnet), UsedIps(rows));
      for k := 0 to |ss|
        invariant |ips| == k
        invariant Plan(FirstHost(subnet), LastHost(subnet), UsedIps(rows), k) == Some(ips)
        invariant used == UsedIps(rows) + Elements(ips)
        invariant tx == rows + Seat(ss[..k], ips, cfg.listenPort)
        invariant forall i | 0 <= i < k :: ss[i].id !in rows
        invariant Model() == old(Model())
      {
        var ip := AllocateIp(subnet, used);
        PlanGrows(FirstHost(subnet), LastHost(subnet), UsedIps(rows), k, ips, |ss|);
        if ip.None? {
          return false;
        }
        if ss[k].id in rows {
          assert ss[k] in ss;
          return false;
        }
        used := used + {ip.value};
        SeatGrows(ss, ips, ip.value, cfg.listenPort, k);
        ips := ips + [ip.value];
        tx := tx[ss[k].id := NewRow(ss[k], ip.value, cfg.listenPort)];
      }
      assert ss[..|ss|] == ss;
      rows := tx;
      cfg := cfg.(enabled := true);
      return true;
    }

    method DisableMesh()
      modifies this
      ensures Model() == Next(old(Model()), Disable)
    {
      rows := map[];
      cfg := cfg.(enabled := false);
    }

    method Propose(owner: Option<ServerId>, uid: string, plan: Config, assign: map<ServerId, nat>,
                   nodes: seq<(string, External)>)
      returns (ok: bool)
      modifies this
      ensures Model() == Next(old(Model()), Step.Propose(owner, uid, plan, assign, nodes))
      ensures ok == ProposeSucceeds(old(Model()), owner, assign)
    {
      hide OwnServers, Adopt, Provisioned, StoreNodes;
      if cfg.enabled || owner.None? {
        return false;
      }
      AdoptNothing(rows, assign, plan.listenPort);
      var own := OwnServers(servers);
      var tx := rows;
      for k := 0 to |own|
        invariant forall s | s in own[..k] :: s.id in assign
        invariant tx == Adopt(rows, own[..k], assign, plan.listenPort)
        invariant Model() == old(Model())
      {
        if own[k].id !in assign {
          assert own[k] in own;
          return false;
        }
        AdoptNext(rows, own, assign, plan.listenPort, k);
        tx := Replace(tx, own[k].id, NewRow(own[k], assign[own[k].id], plan.listenPort));
      }
      assert own[..|own|] == own;
      var ext := StoreExternals(WithoutOwner(externals, owner.value), owner.value, nodes);
      cfg, rows, externals := plan.(enabled := true), tx, ext;
      peerUids := peerUids[owner.value := uid];
      return true;
    }

    static method StoreExternals(kept: map<string, External>, owner: ServerId, nodes: seq<(string, External)>)
      returns (ext: map<string, External>)
      ensures ext == StoreNodes(kept, owner, nodes)
    {
      ext := kept;
      for k := 0 to |nodes|
        invariant ext == StoreNodes(kept, owner, nodes[..k])
      {
        assert nodes[..k + 1][..k] == nodes[..k];
        ext := ext[nodes[k].0 := nodes[k].1.(owner := owner)];
      }
      assert nodes[..|nodes|] == nodes;
    }

    /** Stores what the other core reported, once its side of the pairing has run. */
    method Pair(peer: ServerId, uid: string, nodes: seq<(string, External)>) returns (ok: bool)
      modifies this
      ensures Model() == Next(old(Model()), Step.Pair(peer, uid, nodes))
      ensures ok == PairSucceeds(old(Model()))
    {
      hide OwnServers, Adopt, Replace, Provisioned;
      var own := OwnServers(servers);
      ok := cfg.enabled && forall s | s in own :: s.id in rows && rows[s.id].key.Some?;
      if !ok {
        return;
      }
      var ext := WithoutOwner(externals, peer);
      for k := 0 to |nodes|
        invariant ext == StoreNodes(WithoutOwner(externals, peer), peer, KeyedNodes(nodes[..k]))
        invariant Model() == old(Model())
      {
        StoreNext(WithoutOwner(externals, peer), peer, nodes, k);
        if nodes[k].1.key.None? {
          continue;
        }
        ext := ext[nodes[k].0 := nodes[k].1.(owner := peer)];
      }
      assert nodes[..|nodes|] == nodes;
      externals, peerUids := ext, peerUids[peer := uid];
    }

    method Teardown(peer: Option<ServerId>)
      modifies this
      ensures Model() == Next(old(Model()), Step.Teardown(peer))
    {
      if peer.Some? {
        externals := WithoutOwner(externals, peer.value);
        peerUids := peerUids - {peer.value};
      }
    }
  }

  lemma AdoptNothing(rows: map<ServerId, Row>, assign: map<ServerId, nat>, port: nat)
    ensures Adopt(rows, [], assign, port) == rows
  {
  }

  lemma AdoptNext(rows: map<ServerId, Row>, ss: seq<Server>, assign: map<ServerId, nat>, port: nat, k: nat)
    requires k < |ss| && forall s | s in ss[..k + 1] :: s.id in assign
    ensures forall s | s in ss[..k] :: s.id in assign
    ensures ss[k].id in assign
    ensures Adopt(rows, ss[..k + 1], assign, port)
         == Replace(Adopt(rows, ss[..k], assign, port), ss[k].id, NewRow(ss[k], assign[ss[k].id], port))
  {
    assert ss[..k + 1][..k] == ss[..k] && ss[..k + 1][k] == ss[k];
  }

  lemma StoreNext(ext: map<string, External>, owner: ServerId, nodes: seq<(string, External)>, k: nat)
    requires k < |nodes|
    ensures StoreNodes(ext, owner, KeyedNodes(nodes[..k + 1]))
         == if nodes[k].1.key.None? then StoreNodes(ext, owner, KeyedNodes(nodes[..k]))
            else StoreNodes(ext, owner, KeyedNodes(nodes[..k]))[nodes[k].0 := nodes[k].1.(owner := owner)]
  {
    assert nodes[..k + 1][..k] == nodes[..k];
    var before := KeyedNodes(nodes[..k]);
    assert (before + [nodes[k]])[..|before|] == before;
    assert before + [] == before;
  }

  lemma NothingSeated(port: nat)
    ensures Seat([], [], port) == map[]
  {
  }

  lemma PlanNothing(lo: nat, hi: nat, used: set<nat>)
    ensures Plan(lo, hi, used, 0) == Some([])
  {
  }

  lemma SeatGrows(ss: seq<Server>, ips: seq<nat>, ip: nat, port: nat, k: nat)
    requires k < |ss| && |ips| == k
    ensures Seat(ss[..k + 1], ips + [ip], port) == Seat(ss[..k], ips, port)[ss[k].id := NewRow(ss[k], ip, port)]
  {
    assert ss[..k + 1][..k] == ss[..k] && (ips + [ip])[..k] == ips;
  }

  function Elements(ips: seq<nat>): set<nat> { set x | x in ips }

  /** One more node: the plan so far, extended with the lowest address it left free. */
  lemma {:induction false} PlanGrows(lo: nat, hi: nat, used: set<nat>, k: nat, ips: seq<nat>, n: nat)
    requires Plan(lo, hi, used, k) == Some(ips) && |ips| == k && k < n
    ensures var ip := LowestFree(lo, hi, used + Elements(ips));
            && Plan(lo, hi, used, k + 1) == (if ip.Some? then Some(ips + [ip.value]) else None)
            && (ip.None? ==> Plan(lo, hi, used, n).None?)
    decreases k
  {
    hide LowestFree;
    if k == 0 {
      assert used + Elements(ips) == used;
      var ip := LowestFree(lo, hi, used);
      if ip.Some? {
        PlanUnfold(lo, hi, used, 1);
        assert [ip.value] + [] == ips + [ip.value];
      }
    } else {
      var first := LowestFree(lo, hi, used).value;
      PlanLength(lo, hi, used + {first}, k - 1);
      var rest := Plan(lo, hi, used + {first}, k - 1).value;
      assert ips == [first] + rest;
      PlanGrows(lo, hi, used + {first}, k - 1, rest, n - 1);
      assert used + Elements(ips) == used + {first} + Elements(rest);
      var ip := LowestFree(lo, hi, used + Elements(ips));
      assert ip.Some? ==> [first] + (rest + [ip.value]) == ips + [ip.value];
      PlanUnfold(lo, hi, used, k + 1);
      PlanUnfold(lo, hi, used, n);
    }
  }

  lemma PlanUnfold(lo: nat, hi: nat, used: set<nat>, n: nat)
    requires n > 0 && LowestFree(lo, hi, used).Some?
    ensures var first := LowestFree(lo, hi, used).value;
            var rest := Plan(lo, hi, used + {first}, n - 1);
            Plan(lo, hi, used, n) == (if rest.Some? then Some([first] + rest.value) else None)
  {
  }
}
