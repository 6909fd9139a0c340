/** Addresses over any number of pairings, and the enable that forgets the paired nodes (network/core_mesh.rs). */
module MeshPairing {
  import opened Text
  import opened Addresses
  import opened Mesh
  import opened MeshLifecycle

  // ----- any number of pairings -----------------------------------------------------------

  /** No two nodes of the mesh, own or paired, share an address. */
  ghost predicate Disjoint(db: Db) {
    && UniqueIps(db.rows)
    && (forall u, v | u in db.externals && v in db.externals && u != v :: db.externals[u].ip != db.externals[v].ip)
    && forall sid, u | sid in db.rows && u in db.externals :: db.rows[sid].ip != db.externals[u].ip
  }

  predicate DistinctNodes(nodes: seq<(string, External)>) {
    forall i, j | 0 <= i < j < |nodes| :: nodes[i].0 != nodes[j].0 && nodes[i].1.ip != nodes[j].1.ip
  }

  /** Nodes whose ids no other core owns and whose addresses are free here, `old` being the nodes they replace. */
  predicate FreshNodes(db: Db, peer: ServerId, nodes: seq<(string, External)>) {
    && DistinctNodes(nodes)
    && forall i | 0 <= i < |nodes| ::
         && (nodes[i].0 in db.externals ==> db.externals[nodes[i].0].owner == peer)
         && nodes[i].1.ip !in UsedIps(db.rows) + ExternalIps(db.externals)
  }

  /** The other core reports its nodes with the addresses this core planned for them, in the planned order. */
  predicate AsPlanned(db: Db, peer: ServerId, nodes: seq<(string, External)>) {
    && db.cfg.subnet.prefix <= 30
    && (forall i, j | 0 <= i < j < |nodes| :: nodes[i].0 != nodes[j].0)
    && (forall i | 0 <= i < |nodes| :: nodes[i].0 in db.externals ==> db.externals[nodes[i].0].owner == peer)
    && PairPlan(db, |nodes|).Some?
    && (PlanLength(FirstHost(ParseSubnet(db.cfg.subnet).value), LastHost(ParseSubnet(db.cfg.subnet).value),
                   UsedIps(db.rows) + ExternalIps(db.externals), |nodes|);
        forall i | 0 <= i < |nodes| :: nodes[i].1.ip == PairPlan(db, |nodes|).value[i])
  }

  lemma PlannedIsFresh(db: Db, peer: ServerId, nodes: seq<(string, External)>)
    requires AsPlanned(db, peer, nodes)
    ensures FreshNodes(db, peer, nodes)
  {
    hide Plan, LowestFree, BlockStart, Size;
    var s := ParseSubnet(db.cfg.subnet).value;
    PlanIsFresh(FirstHost(s), LastHost(s), UsedIps(db.rows) + ExternalIps(db.externals), |nodes|);
  }

  /** The address the next enable hands to the k-th server. */
  function HandedOut(db: Db, k: nat): nat
    requires db.cfg.subnet.prefix <= 30
  {
    ParseSubnet(db.cfg.subnet).value.network + 1 + k
  }

  /** That address is a paired node's. */
  predicate HandsOutTaken(db: Db, k: nat) {
    db.cfg.subnet.prefix <= 30 && HandedOut(db, k) in ExternalIps(db.externals)
  }

  ghost predicate EnableAvoids(db: Db) { forall k | 0 <= k < |Provisioned(db.servers)| :: !HandsOutTaken(db, k) }

  /** A proposal whose owner planned for this core as it is, without nodes of third cores in the way. */
  predicate ProposalAvoids(db: Db, owner: ServerId, assign: map<ServerId, nat>, nodes: seq<(string, External)>) {
    && FreshNodes(db, owner, nodes)
    && forall s | s in OwnServers(db.servers) && s.id in assign ::
         && (forall u | u in db.externals && db.externals[u].owner != owner :: db.externals[u].ip != assign[s.id])
         && forall i | 0 <= i < |nodes| :: nodes[i].1.ip != assign[s.id]
  }

  ghost predicate Avoids(db: Db, step: Step) {
    match step
    case Enable => EnableSucceeds(db) ==> EnableAvoids(db)
    case Pair(peer, _, nodes) => PairSucceeds(db) ==> AsPlanned(db, peer, nodes)
    case Propose(owner, _, _, assign, nodes) =>
      ProposeSucceeds(db, owner, assign) ==> ProposalAvoids(db, owner.value, assign, nodes)
    case _ => true
  }

  ghost predicate AllAvoid(dbs: seq<Db>, steps: seq<Step>)
    requires IsRun(dbs, steps)
  {
    forall i | 0 <= i < |steps| :: Avoids(dbs[i], steps[i])
  }

  /** Over any number of pairings, teardowns, disables and enables: nobody shares an address. */
  lemma {:induction false} RunsStayDisjoint(dbs: seq<Db>, steps: seq<Step>, j: nat)
    requires IsRun(dbs, steps) && j <= |steps| && AllAvoid(dbs, steps)
    ensures Disjoint(dbs[j])
  {
    hide Next, Avoids, Sound;
    if j == 0 {
      assert Disjoint(dbs[0]) by { FreshIsDisjoint(dbs[0]); }
    } else {
      RunsStayDisjoint(dbs, steps, j - 1);
      RunsStaySound(dbs, steps, j - 1);
      StepKeepsDisjoint(dbs[j - 1], steps[j - 1]);
      assert dbs[j] == Next(dbs[j - 1], steps[j - 1]);
    }
  }

  lemma FreshIsDisjoint(db: Db)
    requires Fresh(db)
    ensures Disjoint(db)
  {
  }

  lemma StepKeepsDisjoint(db: Db, step: Step)
    requires Sound(db) && Disjoint(db) && Avoids(db, step)
    ensures Disjoint(Next(db, step))
  {
    hide Provisioned, AddressPlan, Seat, Adopt, OwnServers, Without, StoreNodes, KeyedNodes, Disjoint, FreshNodes,
      AsPlanned, ProposalAvoids, EnableAvoids, Sound;
    match step
    case Enable =>
      if EnableSucceeds(db) { EnableSharesIff(db); }
    case Pair(peer, uid, nodes) =>
      if PairSucceeds(db) {
        PlannedIsFresh(db, peer, nodes);
        KeyedAreFresh(db, peer, nodes);
        StoringKeepsDisjoint(db, peer, KeyedNodes(nodes));
      }
      var stored := StoreNodes(WithoutOwner(db.externals, peer), peer, KeyedNodes(nodes));
      SameAddresses(db.(externals := if PairSucceeds(db) then stored else db.externals), Next(db, step));
    case Propose(owner, uid, plan, assign, nodes) =>
      if ProposeSucceeds(db, owner, assign) { ProposalKeepsDisjoint(db, owner, uid, plan, assign, nodes); }
    case _ =>
      FewerNodes(db, step);
  }

  /** Two tables with the same rows and paired nodes. */
  lemma SameAddresses(a: Db, b: Db)
    requires a.rows == b.rows && a.externals == b.externals
    ensures Disjoint(a) <==> Disjoint(b)
  {
  }

  lemma FewerNodes(db: Db, step: Step)
    requires Disjoint(db) && !step.Enable? && !step.Pair? && !step.Propose?
    ensures Disjoint(Next(db, step))
  {
    hide Without;
  }

  lemma StoringKeepsDisjoint(db: Db, peer: ServerId, nodes: seq<(string, External)>)
    requires Disjoint(db) && FreshNodes(db, peer, nodes)
    ensures Disjoint(db.(externals := StoreNodes(WithoutOwner(db.externals, peer), peer, nodes)))
  {
    hide StoreNodes;
    var kept := WithoutOwner(db.externals, peer);
    StoredNodes(kept, peer, nodes);
    var ext := StoreNodes(kept, peer, nodes);
    forall u | u in ext ensures u in kept || ext[u].ip !in UsedIps(db.rows) + ExternalIps(db.externals) {
      if u !in kept { var i :| 0 <= i < |nodes| && nodes[i].0 == u; }
    }
    forall u, v | u in ext && v in ext && u != v ensures ext[u].ip != ext[v].ip {
      if u !in kept && v !in kept {
        var i :| 0 <= i < |nodes| && nodes[i].0 == u;
        var j :| 0 <= j < |nodes| && nodes[j].0 == v;
      }
    }
  }

  predicate Named(nodes: seq<(string, External)>, u: string) { exists i | 0 <= i < |nodes| :: nodes[i].0 == u }

  /** What storing leaves: each new node as given, and the others. */
  lemma {:induction false} StoredNodes(kept: map<string, External>, owner: ServerId, nodes: seq<(string, External)>)
    requires forall i, j | 0 <= i < j < |nodes| :: nodes[i].0 != nodes[j].0
    requires forall i | 0 <= i < |nodes| :: nodes[i].0 !in kept
    ensures var ext := StoreNodes(kept, owner, nodes);
            && (forall i | 0 <= i < |nodes| :: nodes[i].0 in ext && ext[nodes[i].0] == nodes[i].1.(owner := owner))
            && (forall u | u in kept :: u in ext && ext[u] == kept[u])
            && forall u | u in ext :: u in kept || Named(nodes, u)
  {
    if nodes != [] {
      var n := |nodes| - 1;
      StoredNodes(kept, owner, nodes[..n]);
      NamedSplits(nodes);
      hide Named;
      assert forall i | 0 <= i < n :: nodes[..n][i] == nodes[i];
      var before := StoreNodes(kept, owner, nodes[..n]);
      assert StoreNodes(kept, owner, nodes) == before[nodes[n].0 := nodes[n].1.(owner := owner)];
    }
  }

  lemma NamedSplits(nodes: seq<(string, External)>)
    requires nodes != []
    ensures forall u :: Named(nodes, u) <==> Named(nodes[..|nodes| - 1], u) || u == nodes[|nodes| - 1].0
  {
    var n := |nodes| - 1;
    forall u ensures Named(nodes, u) <==> Named(nodes[..n], u) || u == nodes[n].0 {
      if Named(nodes, u) && u != nodes[n].0 {
        var i :| 0 <= i < |nodes| && nodes[i].0 == u;
        assert nodes[..n][i].0 == u;
      }
      if Named(nodes[..n], u) {
        var i :| 0 <= i < n && nodes[..n][i].0 == u;
        assert nodes[i].0 == u;
      }
    }
  }

  lemma KeyedAreFresh(db: Db, peer: ServerId, nodes: seq<(string, External)>)
    requires FreshNodes(db, peer, nodes)
    ensures FreshNodes(db, peer, KeyedNodes(nodes))
  {
    KeyedArePart(nodes);
    hide KeyedNodes;
    var keyed := KeyedNodes(nodes);
    forall i | 0 <= i < |keyed|
      ensures keyed[i].0 in db.externals ==> db.externals[keyed[i].0].owner == peer
      ensures keyed[i].1.ip !in UsedIps(db.rows) + ExternalIps(db.externals)
    {
      assert keyed[i] in nodes;
    }
  }

  lemma {:induction false} KeyedArePart(nodes: seq<(string, External)>)
    requires DistinctNodes(nodes)
    ensures DistinctNodes(KeyedNodes(nodes))
    ensures forall x | x in KeyedNodes(nodes) :: x in nodes
  {
    if nodes != [] {
      var n := |nodes| - 1;
      KeyedArePart(nodes[..n]);
      var before := KeyedNodes(nodes[..n]);
      forall i | 0 <= i < |before| ensures before[i].0 != nodes[n].0 && before[i].1.ip != nodes[n].1.ip {
        assert before[i] in nodes[..n];
      }
    }
  }

  lemma ProposalKeepsDisjoint(db: Db, owner: Option<ServerId>, uid: string, plan: Config, assign: map<ServerId, nat>,
                              nodes: seq<(string, External)>)
    requires Sound(db) && Disjoint(db) && ProposeSucceeds(db, owner, assign)
    requires ProposalAvoids(db, owner.value, assign, nodes)
    ensures Disjoint(Next(db, Propose(owner, uid, plan, assign, nodes)))
  {
    hide OwnServers, Adopt, StoreNodes;
    var own := OwnServers(db.servers);
    var kept := WithoutOwner(db.externals, owner.value);
    AdoptKeepsUnique(map[], own, assign, plan.listenPort);
    AdoptRows(map[], own, assign, plan.listenPort);
    AdoptedAreOwn(own, assign, plan.listenPort);
    StoringKeepsDisjoint(db, owner.value, nodes);
    StoredNodes(kept, owner.value, nodes);
    var rows, ext := Adopt(map[], own, assign, plan.listenPort), StoreNodes(kept, owner.value, nodes);
    forall sid, u | sid in rows && u in ext ensures rows[sid].ip != ext[u].ip {
      var s :| s in own && s.id == sid;
      if u !in kept { var i :| 0 <= i < |nodes| && nodes[i].0 == u; }
    }
  }

  lemma {:induction false} AdoptedAreOwn(ss: seq<Server>, assign: map<ServerId, nat>, port: nat)
    requires forall s | s in ss :: s.id in assign
    ensures forall sid | sid in Adopt(map[], ss, assign, port) :: exists s :: s in ss && s.id == sid
  {
    if ss != [] {
      var n := |ss| - 1;
      AdoptedAreOwn(ss[..n], assign, port);
      forall sid | sid in Adopt(map[], ss, assign, port) ensures exists s :: s in ss && s.id == sid {
        if sid == ss[n].id {
          assert ss[n] in ss;
        } else {
          assert sid in Adopt(map[], ss[..n], assign, port);
          var s :| s in ss[..n] && s.id == sid;
          assert s in ss;
        }
      }
    }
  }

  predicate SeatsInOrder(ss: seq<Server>, rows: map<ServerId, Row>, first: nat) {
    && UniqueIps(rows)
    && (forall k | 0 <= k < |ss| :: ss[k].id in rows && rows[ss[k].id].ip == first + k)
    && forall sid | sid in rows :: exists k | 0 <= k < |ss| :: ss[k].id == sid
  }

  lemma EnableSeatsInOrder(db: Db)
    requires Sound(db) && EnableSucceeds(db)
    ensures db.cfg.subnet.prefix <= 30
    ensures SeatsInOrder(Provisioned(db.servers), Next(db, Enable).rows, HandedOut(db, 0))
  {
    hide Provisioned, Plan, Seat, Enabled, Size, BlockStart, UniqueIps;
    EnableHandsOut(db);
    var ss := Provisioned(db.servers);
    forall sid | sid in Next(db, Enable).rows ensures exists k | 0 <= k < |ss| :: ss[k].id == sid {
      var t :| t in ss && t.id == sid;
      var k :| 0 <= k < |ss| && ss[k] == t;
    }
  }

  /**
   * Disabling keeps the paired nodes, and enabling again does not look at their addresses: two nodes
   * share one afterwards exactly when a paired node has one of the first host addresses, one for each server.
   */
  lemma EnableSharesIff(db: Db)
    requires Sound(db) && Disjoint(db) && EnableSucceeds(db)
    ensures Disjoint(Next(db, Enable)) <==> EnableAvoids(db)
  {
    hide Provisioned, EnableSucceeds, Next, ParseSubnet, UniqueIps, Sound;
    EnableSeatsInOrder(db);
    EnableKeepsExternals(db);
    var ss, db' := Provisioned(db.servers), Next(db, Enable);
    if EnableAvoids(db) {
      forall sid, u | sid in db'.rows && u in db'.externals ensures db'.rows[sid].ip != db'.externals[u].ip {
        var k :| 0 <= k < |ss| && ss[k].id == sid;
        assert !HandsOutTaken(db, k);
        assert db'.externals[u].ip in ExternalIps(db.externals);
      }
    } else {
      var k :| 0 <= k < |ss| && HandsOutTaken(db, k);
      var u :| u in db.externals && db.externals[u].ip == HandedOut(db, k);
      assert ss[k].id in db'.rows;
    }
  }

  lemma EnableKeepsExternals(db: Db)
    ensures Next(db, Enable).externals == db.externals
  {
    hide Provisioned, AddressPlan, Seat;
  }

  // ----- an enable that shares an address -------------------------------------------------

  const LOCAL := Server(1, "a", true, false)
  const PEER := Server(9, "p", false, true)
  const AGENT := Server(2, "b", false, false)
  const SMALL := Config(false, Cidr(0, 30), 51820, 25)
  const ROW := Row(1, "a", 51820, None, Pending)
  const KEYED := Row(1, "a", 51820, Some("k"), Active)
  const REMOTE := External(9, 2, Some("r"))

  lemma SmallSubnet()
    ensures Size(30) == 4 && ParseSubnet(SMALL.subnet) == Some(Subnet(0, 30))
  {
    assert Pow2(2) == 2 * Pow2(1);
    assert BlockStart(0, Size(30)) <= 0;
  }

  lemma OneServerSeated(db: Db)
    requires db == Db(SMALL, [LOCAL, PEER], map[], map[], map[])
    ensures Sound(db) && Next(db, Enable) == db.(cfg := SMALL.(enabled := true), rows := map[1 := ROW])
  {
    hide Plan, Seat, Size, BlockStart, LowestFree;
    SmallSubnet();
    assert Provisioned(db.servers) == [LOCAL] by { OneProvisioned(); }
    EnableSucceedsIff(db);
    EnableHandsOut(db);
    EnableKeepsExternals(db);
    var after := Next(db, Enable);
    assert [LOCAL][0].id in after.rows;
    assert after.rows.Keys == {1};
  }

  lemma OneProvisioned()
    ensures Provisioned([LOCAL, PEER]) == [LOCAL] && OwnServers([LOCAL, PEER]) == [LOCAL]
  {
    assert [LOCAL, PEER][1..] == [PEER] && [PEER][1..] == [];
    assert Provisioned([PEER]) == [];
    assert OwnWith([PEER], true) == [] && OwnWith([PEER], false) == [];
    assert Insert(LOCAL, []) == [LOCAL];
  }

  lemma TwoProvisioned()
    ensures Provisioned([LOCAL, PEER, AGENT]) == [LOCAL, AGENT]
  {
    assert [LOCAL, PEER, AGENT][1..] == [PEER, AGENT] && [PEER, AGENT][1..] == [AGENT] && [AGENT][1..] == [];
    assert Provisioned([AGENT]) == [AGENT];
    assert Provisioned([PEER, AGENT]) == [AGENT];
    assert Insert(LOCAL, [AGENT]) == [LOCAL, AGENT];
  }

  lemma RemoteStored(db: Db)
    requires db == Db(SMALL.(enabled := true), [LOCAL, PEER], map[1 := KEYED], map[], map[])
    ensures AsPlanned(db, 9, [("u", REMOTE)])
    ensures Next(db, Pair(9, "u", [("u", REMOTE)])) == db.(externals := map["u" := REMOTE], peerUids := map[9 := "u"])
  {
    hide Size, BlockStart;
    SmallSubnet();
    OneProvisioned();
    var nodes := [("u", REMOTE)];
    assert nodes[..0] == [] && KeyedNodes(nodes) == nodes;
    assert WithoutOwner(db.externals, 9) == map[];
    assert StoreNodes(map[], 9, nodes) == map["u" := REMOTE];
    assert UsedIps(db.rows) + ExternalIps(db.externals) == {1} by { assert db.rows[1].ip == 1; }
    LowestIsUnique(1, 2, {1}, 2);
    assert Plan(1, 2, {1}, 1) == Some([2] + []);
  }

  /** A run with one more step. */
  lemma Took(dbs: seq<Db>, steps: seq<Step>, step: Step) returns (dbs': seq<Db>, steps': seq<Step>)
    requires IsRun(dbs, steps) && AllAvoid(dbs, steps) && Avoids(dbs[|steps|], step)
    ensures IsRun(dbs', steps') && AllAvoid(dbs', steps') && dbs'[|steps'|] == Next(dbs[|steps|], step)
  {
    hide Next, Avoids, Fresh;
    dbs', steps' := dbs + [Next(dbs[|steps|], step)], steps + [step];
  }

  /**
   * It does happen: enable, provision, pair, disable and add a server, all as planned; the next
   * enable gives the new server the paired node's address.
   */
  lemma EnableCanShare() returns (dbs: seq<Db>, steps: seq<Step>)
    ensures IsRun(dbs, steps) && AllAvoid(dbs, steps) && !Disjoint(Next(dbs[|steps|], Enable))
  {
    hide AllAvoid, IsRun, AsPlanned, EnableAvoids, EnableSucceeds, PairSucceeds, Enabled, Paired, StoreNodes, Disjoint;
    dbs, steps := OneServerRun();
    OneServerSeated(dbs[0]);
    NothingToShare(dbs[0]);
    RemoteStored(Db(SMALL.(enabled := true), [LOCAL, PEER], map[1 := KEYED], map[], map[]));
    SharedAtLast(Db(SMALL, [LOCAL, PEER, AGENT], map[], map["u" := REMOTE], map[9 := "u"]));
    dbs, steps := Took(dbs, steps, Enable);
    dbs, steps := Took(dbs, steps, Configure(map[1 := KEYED]));
    dbs, steps := Took(dbs, steps, Pair(9, "u", [("u", REMOTE)]));
    dbs, steps := Took(dbs, steps, Disable);
    dbs, steps := Took(dbs, steps, AddServer(AGENT));
    assert [LOCAL, PEER] + [AGENT] == [LOCAL, PEER, AGENT];
  }

  lemma OneServerRun() returns (dbs: seq<Db>, steps: seq<Step>)
    ensures IsRun(dbs, steps) && AllAvoid(dbs, steps) && |steps| == 0
    ensures dbs[0] == Db(SMALL, [LOCAL, PEER], map[], map[], map[])
  {
    dbs, steps := [Db(SMALL, [LOCAL, PEER], map[], map[], map[])], [];
  }

  lemma NothingToShare(db: Db)
    requires db.externals == map[]
    ensures EnableAvoids(db)
  {
  }

  lemma SharedAtLast(db: Db)
    requires db == Db(SMALL, [LOCAL, PEER, AGENT], map[], map["u" := REMOTE], map[9 := "u"])
    ensures !Disjoint(Next(db, Enable))
  {
    hide Plan, Seat, Size, BlockStart, LowestFree, Next;
    SmallSubnet();
    assert Provisioned(db.servers) == [LOCAL, AGENT] by { TwoProvisioned(); }
    EnableSucceedsIff(db);
    EnableSharesIff(db);
    assert HandedOut(db, 1) == 2 && db.externals["u"].ip == 2;
    assert HandsOutTaken(db, 1);
  }
}
