/** What every run of mesh requests keeps, and what a successful enable or pairing hands out. */
module MeshLifecycle {
  import opened Text
  import opened Addresses
  import opened Mesh

  ghost predicate IsRun(dbs: seq<Db>, steps: seq<Step>) {
    && |dbs| == |steps| + 1
    && Fresh(dbs[0])
    && forall i | 0 <= i < |steps| :: dbs[i + 1] == Next(dbs[i], steps[i])
  }

  /** The tables after installation. */
  predicate Fresh(db: Db) {
    !db.cfg.enabled && db.rows == map[] && db.externals == map[] && DistinctIds(db.servers)
  }

  predicate UniqueIps(rows: map<ServerId, Row>) {
    forall a, b | a in rows && b in rows && a != b :: rows[a].ip != rows[b].ip
  }

  /** A disabled mesh has no rows, addresses are unique, servers are unique. */
  predicate Sound(db: Db) {
    (!db.cfg.enabled ==> db.rows == map[]) && UniqueIps(db.rows) && DistinctIds(db.servers)
  }

  lemma {:induction false} RunsStaySound(dbs: seq<Db>, steps: seq<Step>, j: nat)
    requires IsRun(dbs, steps) && j <= |steps|
    ensures Sound(dbs[j])
  {
    if j > 0 {
      RunsStaySound(dbs, steps, j - 1);
      StepKeepsSound(dbs[j - 1], steps[j - 1]);
    }
  }

  lemma StepKeepsSound(db: Db, step: Step)
    requires Sound(db)
    ensures Sound(Next(db, step))
  {
    hide Provisioned, Plan, Seat, Adopt, OwnServers, Without, StoreNodes;
    match step
    case Enable =>
      if EnableSucceeds(db) { EnableHandsOut(db); }
    case Propose(owner, _, plan, assign, nodes) =>
      if ProposeSucceeds(db, owner, assign) {
        AdoptKeepsUnique(db.rows, OwnServers(db.servers), assign, plan.listenPort);
      }
    case RemoveServer(sid) =>
      WithoutKeepsDistinct(db.servers, sid);
    case AddServer(s) =>
    case _ =>
  }

  lemma {:induction false} WithoutKeepsDistinct(ss: seq<Server>, sid: ServerId)
    requires DistinctIds(ss)
    ensures DistinctIds(Without(ss, sid))
    ensures forall s | s in Without(ss, sid) :: s in ss && s.id != sid
  {
    if ss != [] {
      WithoutKeepsDistinct(ss[1..], sid);
      var rest := Without(ss[1..], sid);
      forall k | 0 <= k < |rest| ensures rest[k].id != ss[0].id {
        assert rest[k] in ss[1..];
      }
    }
  }

  lemma {:induction false} AdoptKeepsUnique(rows: map<ServerId, Row>, ss: seq<Server>, assign: map<ServerId, nat>,
      port: nat)
    requires forall s | s in ss :: s.id in assign
    requires UniqueIps(rows)
    ensures UniqueIps(Adopt(rows, ss, assign, port))
  {
    if ss != [] { AdoptKeepsUnique(rows, ss[..|ss| - 1], assign, port); }
  }

  // ----- a successful enable --------------------------------------------------------------

  lemma {:induction false} SeatFacts(ss: seq<Server>, ips: seq<nat>, port: nat)
    requires |ss| == |ips| && DistinctIds(ss)
    ensures forall i | 0 <= i < |ss| :: ss[i].id in Seat(ss, ips, port)
                                        && Seat(ss, ips, port)[ss[i].id] == NewRow(ss[i], ips[i], port)
    ensures forall sid | sid in Seat(ss, ips, port) :: exists i :: 0 <= i < |ss| && ss[i].id == sid
  {
    if ss != [] {
      var n := |ss| - 1;
      SeatFacts(ss[..n], ips[..n], port);
      var before := Seat(ss[..n], ips[..n], port);
      forall i | 0 <= i < |ss|
        ensures ss[i].id in Seat(ss, ips, port) && Seat(ss, ips, port)[ss[i].id] == NewRow(ss[i], ips[i], port)
      {
        if i < n { assert ss[..n][i] == ss[i] && ips[..n][i] == ips[i]; }
      }
      forall sid | sid in Seat(ss, ips, port) ensures exists i :: 0 <= i < |ss| && ss[i].id == sid {
        if sid == ss[n].id {
        } else {
          assert sid in before;
          var i :| 0 <= i < n && ss[..n][i].id == sid;
          assert ss[i].id == sid;
        }
      }
    }
  }

  /**
   * Enabling hands the k-th server, local node first, the k-th host address of the subnet: so
   * every address is a host of the subnet, no two are equal, and the local node gets the first.
   */
  lemma EnableHandsOut(db: Db)
    requires Sound(db) && EnableSucceeds(db)
    ensures var ss := Provisioned(db.servers);
            var s := ParseSubnet(db.cfg.subnet).value;
            var db' := Next(db, Enable);
            && db'.rows.Keys == (set t | t in ss :: t.id)
            && (forall k | 0 <= k < |ss| :: ss[k].id in db'.rows
                  && db'.rows[ss[k].id] == Row(s.network + 1 + k, ss[k].host, db.cfg.listenPort, None, Pending)
                  && IsHost(s, s.network + 1 + k))
            && UniqueIps(db'.rows)
            && db'.cfg == db.cfg.(enabled := true)
  {
    hide Provisioned, Plan, Seat, LowestFree, UniqueIps, BlockStart, Size;
    var ss := Provisioned(db.servers);
    var s := ParseSubnet(db.cfg.subnet).value;
    var ips := AddressPlan(db).value;
    assert UsedIps(db.rows) == {};
    PlanFromEmpty(FirstHost(s), LastHost(s), 0, {}, |ss|);
    ProvisionedDistinct(db.servers);
    SeatedTable(ss, ips, FirstHost(s), db.cfg.listenPort);
    var rows := Seat(ss, ips, db.cfg.listenPort);
    assert db.rows + rows == rows;
    var db' := Next(db, Enable);
    assert db'.rows == rows && db'.cfg == db.cfg.(enabled := true);
    assert FirstHost(s) == s.network + 1;
    forall k | 0 <= k < |ss|
      ensures ss[k].id in db'.rows && db'.rows[ss[k].id] == NewRow(ss[k], s.network + 1 + k, db.cfg.listenPort)
      ensures IsHost(s, s.network + 1 + k)
    {
    }
  }

  lemma SeatedTable(ss: seq<Server>, ips: seq<nat>, first: nat, port: nat)
    requires |ss| == |ips| && DistinctIds(ss)
    requires forall i | 0 <= i < |ips| :: ips[i] == first + i
    ensures var rows := Seat(ss, ips, port);
            && rows.Keys == (set t | t in ss :: t.id)
            && UniqueIps(rows)
            && forall k | 0 <= k < |ss| :: ss[k].id in rows && rows[ss[k].id] == NewRow(ss[k], first + k, port)
  {
    hide Seat;
    SeatFacts(ss, ips, port);
    var rows := Seat(ss, ips, port);
    forall a, b | a in rows && b in rows && a != b ensures rows[a].ip != rows[b].ip {
      var i :| 0 <= i < |ss| && ss[i].id == a;
      var j :| 0 <= j < |ss| && ss[j].id == b;
    }
    forall sid | sid in rows ensures exists t :: t in ss && t.id == sid {
      var i :| 0 <= i < |ss| && ss[i].id == sid;
      assert ss[i] in ss;
    }
    forall t | t in ss ensures t.id in rows {
      var i :| 0 <= i < |ss| && ss[i] == t;
      assert ss[i].id in rows;
    }
  }

  /** In a reachable state: enabling works exactly when the mesh is off and the servers fit. */
  lemma EnableSucceedsIff(db: Db)
    requires Sound(db)
    ensures EnableSucceeds(db) <==>
            && !db.cfg.enabled
            && db.cfg.subnet.prefix <= 30
            && |Provisioned(db.servers)| <= HostCount(ParseSubnet(db.cfg.subnet).value)
    ensures !EnableSucceeds(db) ==> Next(db, Enable) == db
  {
    hide Provisioned, Plan, LowestFree;
    if !db.cfg.enabled && db.cfg.subnet.prefix <= 30 {
      var s := ParseSubnet(db.cfg.subnet).value;
      assert UsedIps(db.rows) == {};
      PlanFromEmpty(FirstHost(s), LastHost(s), 0, {}, |Provisioned(db.servers)|);
    }
  }

  // ----- what stays fixed -----------------------------------------------------------------

  /** While any address is allocated, no request changes subnet, port, keepalive or an address, or adds a row. */
  lemma LiveAllocationIsFrozen(dbs: seq<Db>, steps: seq<Step>, j: nat)
    requires IsRun(dbs, steps) && j < |steps| && dbs[j].rows != map[]
    ensures Frozen(dbs[j], dbs[j + 1])
  {
    hide Frozen, Sound, Next;
    RunsStaySound(dbs, steps, j);
    LiveMeshIsOn(dbs[j]);
    StepFreezes(dbs[j], steps[j]);
    assert dbs[j + 1] == Next(dbs[j], steps[j]);
  }

  predicate Frozen(before: Db, after: Db) {
    && after.cfg == before.cfg.(enabled := after.cfg.enabled)
    && (forall sid | sid in before.rows && sid in after.rows :: after.rows[sid].ip == before.rows[sid].ip)
    && forall sid | sid in after.rows :: sid in before.rows
  }

  lemma LiveMeshIsOn(db: Db)
    requires Sound(db) && db.rows != map[]
    ensures db.cfg.enabled
  {
    hide UniqueIps;
  }

  lemma StepFreezes(db: Db, step: Step)
    requires db.cfg.enabled
    ensures Frozen(db, Next(db, step))
  {
    hide Provisioned, AddressPlan, Seat, Adopt, OwnServers, Without, WithoutOwner, StoreNodes, KeyedNodes, PairSucceeds;
  }

  predicate Drops(step: Step, sid: ServerId) { step.Disable? || step == RemoveServer(sid) }

  /** Over any run of requests and provisionings a stored key stays until the mesh is disabled or the server removed. */
  lemma {:induction false} KeysStay(dbs: seq<Db>, steps: seq<Step>, i: nat, j: nat, sid: ServerId)
    requires IsRun(dbs, steps) && i <= j <= |steps| && sid in dbs[i].rows && dbs[i].rows[sid].key.Some?
    requires forall k | i <= k < j :: !Drops(steps[k], sid)
    ensures sid in dbs[j].rows && dbs[j].rows[sid].key == dbs[i].rows[sid].key
    decreases j
  {
    hide Sound, Next, Drops;
    if i < j {
      KeysStay(dbs, steps, i, j - 1, sid);
      RunsStaySound(dbs, steps, j - 1);
      LiveMeshIsOn(dbs[j - 1]);
      StepKeepsKey(dbs[j - 1], steps[j - 1], sid);
      assert dbs[j] == Next(dbs[j - 1], steps[j - 1]);
    }
  }

  lemma StepKeepsKey(db: Db, step: Step, sid: ServerId)
    requires db.cfg.enabled && sid in db.rows && db.rows[sid].key.Some? && !Drops(step, sid)
    ensures sid in Next(db, step).rows && Next(db, step).rows[sid].key == db.rows[sid].key
  {
    hide Provisioned, AddressPlan, Seat, Adopt, OwnServers, Without, WithoutOwner, StoreNodes, KeyedNodes, PairSucceeds;
  }

  predicate RowsAreHosts(db: Db) {
    db.rows != map[] ==>
      db.cfg.subnet.prefix <= 30
      && forall sid | sid in db.rows :: IsHost(ParseSubnet(db.cfg.subnet).value, db.rows[sid].ip)
  }

  /** A proposal that assigns hosts of the subnet it proposes, as the pairing core's does. */
  predicate PlansHosts(step: Step) {
    step.Propose? ==>
      step.plan.subnet.prefix <= 30
      && forall sid | sid in step.assign :: IsHost(ParseSubnet(step.plan.subnet).value, step.assign[sid])
  }

  /** In every reachable state every allocated address is a host of the configured subnet. */
  lemma {:induction false} RowsStayHosts(dbs: seq<Db>, steps: seq<Step>, j: nat)
    requires IsRun(dbs, steps) && j <= |steps|
    requires forall i | 0 <= i < |steps| :: PlansHosts(steps[i])
    ensures RowsAreHosts(dbs[j])
  {
    if j > 0 {
      RowsStayHosts(dbs, steps, j - 1);
      RunsStaySound(dbs, steps, j - 1);
      StepKeepsHosts(dbs[j - 1], steps[j - 1]);
    }
  }

  lemma EnableSeatsHosts(db: Db)
    requires Sound(db) && EnableSucceeds(db)
    ensures RowsAreHosts(Next(db, Enable))
  {
    hide Provisioned, Plan, Seat, IsHost, UniqueIps, Enabled;
    EnableHandsOut(db);
    var ss := Provisioned(db.servers);
    var db' := Next(db, Enable);
    forall sid | sid in db'.rows ensures IsHost(ParseSubnet(db.cfg.subnet).value, db'.rows[sid].ip) {
      var t :| t in ss && t.id == sid;
      var k :| 0 <= k < |ss| && ss[k] == t;
    }
  }

  lemma StepKeepsHosts(db: Db, step: Step)
    requires Sound(db) && RowsAreHosts(db) && PlansHosts(step)
    ensures RowsAreHosts(Next(db, step))
  {
    hide Provisioned, Plan, Seat, Adopt, OwnServers, Without, StoreNodes, IsHost;
    match step
    case Enable =>
      if EnableSucceeds(db) { EnableSeatsHosts(db); }
    case Propose(owner, _, plan, assign, nodes) =>
      if ProposeSucceeds(db, owner, assign) {
        AdoptRows(db.rows, OwnServers(db.servers), assign, plan.listenPort);
      }
    case _ =>
  }

  // ----- adopting another core's plan -----------------------------------------------------

  lemma {:induction false} AdoptRows(rows: map<ServerId, Row>, ss: seq<Server>, assign: map<ServerId, nat>, port: nat)
    requires forall s | s in ss :: s.id in assign
    requires rows == map[]
    ensures var after := Adopt(rows, ss, assign, port);
            forall sid | sid in after :: sid in assign && after[sid].ip == assign[sid]
  {
    if ss != [] { AdoptRows(rows, ss[..|ss| - 1], assign, port); }
  }

  predicate InjectiveOn(assign: map<ServerId, nat>, ss: seq<Server>)
    requires forall s | s in ss :: s.id in assign
  {
    forall i, j | 0 <= i < j < |ss| :: assign[ss[i].id] != assign[ss[j].id]
  }

  /**
   * A proposal seats every server of this core exactly when it assigns them pairwise different
   * addresses: the unique address column makes a repeated one push the earlier row out.
   */
  lemma {:induction false} ProposalSeatsAllIff(ss: seq<Server>, assign: map<ServerId, nat>, port: nat)
    requires forall s | s in ss :: s.id in assign
    requires DistinctIds(ss)
    ensures InjectiveOn(assign, ss) <==>
            forall i | 0 <= i < |ss| :: ss[i].id in Adopt(map[], ss, assign, port)
  {
    hide Adopt, InjectiveOn;
    if ss == [] {
      assert InjectiveOn(assign, ss) by { InjectiveEmpty(assign); }
    } else {
      var n := |ss| - 1;
      assert forall i | 0 <= i < n :: ss[..n][i] == ss[i];
      ProposalSeatsAllIff(ss[..n], assign, port);
      LastAdopted(ss, assign, port);
      InjectiveSplit(assign, ss);
    }
  }

  lemma InjectiveEmpty(assign: map<ServerId, nat>)
    ensures InjectiveOn(assign, [])
  {
  }

  lemma InjectiveSplit(assign: map<ServerId, nat>, ss: seq<Server>)
    requires ss != [] && forall s | s in ss :: s.id in assign
    ensures var n := |ss| - 1;
            InjectiveOn(assign, ss) <==>
            InjectiveOn(assign, ss[..n]) && forall i | 0 <= i < n :: assign[ss[i].id] != assign[ss[n].id]
  {
    var n := |ss| - 1;
    if InjectiveOn(assign, ss[..n]) && forall i | 0 <= i < n :: assign[ss[i].id] != assign[ss[n].id] {
      forall i, j | 0 <= i < j < |ss| ensures assign[ss[i].id] != assign[ss[j].id] {
        if j < n { assert assign[ss[..n][i].id] != assign[ss[..n][j].id]; }
      }
    }
    if InjectiveOn(assign, ss) {
      forall i, j | 0 <= i < j < n ensures assign[ss[..n][i].id] != assign[ss[..n][j].id] {
        assert assign[ss[i].id] != assign[ss[j].id];
      }
    }
  }

  lemma LastAdopted(ss: seq<Server>, assign: map<ServerId, nat>, port: nat)
    requires ss != [] && DistinctIds(ss) && forall s | s in ss :: s.id in assign
    ensures var n := |ss| - 1;
            (forall i | 0 <= i < |ss| :: ss[i].id in Adopt(map[], ss, assign, port)) <==>
            && (forall i | 0 <= i < n :: ss[i].id in Adopt(map[], ss[..n], assign, port))
            && (forall i | 0 <= i < n :: assign[ss[i].id] != assign[ss[n].id])
  {
    var n := |ss| - 1;
    var before := Adopt(map[], ss[..n], assign, port);
    var after := Adopt(map[], ss, assign, port);
    AdoptRows(map[], ss[..n], assign, port);
    assert after == Replace(before, ss[n].id, NewRow(ss[n], assign[ss[n].id], port));
    forall i | 0 <= i < n
      ensures ss[i].id in after <==> ss[i].id in before && assign[ss[i].id] != assign[ss[n].id]
    {
      assert ss[i].id != ss[n].id;
    }
  }

  /** Of the servers a proposal gives the same address, exactly the last one in seating order keeps it. */
  lemma {:induction false} LastAssigneeStays(ss: seq<Server>, assign: map<ServerId, nat>, port: nat, i: nat)
    requires i < |ss| && DistinctIds(ss) && forall s | s in ss :: s.id in assign
    ensures var rows := Adopt(map[], ss, assign, port);
            && (ss[i].id in rows <==> forall j | i < j < |ss| :: assign[ss[j].id] != assign[ss[i].id])
            && (ss[i].id in rows ==> rows[ss[i].id] == Row(assign[ss[i].id], ss[i].host, port, None, Pending))
  {
    var n := |ss| - 1;
    assert forall k | 0 <= k < n :: ss[..n][k] == ss[k];
    if i < n {
      LastAssigneeStays(ss[..n], assign, port, i);
      var before := Adopt(map[], ss[..n], assign, port);
      assert ss[i].id != ss[n].id;
      assert Adopt(map[], ss, assign, port) == Replace(before, ss[n].id, NewRow(ss[n], assign[ss[n].id], port));
    }
  }

  /** Tearing a pairing down removes what its proposal stored and nothing another core owns. */
  lemma TeardownUndoesNodes(db: Db, owner: ServerId, uid: string, plan: Config, assign: map<ServerId, nat>,
      nodes: seq<(string, External)>)
    requires forall k, u | 0 <= k < |nodes| && u in db.externals && db.externals[u].owner != owner :: nodes[k].0 != u
    ensures var db' := Next(Next(db, Propose(Some(owner), uid, plan, assign, nodes)), Teardown(Some(owner)));
            && (forall u | u in db'.externals :: db'.externals[u].owner != owner)
            && db'.externals == WithoutOwner(db.externals, owner)
            && db'.peerUids == db.peerUids - {owner}
  {
    hide Adopt, OwnServers, StoreNodes;
    var kept := WithoutOwner(db.externals, owner);
    forall k | 0 <= k < |nodes| ensures nodes[k].0 !in kept { }
    StoreThenDrop(kept, owner, nodes);
    assert WithoutOwner(kept, owner) == kept;
  }

  lemma {:induction false} StoreThenDrop(kept: map<string, External>, owner: ServerId, nodes: seq<(string, External)>)
    requires forall u | u in kept :: kept[u].owner != owner
    requires forall k | 0 <= k < |nodes| :: nodes[k].0 !in kept
    ensures WithoutOwner(StoreNodes(kept, owner, nodes), owner) == kept
  {
    if nodes == [] {
      assert WithoutOwner(kept, owner) == kept;
    } else {
      var n := |nodes| - 1;
      StoreThenDrop(kept, owner, nodes[..n]);
      var before := StoreNodes(kept, owner, nodes[..n]);
      var after := before[nodes[n].0 := nodes[n].1.(owner := owner)];
      assert WithoutOwner(before, owner) == kept;
      forall u | u in after && after[u].owner != owner ensures u in kept && kept[u] == after[u] {
        assert u in before && before[u] == after[u];
        assert u in WithoutOwner(before, owner);
      }
      forall u | u in kept ensures u in after && after[u] == kept[u] {
        assert u in WithoutOwner(before, owner);
      }
      assert WithoutOwner(after, owner) == kept;
    }
  }

  // ----- pairing two cores ----------------------------------------------------------------

  function ExternalIps(ext: map<string, External>): set<nat> { set u | u in ext :: ext[u].ip }

  /** The owner's plan for a remote core's nodes: free addresses of the owner's own subnet. */
  function PairPlan(owner: Db, n: nat): Option<seq<nat>>
    requires owner.cfg.subnet.prefix <= 30
  {
    var s := ParseSubnet(owner.cfg.subnet).value;
    Plan(FirstHost(s), LastHost(s), UsedIps(owner.rows) + ExternalIps(owner.externals), n)
  }

  function Assignments(ss: seq<Server>, ips: seq<nat>): map<ServerId, nat>
    requires |ss| == |ips|
  {
    if ss == [] then map[]
    else Assignments(ss[..|ss| - 1], ips[..|ss| - 1])[ss[|ss| - 1].id := ips[|ss| - 1]]
  }

  lemma {:induction false} AssignmentFacts(ss: seq<Server>, ips: seq<nat>)
    requires |ss| == |ips| && DistinctIds(ss)
    ensures forall i | 0 <= i < |ss| :: ss[i].id in Assignments(ss, ips) && Assignments(ss, ips)[ss[i].id] == ips[i]
    ensures forall sid | sid in Assignments(ss, ips) :: Assignments(ss, ips)[sid] in ips
  {
    if ss != [] {
      var n := |ss| - 1;
      AssignmentFacts(ss[..n], ips[..n]);
      forall i | 0 <= i < n
        ensures ss[i].id in Assignments(ss, ips) && Assignments(ss, ips)[ss[i].id] == ips[i]
      {
        assert ss[..n][i] == ss[i] && ips[..n][i] == ips[i];
      }
      forall sid | sid in Assignments(ss, ips) ensures Assignments(ss, ips)[sid] in ips {
        if sid == ss[n].id {
          assert ips[n] in ips;
        } else {
          assert Assignments(ss[..n], ips[..n])[sid] in ips[..n];
        }
      }
    }
  }

  /**
   * Pairing: when the owner's plan fits, the remote core, with its mesh off, seats every one of
   * its nodes, inside the owner's subnet, on addresses no two nodes of the two cores share.
   */
  lemma PairedMeshesAreDisjoint(owner: Db, remote: Db, peer: ServerId, uid: string, nodes: seq<(string, External)>)
    requires Sound(owner) && owner.cfg.enabled && owner.cfg.subnet.prefix <= 30
    requires Sound(remote) && !remote.cfg.enabled
    requires PairPlan(owner, |OwnServers(remote.servers)|).Some?
    ensures var ss := OwnServers(remote.servers);
            var ips := PairPlan(owner, |ss|).value;
            |ips| == |ss| &&
            var remote' := Next(remote, Propose(Some(peer), uid, owner.cfg, Assignments(ss, ips), nodes));
            && remote'.cfg == owner.cfg
            && (forall s | s in ss :: s.id in remote'.rows)
            && UniqueIps(remote'.rows)
            && forall sid | sid in remote'.rows ::
                 && IsHost(ParseSubnet(owner.cfg.subnet).value, remote'.rows[sid].ip)
                 && remote'.rows[sid].ip !in UsedIps(owner.rows) + ExternalIps(owner.externals)
  {
    hide OwnServers, Plan, Adopt, Assignments, LowestFree, StoreNodes;
    var ss := OwnServers(remote.servers);
    var s := ParseSubnet(owner.cfg.subnet).value;
    var used := UsedIps(owner.rows) + ExternalIps(owner.externals);
    PlanIsFresh(FirstHost(s), LastHost(s), used, |ss|);
    var ips := PairPlan(owner, |ss|).value;
    OwnDistinct(remote.servers);
    AssignmentFacts(ss, ips);
    var assign := Assignments(ss, ips);
    forall t | t in ss ensures t.id in assign {
      var i :| 0 <= i < |ss| && ss[i] == t;
    }
    ProposalSeatsAllIff(ss, assign, owner.cfg.listenPort);
    AdoptRows(map[], ss, assign, owner.cfg.listenPort);
    AdoptKeepsUnique(map[], ss, assign, owner.cfg.listenPort);
    var rows := Adopt(map[], ss, assign, owner.cfg.listenPort);
    forall sid | sid in rows ensures IsHost(s, rows[sid].ip) && rows[sid].ip !in used {
      assert assign[sid] in ips;
      var i :| 0 <= i < |ips| && ips[i] == assign[sid];
      assert ips[i] in Free(FirstHost(s), LastHost(s), used);
    }
    forall t | t in ss ensures t.id in rows {
      var i :| 0 <= i < |ss| && ss[i] == t;
    }
  }

  // ----- what each request stores ---------------------------------------------------------

  /**
   * A plan is stored exactly when its subnet and port can be used, the mesh is off and no address is
   * taken; each of the three values that was given replaces the old one, and nothing else changes.
   */
  lemma PutStores(db: Db, subnet: Option<Cidr>, port: Option<nat>, keepalive: Option<nat>)
    ensures var db' := Next(db, Put(subnet, port, keepalive));
            var ok := (subnet.Some? ==> subnet.value.prefix <= 30) && (port.Some? ==> port.value >= 1024)
                      && !db.cfg.enabled && db.rows == map[];
            && db' == db.(cfg := db'.cfg)
            && db'.cfg.enabled == db.cfg.enabled
            && db'.cfg.subnet == (if ok && subnet.Some? then subnet.value else db.cfg.subnet)
            && db'.cfg.listenPort == (if ok && port.Some? then port.value else db.cfg.listenPort)
            && db'.cfg.keepalive == (if ok && keepalive.Some? then keepalive.value else db.cfg.keepalive)
            && (PutAllowed(db, subnet, port) <==> ok)
  {
  }

  /** The last of the reported nodes with this id. */
  predicate LastOf(nodes: seq<(string, External)>, u: string, k: nat) {
    k < |nodes| && nodes[k].0 == u && forall j | k < j < |nodes| :: nodes[j].0 != u
  }

  lemma {:induction false} StoredNodes(kept: map<string, External>, owner: ServerId, nodes: seq<(string, External)>,
                                       u: string)
    ensures var after := StoreNodes(kept, owner, nodes);
            && ((forall k | 0 <= k < |nodes| :: nodes[k].0 != u) ==>
                  (u in after <==> u in kept) && (u in kept ==> after[u] == kept[u]))
            && (forall k | 0 <= k < |nodes| && LastOf(nodes, u, k) ::
                  u in after && after[u] == External(owner, nodes[k].1.ip, nodes[k].1.key))
  {
    hide LastOf;
    if nodes != [] {
      var n := |nodes| - 1;
      var before := nodes[..n];
      StoredNodes(kept, owner, before, u);
      assert StoreNodes(kept, owner, nodes)
          == StoreNodes(kept, owner, before)[nodes[n].0 := External(owner, nodes[n].1.ip, nodes[n].1.key)];
      forall k | 0 <= k < |nodes|
        ensures nodes[n].0 == u ==> (LastOf(nodes, u, k) <==> k == n)
        ensures nodes[n].0 != u ==> (LastOf(nodes, u, k) <==> k < n && LastOf(before, u, k))
      {
        LastOfSplit(nodes, u, k);
      }
      assert forall k | 0 <= k < n :: before[k] == nodes[k];
    }
  }

  lemma LastOfSplit(nodes: seq<(string, External)>, u: string, k: nat)
    requires nodes != [] && k < |nodes|
    ensures var n := |nodes| - 1;
            LastOf(nodes, u, k) <==> if nodes[n].0 == u then k == n else k < n && LastOf(nodes[..n], u, k)
  {
  }

  /**
   * A proposal is taken exactly when this core's mesh is off, the proposer is known and every own
   * server has an address. Then the plan is on, the proposer's nodes are the reported ones, later
   * entries winning, everybody else's stay, and its core id is recorded. Otherwise nothing changes.
   */
  lemma ProposeStores(db: Db, owner: Option<ServerId>, uid: string, plan: Config, assign: map<ServerId, nat>,
                      nodes: seq<(string, External)>, u: string)
    ensures var db' := Next(db, Propose(owner, uid, plan, assign, nodes));
            var ok := !db.cfg.enabled && owner.Some?
                      && forall s | s in db.servers && !s.isPeerCore :: s.id in assign;
            && (ProposeSucceeds(db, owner, assign) <==> ok)
            && db'.servers == db.servers
            && (!ok ==> db' == db)
            && (ok ==>
                  && db'.cfg == Config(true, plan.subnet, plan.listenPort, plan.keepalive)
                  && owner.value in db'.peerUids && db'.peerUids[owner.value] == uid
                  && db'.peerUids - {owner.value} == db.peerUids - {owner.value}
                  && Reported(db.externals, db'.externals, owner.value, nodes, u))
  {
    hide OwnServers, Adopt, StoreNodes, Reported;
    forall s ensures s in OwnServers(db.servers) <==> s in db.servers && !s.isPeerCore { OwnMember(db.servers, s); }
    if owner.Some? { NodesAreReported(db.externals, owner.value, nodes, u); }
  }

  /** The rows a taken proposal writes: each own server's host, the assigned address and the plan's port. */
  lemma ProposalWritesRows(db: Db, owner: Option<ServerId>, uid: string, plan: Config, assign: map<ServerId, nat>,
                           nodes: seq<(string, External)>, i: nat)
    requires Sound(db) && ProposeSucceeds(db, owner, assign) && i < |OwnServers(db.servers)|
    ensures var ss, rows := OwnServers(db.servers), Next(db, Propose(owner, uid, plan, assign, nodes)).rows;
            && (ss[i].id in rows <==> forall j | i < j < |ss| :: assign[ss[j].id] != assign[ss[i].id])
            && (ss[i].id in rows ==>
                  rows[ss[i].id] == Row(assign[ss[i].id], ss[i].host, plan.listenPort, None, Pending))
  {
    hide OwnServers, Adopt, StoreNodes, UniqueIps;
    OwnDistinct(db.servers);
    LastAssigneeStays(OwnServers(db.servers), assign, plan.listenPort, i);
  }

  /** For the id `u`: what the owner reported last, or else whatever another owner had there. */
  predicate Reported(before: map<string, External>, after: map<string, External>, owner: ServerId,
                     nodes: seq<(string, External)>, u: string)
  {
    && ((forall k | 0 <= k < |nodes| :: nodes[k].0 != u) ==>
          (u in after <==> u in before && before[u].owner != owner) && (u in after ==> after[u] == before[u]))
    && (forall k | 0 <= k < |nodes| && LastOf(nodes, u, k) ::
          u in after && after[u] == External(owner, nodes[k].1.ip, nodes[k].1.key))
  }

  lemma NodesAreReported(ext: map<string, External>, owner: ServerId, nodes: seq<(string, External)>, u: string)
    ensures Reported(ext, StoreNodes(WithoutOwner(ext, owner), owner, nodes), owner, nodes, u)
  {
    StoredNodes(WithoutOwner(ext, owner), owner, nodes, u);
  }

  /** The last of the reported nodes with this id that have a key. */
  predicate LastKeyed(nodes: seq<(string, External)>, u: string, k: nat) {
    && k < |nodes| && nodes[k].0 == u && nodes[k].1.key.Some?
    && forall j | k < j < |nodes| && nodes[j].0 == u :: nodes[j].1.key.None?
  }

  predicate KeyedReported(before: map<string, External>, after: map<string, External>, owner: ServerId,
                          nodes: seq<(string, External)>, u: string)
  {
    && ((forall k | 0 <= k < |nodes| && nodes[k].0 == u :: nodes[k].1.key.None?) ==>
          (u in after <==> u in before && before[u].owner != owner) && (u in after ==> after[u] == before[u]))
    && (forall k | 0 <= k < |nodes| && LastKeyed(nodes, u, k) ::
          u in after && after[u] == External(owner, nodes[k].1.ip, nodes[k].1.key))
  }

  lemma {:induction false} KeyedAreReported(ext: map<string, External>, owner: ServerId,
                                            nodes: seq<(string, External)>, u: string)
    ensures KeyedReported(ext, StoreNodes(WithoutOwner(ext, owner), owner, KeyedNodes(nodes)), owner, nodes, u)
  {
    hide LastKeyed, StoreNodes, KeyedNodes;
    if nodes == [] {
      NothingReported(ext, owner, u);
    } else {
      var n := |nodes| - 1;
      var before := nodes[..n];
      KeyedAreReported(ext, owner, before, u);
      StoreNext(WithoutOwner(ext, owner), owner, nodes, n);
      assert nodes[..n + 1] == nodes;
      forall k | 0 <= k < |nodes|
        ensures LastKeyed(nodes, u, k) <==>
                if nodes[n].0 == u && nodes[n].1.key.Some? then k == n else k < n && LastKeyed(before, u, k)
      {
        LastKeyedSplit(nodes, u, k);
      }
      assert forall k | 0 <= k < n :: before[k] == nodes[k];
    }
  }

  lemma NothingReported(ext: map<string, External>, owner: ServerId, u: string)
    ensures KeyedReported(ext, StoreNodes(WithoutOwner(ext, owner), owner, KeyedNodes([])), owner, [], u)
  {
  }

  lemma LastKeyedSplit(nodes: seq<(string, External)>, u: string, k: nat)
    requires nodes != [] && k < |nodes|
    ensures var n := |nodes| - 1;
            LastKeyed(nodes, u, k) <==>
            if nodes[n].0 == u && nodes[n].1.key.Some? then k == n else k < n && LastKeyed(nodes[..n], u, k)
  {
    var n := |nodes| - 1;
    if LastKeyed(nodes, u, k) && k < n { assert nodes[n].0 == u ==> nodes[n].1.key.None?; }
  }

  /**
   * A pairing is stored exactly when this core's mesh is on and all its nodes have keys. Then the
   * peer's nodes are the keyed ones it reported, the others' stay, and its core id is recorded.
   */
  lemma PairStores(db: Db, peer: ServerId, uid: string, nodes: seq<(string, External)>, u: string)
    ensures var db' := Next(db, Pair(peer, uid, nodes));
            var ok := db.cfg.enabled
                      && forall s | s in db.servers && !s.isPeerCore :: s.id in db.rows && db.rows[s.id].key.Some?;
            && (PairSucceeds(db) <==> ok)
            && db' == db.(externals := db'.externals, peerUids := db'.peerUids)
            && (!ok ==> db' == db)
            && (ok ==> db'.peerUids == db.peerUids[peer := uid]
                       && KeyedReported(db.externals, db'.externals, peer, nodes, u))
  {
    hide OwnServers, StoreNodes, KeyedReported, KeyedNodes;
    forall s ensures s in OwnServers(db.servers) <==> s in db.servers && !s.isPeerCore { OwnMember(db.servers, s); }
    KeyedAreReported(db.externals, peer, nodes, u);
  }

  /** Disabling drops all rows and the flag; tearing down drops exactly the peer's nodes and its id. */
  lemma DisableAndTeardown(db: Db, peer: Option<ServerId>, u: string)
    ensures Next(db, Disable)
         == Db(Config(false, db.cfg.subnet, db.cfg.listenPort, db.cfg.keepalive), db.servers, map[], db.externals,
               db.peerUids)
    ensures var db' := Next(db, Teardown(peer));
            && db' == db.(externals := db'.externals, peerUids := db'.peerUids)
            && (u in db'.externals <==> u in db.externals && !(peer == Some(db.externals[u].owner)))
            && (u in db'.externals ==> db'.externals[u] == db.externals[u])
            && db'.peerUids == db.peerUids - (if peer.Some? then {peer.value} else {})
  {
  }

  /** A server is added under a fresh id only; a removed one takes its row, its nodes and its core id along. */
  lemma ServersChange(db: Db, s: Server, sid: ServerId, u: string)
    ensures Next(db, AddServer(s))
         == if exists t | t in db.servers :: t.id == s.id then db else db.(servers := db.servers + [s])
    ensures var db' := Next(db, RemoveServer(sid));
            && db'.cfg == db.cfg && db'.rows == db.rows - {sid} && db'.peerUids == db.peerUids - {sid}
            && (s in db'.servers <==> s in db.servers && s.id != sid)
            && (u in db'.externals <==> u in db.externals && db.externals[u].owner != sid)
            && (u in db'.externals ==> db'.externals[u] == db.externals[u])
  {
    WithoutMember(db.servers, sid, s);
  }

  lemma {:induction false} WithoutMember(ss: seq<Server>, sid: ServerId, s: Server)
    ensures s in Without(ss, sid) <==> s in ss && s.id != sid
  {
    if ss != [] {
      WithoutMember(ss[1..], sid, s);
      assert s in ss <==> s == ss[0] || s in ss[1..];
    }
  }

  // ----- failing inputs -------------------------------------------------------------------

  /** A proposal that repeats an address: of the two servers only the second is seated. */
  lemma RepeatedAddressDropsServer(host: string, ip: nat, port: nat)
    ensures var ss := [Server(1, host, true, false), Server(2, host, false, false)];
            var rows := Adopt(map[], ss, map[1 := ip, 2 := ip], port);
            DistinctIds(ss) && 1 !in rows && 2 in rows
  {
    var ss := [Server(1, host, true, false), Server(2, host, false, false)];
    var assign := map[1 := ip, 2 := ip];
    LastAssigneeStays(ss, assign, port, 0);
    LastAssigneeStays(ss, assign, port, 1);
    assert ss[0].id == 1 && ss[1].id == 2;
  }
}
