/** What provisioning a mesh sends, is answered and makes of the peer rows (pier-core, api/network.rs). */
module ConfigurePlan {
  import opened Text
  import Mesh
  import WgRender

  type ServerId = Mesh.ServerId
  type Row = Mesh.Row

  /** What dispatching one helper operation can bring back. */
  datatype Reply =
    | Unreachable(why: string)
    | Answer(ok: bool, result: Option<Option<string>>, error: Option<string>)

  datatype Call = Install(sid: ServerId) | GenKey(sid: ServerId) | WriteConfig(sid: ServerId, text: string)
      | Up(sid: ServerId)

  /** A dispatched operation, the peer rows as they were when it was sent, and what came back. */
  datatype Sent = Sent(call: Call, rows: map<ServerId, Row>, reply: Reply)

  datatype NodeStatus = NodeKeyed | NodeActive | NodeError

  datatype NodeReport = NodeReport(sid: ServerId, status: NodeStatus)

  datatype Outcome = NotEnabled | NoPeers | Internal | Summary(ok: bool, nodes: seq<NodeReport>)

  /** The request's view of the mesh: configuration, peer order, and the paired cores' nodes. */
  datatype Plan = Plan(cfg: Mesh.Config, order: seq<ServerId>, names: map<ServerId, string>,
      externals: seq<WgRender.Node>)

  predicate Covers(plan: Plan, rows: map<ServerId, Row>) {
    && (forall i, j | 0 <= i < j < |plan.order| :: plan.order[i] != plan.order[j])
    && (forall i | 0 <= i < |plan.order| :: plan.order[i] in rows)
    && (forall sid | sid in rows :: sid in plan.order)
    && (forall sid | sid in rows :: sid in plan.names)
  }

  function RenderNode(sid: ServerId, name: string, row: Row): WgRender.Node {
    WgRender.Node(sid, name, row.key, Authority(row.host, row.port), row.ip)
  }

  /** `host:port`, with an IPv6 literal in brackets. */
  function Authority(host: string, port: nat): string {
    (if IsIpv6Literal(host) then "[" + host + "]" else host) + ":" + Decimal(port)
  }

  function Colons(s: string): nat { if s == "" then 0 else (if s[0] == ':' then 1 else 0) + Colons(s[1..]) }

  predicate IsIpv6Literal(host: string) {
    (exists i | 0 <= i < |host| - 1 :: host[i] == ':' == host[i + 1]) || (Colons(host) >= 2 && '.' !in host)
  }

  function RenderNodes(plan: Plan, rows: map<ServerId, Row>): seq<WgRender.Node>
    requires Covers(plan, rows)
  {
    seq(|plan.order|, i requires 0 <= i < |plan.order| =>
      RenderNode(plan.order[i], plan.names[plan.order[i]], rows[plan.order[i]])) + plan.externals
  }

  /** The text pushed to one node: its view of all nodes with the keys in `rows`. */
  function ConfigFor(plan: Plan, rows: map<ServerId, Row>, sid: ServerId): string
    requires Covers(plan, rows) && sid in rows
  {
    WgRender.Rendered(RenderNode(sid, plan.names[sid], rows[sid]), RenderNodes(plan, rows),
                      plan.cfg.listenPort, plan.cfg.keepalive)
  }

  predicate AllKeyed(rows: map<ServerId, Row>) { forall sid | sid in rows :: rows[sid].key.Some? }

  /** What phase 1 makes of a row: keyed rows stay as they are, the others get a key. */
  predicate Minted(before: Row, after: Row) {
    if before.key.Some? then after == before
    else after.key.Some? && after == before.(key := after.key, status := Mesh.Keyed)
  }

  /** Phase 1 has passed the first `n` nodes; the others are untouched. */
  predicate MintedTo(plan: Plan, before: map<ServerId, Row>, after: map<ServerId, Row>, n: nat)
    requires Covers(plan, before) && n <= |plan.order|
  {
    && after.Keys == before.Keys
    && (forall i | 0 <= i < n :: Minted(before[plan.order[i]], after[plan.order[i]]))
    && (forall i | n <= i < |plan.order| :: after[plan.order[i]] == before[plan.order[i]])
  }

  /** Phase 2 has passed the first `n` nodes; the others are as phase 1 left them. */
  predicate ActiveTo(plan: Plan, before: map<ServerId, Row>, after: map<ServerId, Row>, n: nat)
    requires Covers(plan, before) && n <= |plan.order|
  {
    && after.Keys == before.Keys
    && (forall i | 0 <= i < n :: after[plan.order[i]] == before[plan.order[i]].(status := Mesh.Active))
    && (forall i | n <= i < |plan.order| :: after[plan.order[i]] == before[plan.order[i]])
  }

  /** Only node `sid` differs, and only by being marked in error. */
  predicate MarkedOnly(before: map<ServerId, Row>, after: map<ServerId, Row>, sid: ServerId)
    requires sid in before
  {
    && after.Keys == before.Keys
    && (forall s | s in before && s != sid :: after[s] == before[s])
    && after[sid].status.Error? && after[sid] == before[sid].(status := after[sid].status)
  }

  function Reports(order: seq<ServerId>, n: nat, status: NodeStatus): (r: seq<NodeReport>)
    requires n <= |order|
    ensures |r| == n && forall i | 0 <= i < n :: r[i] == NodeReport(order[i], status)
  {
    if n == 0 then [] else Reports(order, n - 1, status) + [NodeReport(order[n - 1], status)]
  }

  /** A write sent while every node had a key, carrying all nodes and all those keys. */
  predicate WellSent(plan: Plan, sent: Sent) {
    sent.call.WriteConfig? ==>
      && Covers(plan, sent.rows) && AllKeyed(sent.rows) && sent.call.sid in sent.rows
      && sent.call.text == ConfigFor(plan, sent.rows, sent.call.sid)
  }

  predicate AllWellSent(plan: Plan, sent: seq<Sent>) { forall x | x in sent :: WellSent(plan, x) }

  // ----- the calls and their answers ------------------------------------------------------

  predicate Accepts(r: Reply) { r.Answer? && r.ok }

  predicate BringsKey(r: Reply, key: string) { Accepts(r) && r.result == Some(Some(key)) }

  /** The n-th answer of the network goes to the n-th call. */
  predicate Answers(sent: seq<Sent>, replies: nat -> Reply, from: nat) {
    forall k | 0 <= k < |sent| :: sent[k].reply == replies(from + k)
  }

  /** `first`, accepted, then `second`. */
  predicate Two(sent: seq<Sent>, first: Call, second: Call) {
    |sent| == 2 && sent[0].call == first && Accepts(sent[0].reply) && sent[1].call == second
  }

  predicate StopsAtFirst(sent: seq<Sent>, first: Call) {
    |sent| == 1 && sent[0].call == first && !Accepts(sent[0].reply)
  }

  /** Installed, and this key came back. */
  predicate MintedBy(sent: seq<Sent>, sid: ServerId, key: string) {
    Two(sent, Install(sid), GenKey(sid)) && BringsKey(sent[1].reply, key)
  }

  /** Refused, unreachable, or answered without a keypair. */
  predicate MintRefused(sent: seq<Sent>, sid: ServerId) {
    || StopsAtFirst(sent, Install(sid))
    || (Two(sent, Install(sid), GenKey(sid)) && (!Accepts(sent[1].reply) || sent[1].reply.result.None?))
  }

  /** Accepted, but the keypair has no public key. */
  predicate MintBroken(sent: seq<Sent>, sid: ServerId) {
    Two(sent, Install(sid), GenKey(sid)) && Accepts(sent[1].reply) && sent[1].reply.result == Some(None)
  }

  predicate PushedBy(sent: seq<Sent>, sid: ServerId, text: string) {
    Two(sent, WriteConfig(sid, text), Up(sid)) && Accepts(sent[1].reply)
  }

  predicate PushRefused(sent: seq<Sent>, sid: ServerId, text: string) {
    || StopsAtFirst(sent, WriteConfig(sid, text))
    || (Two(sent, WriteConfig(sid, text), Up(sid)) && !Accepts(sent[1].reply))
  }

  /** The nodes without a key among the first `n`, in order. */
  function Unkeyed(order: seq<ServerId>, rows: map<ServerId, Row>, n: nat): (u: seq<ServerId>)
    requires n <= |order| && forall i | 0 <= i < |order| :: order[i] in rows
    ensures |u| <= n
    ensures forall k | 0 <= k < |u| :: u[k] in order[..n] && u[k] in rows && rows[u[k]].key.None?
  {
    if n == 0 then []
    else
      assert forall k | 0 <= k < n - 1 :: order[..n - 1][k] == order[..n][k];
      var before := Unkeyed(order, rows, n - 1);
      if rows[order[n - 1]].key.None? then before + [order[n - 1]] else before
  }

  /** Two calls for each of the first `n` nodes that had no key, in order; each now has the key its node sent. */
  predicate MintScript(plan: Plan, before: map<ServerId, Row>, after: map<ServerId, Row>, sent: seq<Sent>, n: nat)
    requires Covers(plan, before) && n <= |plan.order|
  {
    var u := Unkeyed(plan.order, before, n);
    && |sent| == 2 * |u|
    && forall k | 0 <= k < |u| ::
         && u[k] in after && after[u[k]].key.Some?
         && MintedBy(sent[2 * k..2 * k + 2], u[k], after[u[k]].key.value)
  }

  /** Phase 1 up to node `n`, and the call of that node that ended it. */
  predicate StoppedMint(plan: Plan, before: map<ServerId, Row>, after: map<ServerId, Row>, sent: seq<Sent>, n: nat,
                        internal: bool)
    requires Covers(plan, before) && n < |plan.order|
  {
    var m := 2 * |Unkeyed(plan.order, before, n)|;
    && before[plan.order[n]].key.None?
    && m <= |sent| && MintScript(plan, before, after, sent[..m], n)
    && if internal then MintBroken(sent[m..], plan.order[n]) else MintRefused(sent[m..], plan.order[n])
  }

  /** Each of the first `n` nodes, in order, was written its configuration and brought up. */
  predicate PushScript(plan: Plan, rows: map<ServerId, Row>, sent: seq<Sent>, n: nat)
    requires Covers(plan, rows) && n <= |plan.order|
  {
    && |sent| == 2 * n
    && forall i | 0 <= i < n :: PushedBy(sent[2 * i..2 * i + 2], plan.order[i], ConfigFor(plan, rows, plan.order[i]))
  }

  predicate StoppedPush(plan: Plan, rows: map<ServerId, Row>, sent: seq<Sent>, n: nat)
    requires Covers(plan, rows) && n < |plan.order|
  {
    && 2 * n <= |sent| && PushScript(plan, rows, sent[..2 * n], n)
    && PushRefused(sent[2 * n..], plan.order[n], ConfigFor(plan, rows, plan.order[n]))
  }

  /** Everything a whole run needs from the network: `u` nodes to key, `n` nodes to bring up. */
  predicate AllWell(replies: nat -> Reply, from: nat, u: nat, n: nat) {
    && (forall k | 0 <= k < 2 * (u + n) :: IsAccepted(replies, from, k))
    && forall k | 0 <= k < u :: KeyArrives(replies, from, k)
  }

  predicate IsAccepted(replies: nat -> Reply, from: nat, k: nat) { Accepts(replies(from + k)) }

  /** The answer to the second call of the k-th node to key. */
  predicate KeyArrives(replies: nat -> Reply, from: nat, k: nat) { GivesKey(replies(from + (2 * k + 1))) }

  predicate GivesKey(r: Reply) { Accepts(r) && r.result.Some? && r.result.value.Some? }

  lemma NothingAnswered(replies: nat -> Reply, from: nat)
    ensures Answers([], replies, from)
  {
  }

  lemma AnswersAppend(a: seq<Sent>, b: seq<Sent>, replies: nat -> Reply, from: nat)
    requires Answers(a, replies, from) && Answers(b, replies, from + |a|)
    ensures Answers(a + b, replies, from)
  {
    forall k | 0 <= k < |a + b| ensures (a + b)[k].reply == replies(from + k) {
      if k >= |a| { assert b[k - |a|].reply == replies(from + |a| + (k - |a|)); }
    }
  }

  /** The node a call goes to. */
  function CallTo(c: Call): ServerId { c.sid }

  lemma MintCalls(sent: seq<Sent>, sid: ServerId)
    requires MintRefused(sent, sid) || MintBroken(sent, sid) || exists key :: MintedBy(sent, sid, key)
    ensures forall x | x in sent :: x.call == Install(sid) || x.call == GenKey(sid)
  {
  }

  lemma PushCalls(sent: seq<Sent>, sid: ServerId, text: string)
    requires PushedBy(sent, sid, text) || PushRefused(sent, sid, text)
    ensures sent != [] && sent[0].call == WriteConfig(sid, text)
    ensures forall x | x in sent[1..] :: x.call == Up(sid)
  {
  }

  // ----- how the scripts grow -------------------------------------------------------------

  lemma {:induction false} UnkeyedGrows(order: seq<ServerId>, rows: map<ServerId, Row>, n: nat, m: nat)
    requires n <= m <= |order| && forall i | 0 <= i < |order| :: order[i] in rows
    ensures |Unkeyed(order, rows, n)| <= |Unkeyed(order, rows, m)|
    ensures n < m && rows[order[n]].key.None? ==> |Unkeyed(order, rows, n)| < |Unkeyed(order, rows, m)|
    decreases m - n
  {
    if n < m { UnkeyedGrows(order, rows, n + 1, m); }
  }

  lemma MintScriptStart(plan: Plan, rows: map<ServerId, Row>)
    requires Covers(plan, rows)
    ensures MintScript(plan, rows, rows, [], 0)
  {
  }

  lemma MintScriptSkips(plan: Plan, before: map<ServerId, Row>, rows: map<ServerId, Row>, sent: seq<Sent>, n: nat)
    requires Covers(plan, before) && n < |plan.order| && MintScript(plan, before, rows, sent, n)
    requires before[plan.order[n]].key.Some?
    ensures MintScript(plan, before, rows, sent, n + 1)
  {
    hide MintedBy;
  }

  lemma MintScriptNext(plan: Plan, before: map<ServerId, Row>, rows: map<ServerId, Row>, after: map<ServerId, Row>,
                       sent: seq<Sent>, more: seq<Sent>, n: nat, key: string)
    requires Covers(plan, before) && n < |plan.order| && MintScript(plan, before, rows, sent, n)
    requires before[plan.order[n]].key.None? && MintedBy(more, plan.order[n], key)
    requires plan.order[n] in after && after[plan.order[n]].key == Some(key)
    requires forall s | s in rows && s != plan.order[n] :: s in after && after[s] == rows[s]
    ensures MintScript(plan, before, after, sent + more, n + 1)
  {
    hide MintedBy;
    var u, v := Unkeyed(plan.order, before, n), Unkeyed(plan.order, before, n + 1);
    assert v == u + [plan.order[n]];
    assert |more| == 2 by { MintedByTwo(more, plan.order[n], key); }
    forall k | 0 <= k < |v|
      ensures v[k] in after && after[v[k]].key.Some?
      ensures MintedBy((sent + more)[2 * k..2 * k + 2], v[k], after[v[k]].key.value)
    {
      if k < |u| {
        assert v[k] == u[k] && u[k] in plan.order[..n];
        var i :| 0 <= i < n && plan.order[i] == u[k];
        assert (sent + more)[2 * k..2 * k + 2] == sent[2 * k..2 * k + 2];
      } else {
        assert (sent + more)[2 * k..2 * k + 2] == more;
      }
    }
  }

  lemma MintedByTwo(sent: seq<Sent>, sid: ServerId, key: string)
    requires MintedBy(sent, sid, key)
    ensures |sent| == 2
  {
  }

  lemma MintStops(plan: Plan, before: map<ServerId, Row>, rows: map<ServerId, Row>, after: map<ServerId, Row>,
                  sent: seq<Sent>, more: seq<Sent>, n: nat, internal: bool)
    requires Covers(plan, before) && n < |plan.order| && MintScript(plan, before, rows, sent, n)
    requires before[plan.order[n]].key.None? && SameKeys(rows, after)
    requires if internal then MintBroken(more, plan.order[n]) else MintRefused(more, plan.order[n])
    ensures StoppedMint(plan, before, after, sent + more, n, internal)
  {
    hide MintedBy, MintBroken, MintRefused;
    assert (sent + more)[..|sent|] == sent && (sent + more)[|sent|..] == more;
    MintScriptSame(plan, before, rows, after, sent, n);
  }

  predicate SameKeys(rows: map<ServerId, Row>, after: map<ServerId, Row>) {
    after.Keys == rows.Keys && forall s | s in rows :: after[s].key == rows[s].key
  }

  /** The script speaks of keys only. */
  lemma MintScriptSame(plan: Plan, before: map<ServerId, Row>, rows: map<ServerId, Row>, after: map<ServerId, Row>,
                       sent: seq<Sent>, n: nat)
    requires Covers(plan, before) && n <= |plan.order| && MintScript(plan, before, rows, sent, n)
        && SameKeys(rows, after)
    ensures MintScript(plan, before, after, sent, n)
  {
    hide MintedBy;
  }

  /** A configuration depends on keys, addresses and endpoints only. */
  lemma ConfigSame(plan: Plan, a: map<ServerId, Row>, b: map<ServerId, Row>, sid: ServerId)
    requires Covers(plan, a) && Covers(plan, b) && Mesh.KeepsNodes(a, b) && AllKeyed(a) && sid in a
    ensures ConfigFor(plan, a, sid) == ConfigFor(plan, b, sid)
  {
    hide WgRender.Rendered, Authority;
    assert RenderNodes(plan, a) == RenderNodes(plan, b);
  }

  lemma PushScriptStart(plan: Plan, rows: map<ServerId, Row>)
    requires Covers(plan, rows)
    ensures PushScript(plan, rows, [], 0)
  {
  }

  lemma PushScriptNext(plan: Plan, rows: map<ServerId, Row>, sent: seq<Sent>, more: seq<Sent>, n: nat)
    requires Covers(plan, rows) && n < |plan.order| && PushScript(plan, rows, sent, n)
    requires PushedBy(more, plan.order[n], ConfigFor(plan, rows, plan.order[n]))
    ensures PushScript(plan, rows, sent + more, n + 1)
  {
    hide ConfigFor;
    forall i | 0 <= i < n + 1
      ensures PushedBy((sent + more)[2 * i..2 * i + 2], plan.order[i], ConfigFor(plan, rows, plan.order[i]))
    {
      if i < n {
        assert (sent + more)[2 * i..2 * i + 2] == sent[2 * i..2 * i + 2];
      } else {
        assert (sent + more)[2 * i..2 * i + 2] == more;
      }
    }
  }

  lemma PushStops(plan: Plan, rows: map<ServerId, Row>, sent: seq<Sent>, more: seq<Sent>, n: nat)
    requires Covers(plan, rows) && n < |plan.order| && PushScript(plan, rows, sent, n)
    requires PushRefused(more, plan.order[n], ConfigFor(plan, rows, plan.order[n]))
    ensures StoppedPush(plan, rows, sent + more, n)
  {
    hide ConfigFor, PushedBy, PushRefused;
    assert (sent + more)[..|sent|] == sent && (sent + more)[|sent|..] == more;
  }

  lemma PushScriptSame(plan: Plan, a: map<ServerId, Row>, b: map<ServerId, Row>, sent: seq<Sent>, n: nat)
    requires Covers(plan, a) && Covers(plan, b) && Mesh.KeepsNodes(a, b) && AllKeyed(a) && n <= |plan.order|
    requires PushScript(plan, a, sent, n)
    ensures PushScript(plan, b, sent, n)
  {
    hide ConfigFor, PushedBy;
    forall i | 0 <= i < n
      ensures PushedBy(sent[2 * i..2 * i + 2], plan.order[i], ConfigFor(plan, b, plan.order[i]))
    {
      ConfigSame(plan, a, b, plan.order[i]);
    }
  }

  lemma StoppedPushSame(plan: Plan, a: map<ServerId, Row>, b: map<ServerId, Row>, sent: seq<Sent>, n: nat)
    requires Covers(plan, a) && Covers(plan, b) && Mesh.KeepsNodes(a, b) && AllKeyed(a) && n < |plan.order|
    requires StoppedPush(plan, a, sent, n)
    ensures StoppedPush(plan, b, sent, n)
  {
    hide ConfigFor, PushedBy, PushScript, PushRefused;
    PushScriptSame(plan, a, b, sent[..2 * n], n);
    ConfigSame(plan, a, b, plan.order[n]);
  }

  // ----- what the scripts say about the network -------------------------------------------

  /** A finished phase 1: every call accepted, every key generation brought a key. */
  lemma MintScriptAccepts(plan: Plan, before: map<ServerId, Row>, after: map<ServerId, Row>, sent: seq<Sent>, n: nat)
    requires Covers(plan, before) && n <= |plan.order| && MintScript(plan, before, after, sent, n)
    ensures forall k | 0 <= k < |sent| :: Accepts(sent[k].reply)
    ensures forall k | 0 <= k < |Unkeyed(plan.order, before, n)| :: GivesKey(sent[2 * k + 1].reply)
  {
    var u := Unkeyed(plan.order, before, n);
    forall k | 0 <= k < |u|
      ensures Accepts(sent[2 * k].reply) && GivesKey(sent[2 * k + 1].reply)
    {
      var two := sent[2 * k..2 * k + 2];
      assert MintedBy(two, u[k], after[u[k]].key.value);
      assert two[0] == sent[2 * k] && two[1] == sent[2 * k + 1];
    }
    forall k | 0 <= k < |sent| ensures Accepts(sent[k].reply) {
      assert k == 2 * (k / 2) || k == 2 * (k / 2) + 1;
    }
  }

  lemma PushScriptAccepts(plan: Plan, rows: map<ServerId, Row>, sent: seq<Sent>, n: nat)
    requires Covers(plan, rows) && n <= |plan.order| && PushScript(plan, rows, sent, n)
    ensures forall k | 0 <= k < |sent| :: Accepts(sent[k].reply)
  {
    hide ConfigFor;
    forall i | 0 <= i < n ensures Accepts(sent[2 * i].reply) && Accepts(sent[2 * i + 1].reply) {
      var two := sent[2 * i..2 * i + 2];
      assert PushedBy(two, plan.order[i], ConfigFor(plan, rows, plan.order[i]));
      assert two[0] == sent[2 * i] && two[1] == sent[2 * i + 1];
    }
    forall k | 0 <= k < |sent| ensures Accepts(sent[k].reply) {
      assert k == 2 * (k / 2) || k == 2 * (k / 2) + 1;
    }
  }

  /** A whole successful run: phase 1 over all nodes, then phase 2 over all nodes. */
  predicate FullScript(plan: Plan, before: map<ServerId, Row>, after: map<ServerId, Row>, sent: seq<Sent>)
    requires Covers(plan, before) && Covers(plan, after)
  {
    var m := 2 * |Unkeyed(plan.order, before, |plan.order|)|;
    && m <= |sent| && MintScript(plan, before, after, sent[..m], |plan.order|)
    && PushScript(plan, after, sent[m..], |plan.order|)
  }

  /** Phase 1 over all nodes, then phase 2 up to the refusal at node `n`. */
  predicate HalfScript(plan: Plan, before: map<ServerId, Row>, after: map<ServerId, Row>, sent: seq<Sent>, n: nat)
    requires Covers(plan, before) && Covers(plan, after) && n < |plan.order|
  {
    var m := 2 * |Unkeyed(plan.order, before, |plan.order|)|;
    && m <= |sent| && MintScript(plan, before, after, sent[..m], |plan.order|)
    && StoppedPush(plan, after, sent[m..], n)
  }

  lemma FullScriptOf(plan: Plan, before: map<ServerId, Row>, minted: map<ServerId, Row>, after: map<ServerId, Row>,
                     minting: seq<Sent>, pushing: seq<Sent>)
    requires Covers(plan, before) && Covers(plan, minted) && Covers(plan, after)
    requires Mesh.KeepsNodes(minted, after) && AllKeyed(minted)
    requires MintScript(plan, before, minted, minting, |plan.order|) && PushScript(plan, minted, pushing, |plan.order|)
    ensures FullScript(plan, before, after, minting + pushing)
  {
    hide PushScript, MintedBy;
    assert (minting + pushing)[..|minting|] == minting && (minting + pushing)[|minting|..] == pushing;
    MintScriptSame(plan, before, minted, after, minting, |plan.order|);
    PushScriptSame(plan, minted, after, pushing, |plan.order|);
  }

  lemma HalfScriptOf(plan: Plan, before: map<ServerId, Row>, minted: map<ServerId, Row>, after: map<ServerId, Row>,
                     minting: seq<Sent>, pushing: seq<Sent>, n: nat)
    requires Covers(plan, before) && Covers(plan, minted) && Covers(plan, after) && n < |plan.order|
    requires Mesh.KeepsNodes(minted, after) && AllKeyed(minted)
    requires MintScript(plan, before, minted, minting, |plan.order|) && StoppedPush(plan, minted, pushing, n)
    ensures HalfScript(plan, before, after, minting + pushing, n)
  {
    hide StoppedPush, MintedBy;
    assert (minting + pushing)[..|minting|] == minting && (minting + pushing)[|minting|..] == pushing;
    MintScriptSame(plan, before, minted, after, minting, |plan.order|);
    StoppedPushSame(plan, minted, after, pushing, n);
  }

  /** Every answer it needed came, and it needed all of them. */
  lemma FullScriptIsWell(plan: Plan, before: map<ServerId, Row>, after: map<ServerId, Row>, sent: seq<Sent>,
                         replies: nat -> Reply, from: nat)
    requires Covers(plan, before) && Covers(plan, after) && FullScript(plan, before, after, sent)
    requires Answers(sent, replies, from)
    ensures AllWell(replies, from, |Unkeyed(plan.order, before, |plan.order|)|, |plan.order|)
  {
    hide MintScript, PushScript, Accepts, GivesKey;
    var u := |Unkeyed(plan.order, before, |plan.order|)|;
    var a, b := sent[..2 * u], sent[2 * u..];
    MintScriptAccepts(plan, before, after, a, |plan.order|);
    PushScriptAccepts(plan, after, b, |plan.order|);
    assert |b| == 2 * |plan.order| by { PushScriptLength(plan, after, b, |plan.order|); }
    forall k | 0 <= k < 2 * (u + |plan.order|) ensures IsAccepted(replies, from, k) {
      assert sent[k].reply == replies(from + k);
      assert if k < 2 * u then sent[k] == a[k] else sent[k] == b[k - 2 * u];
    }
    forall k | 0 <= k < u ensures KeyArrives(replies, from, k) {
      assert sent[2 * k + 1] == a[2 * k + 1];
      assert sent[2 * k + 1].reply == replies(from + (2 * k + 1));
    }
  }

  lemma PushScriptLength(plan: Plan, rows: map<ServerId, Row>, sent: seq<Sent>, n: nat)
    requires Covers(plan, rows) && n <= |plan.order| && PushScript(plan, rows, sent, n)
    ensures |sent| == 2 * n
  {
  }

  /** An unfinished phase 1 met an answer that a whole run cannot do with. */
  lemma StoppedMintIsNotWell(plan: Plan, before: map<ServerId, Row>, after: map<ServerId, Row>, sent: seq<Sent>, n: nat,
                             internal: bool, replies: nat -> Reply, from: nat)
    requires Covers(plan, before) && n < |plan.order| && StoppedMint(plan, before, after, sent, n, internal)
    requires Answers(sent, replies, from)
    ensures !AllWell(replies, from, |Unkeyed(plan.order, before, |plan.order|)|, |plan.order|)
  {
    hide MintScript;
    var u, m := |Unkeyed(plan.order, before, |plan.order|)|, |Unkeyed(plan.order, before, n)|;
    UnkeyedGrows(plan.order, before, n, |plan.order|);
    var tail := sent[2 * m..];
    var last := |sent| - 1;
    assert tail[|tail| - 1] == sent[last];
    assert sent[last].reply == replies(from + last);
    assert IsAccepted(replies, from, last) == Accepts(sent[last].reply);
    if |tail| == 2 {
      assert last == 2 * m + 1;
      assert KeyArrives(replies, from, m) == GivesKey(sent[last].reply);
    }
  }

  lemma HalfScriptIsNotWell(plan: Plan, before: map<ServerId, Row>, after: map<ServerId, Row>, sent: seq<Sent>, n: nat,
                            replies: nat -> Reply, from: nat)
    requires Covers(plan, before) && Covers(plan, after) && n < |plan.order| && HalfScript(plan, before, after, sent, n)
    requires Answers(sent, replies, from)
    ensures !AllWell(replies, from, |Unkeyed(plan.order, before, |plan.order|)|, |plan.order|)
  {
    hide MintScript, PushScript, ConfigFor;
    var m := 2 * |Unkeyed(plan.order, before, |plan.order|)|;
    var tail := sent[m..][2 * n..];
    var last := |sent| - 1;
    assert tail[|tail| - 1] == sent[last];
    assert sent[last].reply == replies(from + last);
    assert last < m + 2 * |plan.order|;
    assert IsAccepted(replies, from, last) == Accepts(sent[last].reply);
  }
}
