/** Provisioning every node of an enabled mesh: `configure_mesh` of pier-core (api/network.rs). */
module Configure {
  import opened Text
  import Mesh
  import WgRender
  import opened ConfigurePlan

  /** The report while phase 2 runs: active up to `n`, keyed from there. */
  function PushReport(order: seq<ServerId>, n: nat): seq<NodeReport>
    requires n <= |order|
  {
    Reports(order, n, NodeActive) + Reports(order, |order|, NodeKeyed)[n..]
  }

  class Provisioner {
    var rows: map<ServerId, Row>
    var calls: nat
    ghost var log: seq<Sent>

    constructor (rows: map<ServerId, Row>)
      ensures this.rows == rows && calls == 0 && log == []
    {
      this.rows, calls, log := rows, 0, [];
    }

    /** Sends one operation; the n-th answer of the network is `replies(n)`. */
    method Dispatch(call: Call, replies: nat -> Reply) returns (r: Reply)
      modifies this
      ensures rows == old(rows) && r == replies(old(calls)) && calls == old(calls) + 1
      ensures log == old(log) + [Sent(call, rows, r)]
    {
      r := replies(calls);
      calls := calls + 1;
      log := log + [Sent(call, rows, r)];
    }

    method MarkError(sid: ServerId, why: string)
      modifies this`rows
      requires sid in rows
      ensures rows == old(rows)[sid := old(rows)[sid].(status := Mesh.Error(why))]
      ensures MarkedOnly(old(rows), rows, sid)
    {
      rows := rows[sid := rows[sid].(status := Mesh.Error(why))];
    }

    /** Install and key one node. A reply without a key field ends the request without a mark. */
    method Mint(sid: ServerId, replies: nat -> Reply) returns (ok: bool, internal: bool, ghost sent: seq<Sent>)
      requires sid in rows && rows[sid].key.None?
      modifies this
      // the node's own key when both calls are accepted and bring one
      ensures ok ==> !internal && exists key ::
                MintedBy(sent, sid, key)
                && rows == old(rows)[sid := old(rows)[sid].(key := Some(key), status := Mesh.Keyed)]
      ensures !ok && !internal ==> MintRefused(sent, sid) && MarkedOnly(old(rows), rows, sid)
      ensures internal ==> MintBroken(sent, sid) && rows == old(rows)
      ensures log == old(log) + sent && calls == old(calls) + |sent| && Answers(sent, replies, old(calls))
    {
      ok, internal := false, false;
      var r := Dispatch(Install(sid), replies);
      sent := [Sent(Install(sid), rows, r)];
      if r.Unreachable? {
        MarkError(sid, "install_wireguard transport: " + r.why);
        return;
      }
      if !r.ok {
        MarkError(sid, "install_wireguard: " + (if r.error.Some? then r.error.value else "install rejected"));
        return;
      }
      r := Dispatch(GenKey(sid), replies);
      sent := sent + [Sent(GenKey(sid), rows, r)];
      if r.Unreachable? {
        MarkError(sid, "generate_keypair transport: " + r.why);
        return;
      }
      if !r.ok || r.result.None? {
        MarkError(sid, "generate_keypair: " + (if r.error.Some? then r.error.value else "no keypair returned"));
        return;
      }
      if r.result.value.None? {
        internal := true;
        return;
      }
      rows := rows[sid := rows[sid].(key := Some(r.result.value.value), status := Mesh.Keyed)];
      ok := true;
    }

    /** Write one node's configuration and bring it up. */
    method Push(sid: ServerId, text: string, replies: nat -> Reply) returns (ok: bool, ghost sent: seq<Sent>)
      requires sid in rows
      modifies this
      ensures ok <==> |sent| == 2 && Accepts(sent[0].reply) && Accepts(sent[1].reply)
      ensures ok ==> PushedBy(sent, sid, text) && rows == old(rows)[sid := old(rows)[sid].(status := Mesh.Active)]
      ensures !ok ==> PushRefused(sent, sid, text) && MarkedOnly(old(rows), rows, sid)
      ensures log == old(log) + sent && calls == old(calls) + |sent| && Answers(sent, replies, old(calls))
      ensures sent != [] && sent[0].rows == old(rows)
    {
      ok := false;
      var r := Dispatch(WriteConfig(sid, text), replies);
      sent := [Sent(WriteConfig(sid, text), rows, r)];
      if r.Unreachable? {
        MarkError(sid, "write_config transport: " + r.why);
        return;
      }
      if !r.ok {
        MarkError(sid, "write_config: " + (if r.error.Some? then r.error.value else "write_config rejected"));
        return;
      }
      r := Dispatch(Up(sid), replies);
      sent := sent + [Sent(Up(sid), rows, r)];
      if r.Unreachable? {
        MarkError(sid, "up transport: " + r.why);
        return;
      }
      if !r.ok {
        MarkError(sid, "up: " + (if r.error.Some? then r.error.value else "up rejected"));
        return;
      }
      rows := rows[sid := rows[sid].(status := Mesh.Active)];
      ok := true;
    }

    /** Phase 1 over the peers in order; `n` is how many were keyed before it ended. */
    method MintAll(plan: Plan, replies: nat -> Reply)
      returns (n: nat, internal: bool, report: seq<NodeReport>, ghost sent: seq<Sent>)
      requires Covers(plan, rows)
      modifies this
      ensures n <= |plan.order|
      ensures n == |plan.order| ==> !internal && MintedTo(plan, old(rows), rows, n)
      ensures n < |plan.order| ==> FailedMint(plan, old(rows), rows, n, internal)
      // two accepted calls for each node without a key, none for the others, and the call that ended it
      ensures n == |plan.order| ==> MintScript(plan, old(rows), rows, sent, n)
      ensures n < |plan.order| ==> StoppedMint(plan, old(rows), rows, sent, n, internal)
      ensures report == Reports(plan.order, n, NodeKeyed)
                        + (if n < |plan.order| && !internal then [NodeReport(plan.order[n], NodeError)] else [])
      ensures log == old(log) + sent && forall x | x in sent :: x.call.Install? || x.call.GenKey?
      ensures calls == old(calls) + |sent| && Answers(sent, replies, old(calls))
    {
      hide Covers, MintedTo, MarkedOnly, Minted, MintScript, StoppedMint, MintedBy, MintRefused, MintBroken, Answers,
        Unkeyed, Reports, SameKeys, FailedMint;
      n, internal, report, sent := 0, false, [], [];
      MintedToStart(plan, rows);
      MintScriptStart(plan, rows);
      NothingAnswered(replies, calls);
      while n < |plan.order|
        invariant n <= |plan.order| && !internal && MintedTo(plan, old(rows), rows, n)
        invariant report == Reports(plan.order, n, NodeKeyed)
        invariant MintScript(plan, old(rows), rows, sent, n)
        invariant log == old(log) + sent && forall x | x in sent :: x.call.Install? || x.call.GenKey?
        invariant calls == old(calls) + |sent| && Answers(sent, replies, old(calls))
      {
        var sid := plan.order[n];
        MintedToNext(plan, old(rows), rows, n);
        if rows[sid].key.None? {
          ghost var before := rows;
          var ok;
          ghost var more;
          ok, internal, more := Mint(sid, replies);
          AnswersAppend(sent, more, replies, old(calls));
          MintCalls(more, sid);
          if !ok {
            UnkeyedStays(before, rows, sid, internal);
            MintStops(plan, old(rows), before, rows, sent, more, n, internal);
            sent := sent + more;
            if !internal {
              report := report + [NodeReport(sid, NodeError)];
            }
            assert FailedMint(plan, old(rows), rows, n, internal)
                by { FailsAt(plan, old(rows), before, rows, n, internal); }
            return;
          }
          ghost var key :| MintedBy(more, sid, key)
                           && rows == before[sid := before[sid].(key := Some(key), status := Mesh.Keyed)];
          MintScriptNext(plan, old(rows), before, rows, sent, more, n, key);
          sent := sent + more;
        } else {
          MintScriptSkips(plan, old(rows), rows, sent, n);
        }
        report := report + [NodeReport(sid, NodeKeyed)];
        n := n + 1;
      }
    }

    /** Phase 2: write and bring up; stops at the first node that fails. */
    method PushAll(plan: Plan, replies: nat -> Reply, keyed: seq<NodeReport>)
      returns (n: nat, report: seq<NodeReport>, ghost sent: seq<Sent>)
      requires Covers(plan, rows) && AllKeyed(rows)
      requires keyed == PushReport(plan.order, 0)
      modifies this
      ensures n <= |plan.order|
      ensures n == |plan.order| ==> ActiveTo(plan, old(rows), rows, n) && PushScript(plan, old(rows), sent, n)
      ensures n < |plan.order| ==> FailedPush(plan, old(rows), rows, n) && StoppedPush(plan, old(rows), sent, n)
      ensures report == PushReport(plan.order, n)
                        + (if n < |plan.order| then [NodeReport(plan.order[n], NodeError)] else [])
      ensures log == old(log) + sent && AllWellSent(plan, sent)
      ensures calls == old(calls) + |sent| && Answers(sent, replies, old(calls))
    {
      hide Covers, ActiveTo, MarkedOnly, ConfigFor, AllKeyed, WellSent, AllWellSent, PushReport, FailedPush,
        PushScript, StoppedPush, PushedBy, PushRefused, Answers, Mesh.KeepsNodes, Accepts, WgRender.Rendered;
      n, report, sent := 0, keyed, [];
      ActiveToStart(plan, rows);
      PushScriptStart(plan, rows);
      NothingAnswered(replies, calls);
      NothingSent(plan);
      while n < |plan.order|
        invariant n <= |plan.order| && ActiveTo(plan, old(rows), rows, n)
        invariant report == PushReport(plan.order, n)
        invariant PushScript(plan, old(rows), sent, n)
        invariant log == old(log) + sent && AllWellSent(plan, sent)
        invariant calls == old(calls) + |sent| && Answers(sent, replies, old(calls))
      {
        var sid := plan.order[n];
        ActiveToNext(plan, old(rows), rows, n);
        var text := Render(plan, rows, sid);
        ghost var before := rows;
        var ok, more := Push(sid, text, replies);
        AnswersAppend(sent, more, replies, old(calls));
        PushGoesOn(plan, old(rows), before, rows, sent, more, n, ok);
        sent := sent + more;
        if !ok {
          report := report + [NodeReport(sid, NodeError)];
          return;
        }
        PushReportNext(plan, before, n);
        report := MarkActive(report, sid, n);
        n := n + 1;
      }
    }

    static method Render(plan: Plan, rows: map<ServerId, Row>, sid: ServerId) returns (text: string)
      requires Covers(plan, rows) && sid in rows
      ensures text == ConfigFor(plan, rows, sid)
    {
      text := WgRender.RenderWgConf(RenderNode(sid, plan.names[sid], rows[sid]), RenderNodes(plan, rows),
                                    plan.cfg.listenPort, plan.cfg.keepalive);
    }

    /** Replaces the entry of `sid`, which is the first one with that id. */
    static method MarkActive(report: seq<NodeReport>, sid: ServerId, ghost at: nat) returns (r: seq<NodeReport>)
      requires at < |report| && report[at].sid == sid && forall i | 0 <= i < at :: report[i].sid != sid
      ensures r == report[at := NodeReport(sid, NodeActive)]
    {
      var i := 0;
      while report[i].sid != sid
        invariant 0 <= i <= at
        decreases at - i
      {
        i := i + 1;
      }
      r := report[i := NodeReport(sid, NodeActive)];
    }

    method ConfigureMesh(plan: Plan, replies: nat -> Reply) returns (out: Outcome, ghost sent: seq<Sent>)
      requires Covers(plan, rows)
      modifies this
      ensures out.NotEnabled? <==> !plan.cfg.enabled
      ensures out.NoPeers? <==> plan.cfg.enabled && plan.order == []
      ensures out.NotEnabled? || out.NoPeers? ==> rows == old(rows) && sent == []
      // every outcome: the same nodes, and no stored key ever replaced
      ensures Covers(plan, rows) && Mesh.KeepsNodes(old(rows), rows)
      // success: every node active, and listed exactly once
      ensures out.Summary? && out.ok ==>
                && out.nodes == Reports(plan.order, |plan.order|, NodeActive)
                && AllKeyed(rows) && (forall sid | sid in rows :: rows[sid].status == Mesh.Active)
                && FullScript(plan, old(rows), rows, sent)
      // abort or internal error: at some node n, as Aborted and FailedMint spell out
      ensures out.Summary? && !out.ok ==>
                exists n | 0 <= n < |plan.order| :: Aborted(plan, old(rows), rows, n, out.nodes, sent)
      ensures out.Internal? ==>
                exists n | 0 <= n < |plan.order| ::
                  FailedMint(plan, old(rows), rows, n, true) && StoppedMint(plan, old(rows), rows, sent, n, true)
      // the answers decide: ok exactly when all that a whole run needs are accepted
      ensures calls == old(calls) + |sent| && Answers(sent, replies, old(calls))
      ensures plan.cfg.enabled && plan.order != [] ==>
                (out.Summary? && out.ok <==>
                 AllWell(replies, old(calls), |Unkeyed(plan.order, old(rows), |plan.order|)|, |plan.order|))
      // nothing is written to any node before every node has a key
      ensures log == old(log) + sent && AllWellSent(plan, sent)
    {
      hide Covers, MintedTo, ActiveTo, ConfigFor, AllKeyed, Mesh.KeepsNodes, FailedMint, FailedPush, WellSent,
        AllWellSent, PushReport, Aborted, Reports, MintScript, StoppedMint, PushScript, StoppedPush, FullScript,
        HalfScript, AllWell, Answers, Unkeyed;
      sent := [];
      NothingSent(plan);
      NothingAnswered(replies, calls);
      if !plan.cfg.enabled {
        KeepsItself(rows);
        return NotEnabled, sent;
      }
      if plan.order == [] {
        KeepsItself(rows);
        return NoPeers, sent;
      }
      ghost var start := rows;
      var n, internal, keyed, minting := MintAll(plan, replies);
      sent := minting;
      MintingWellSent(plan, minting);
      if n < |plan.order| {
        FailedMintKeeps(plan, start, rows, n, internal);
        StoppedMintIsNotWell(plan, start, rows, sent, n, internal, replies, old(calls));
        if internal {
          return Internal, sent;
        }
        MintAborts(plan, start, rows, n, keyed, sent);
        return Summary(false, keyed), sent;
      }
      ghost var minted := rows;
      MintedAll(plan, start, minted);
      PushReportStart(plan.order);
      var m, report, pushing := PushAll(plan, replies, keyed);
      WellSentAppend(plan, minting, pushing);
      AnswersAppend(minting, pushing, replies, old(calls));
      sent := sent + pushing;
      if m < |plan.order| {
        FailedPushKeeps(plan, start, minted, rows, m);
        PushKeeps(plan, minted, rows, m);
        HalfScriptOf(plan, start, minted, rows, minting, pushing, m);
        HalfScriptIsNotWell(plan, start, rows, sent, m, replies, old(calls));
        PushAborts(plan, start, minted, rows, m, report, sent);
        return Summary(false, report), sent;
      }
      ActiveAll(plan, start, minted, rows);
      ActiveKeeps(plan, minted, rows, |plan.order|);
      FullScriptOf(plan, start, minted, rows, minting, pushing);
      FullScriptIsWell(plan, start, rows, sent, replies, old(calls));
      return Summary(true, report), sent;
    }
  }

  // ----- what an unfinished run leaves ----------------------------------------------------

  /** Phase 1 stopped at node `n`, which is marked unless the error was internal. */
  ghost predicate FailedMint(plan: Plan, before: map<ServerId, Row>, after: map<ServerId, Row>, n: nat, internal: bool)
    requires Covers(plan, before) && n < |plan.order|
  {
    exists mid :: MintedTo(plan, before, mid, n) && mid.Keys == before.Keys
                  && if internal then after == mid else MarkedOnly(mid, after, plan.order[n])
  }

  /** Phase 2 stopped at node `n`: those before are active, it is in error, the rest unchanged. */
  ghost predicate FailedPush(plan: Plan, before: map<ServerId, Row>, after: map<ServerId, Row>, n: nat)
    requires Covers(plan, before) && n < |plan.order|
  {
    exists mid :: ActiveTo(plan, before, mid, n) && mid.Keys == before.Keys && MarkedOnly(mid, after, plan.order[n])
  }

  /**
   * An abort at node `n`: in phase 1 the nodes before it are keyed and the rest untouched; in
   * phase 2 every node has been keyed, the nodes before `n` are active and the rest as phase 1
   * left them. Node `n` alone is newly in error, is reported last, and sent the last answer, a refusal.
   */
  ghost predicate Aborted(plan: Plan, before: map<ServerId, Row>, after: map<ServerId, Row>, n: nat,
                          report: seq<NodeReport>, sent: seq<Sent>)
    requires Covers(plan, before) && n < |plan.order|
  {
    var order := plan.order;
    || ( && report == Reports(order, n, NodeKeyed) + [NodeReport(order[n], NodeError)]
         && FailedMint(plan, before, after, n, false)
         && StoppedMint(plan, before, after, sent, n, false))
    || ( && report == PushReport(order, n) + [NodeReport(order[n], NodeError)]
         && Covers(plan, after) && HalfScript(plan, before, after, sent, n)
         && exists minted :: MintedTo(plan, before, minted, |order|) && Covers(plan, minted) && AllKeyed(minted)
                             && FailedPush(plan, minted, after, n))
  }

  /**
   * After an abort at node `n`: no other node is newly in error, the nodes before it are keyed or,
   * in phase 2, active, and in phase 2 the nodes after it are keyed too.
   */
  lemma AbortLeaves(plan: Plan, before: map<ServerId, Row>, after: map<ServerId, Row>, n: nat, report: seq<NodeReport>,
                    sent: seq<Sent>)
    requires Covers(plan, before) && n < |plan.order| && Aborted(plan, before, after, n, report, sent)
    ensures after.Keys == before.Keys && after[plan.order[n]].status.Error?
    ensures report[|report| - 1] == NodeReport(plan.order[n], NodeError)
    ensures sent != [] && CallTo(sent[|sent| - 1].call) == plan.order[n]
    ensures !Accepts(sent[|sent| - 1].reply) || (sent[|sent| - 1].call.GenKey? && sent[|sent| - 1].reply.result.None?)
    ensures forall i | 0 <= i < |plan.order| && i != n && after[plan.order[i]].status.Error? ::
              after[plan.order[i]] == before[plan.order[i]]
    ensures forall i | 0 <= i < n :: after[plan.order[i]].key.Some?
    ensures |report| > n + 1 ==> forall i | 0 <= i < |plan.order| && i != n ::
              after[plan.order[i]].key.Some? && (i < n ==> after[plan.order[i]].status == Mesh.Active)
  {
    hide Reports, PushReport, FailedMint, FailedPush, MintedTo, Covers, AllKeyed, StoppedMint, HalfScript, Accepts;
    var order := plan.order;
    PushReportLength(order, n);
    if FailedMint(plan, before, after, n, false) && StoppedMint(plan, before, after, sent, n, false)
       && report == Reports(order, n, NodeKeyed) + [NodeReport(order[n], NodeError)] {
      MintAbortLeaves(plan, before, after, n);
      MintAbortsLast(plan, before, after, n, sent);
    } else {
      PushAbortsLast(plan, before, after, n, sent);
      var minted :| MintedTo(plan, before, minted, |order|) && Covers(plan, minted) && AllKeyed(minted)
                    && FailedPush(plan, minted, after, n);
      PushAbortLeaves(plan, before, minted, after, n);
    }
  }

  /** The last answer of an unfinished phase 1 is node `n`'s, and no key came with it. */
  lemma MintAbortsLast(plan: Plan, before: map<ServerId, Row>, after: map<ServerId, Row>, n: nat, sent: seq<Sent>)
    requires Covers(plan, before) && n < |plan.order| && StoppedMint(plan, before, after, sent, n, false)
    ensures sent != [] && CallTo(sent[|sent| - 1].call) == plan.order[n]
    ensures !Accepts(sent[|sent| - 1].reply) || (sent[|sent| - 1].call.GenKey? && sent[|sent| - 1].reply.result.None?)
  {
    hide MintScript, Unkeyed;
    var m := 2 * |Unkeyed(plan.order, before, n)|;
    assert sent[m..][|sent| - m - 1] == sent[|sent| - 1];
  }

  lemma PushAbortsLast(plan: Plan, before: map<ServerId, Row>, after: map<ServerId, Row>, n: nat, sent: seq<Sent>)
    requires Covers(plan, before) && Covers(plan, after) && n < |plan.order| && HalfScript(plan, before, after, sent, n)
    ensures sent != [] && CallTo(sent[|sent| - 1].call) == plan.order[n] && !Accepts(sent[|sent| - 1].reply)
  {
    hide MintScript, PushScript, ConfigFor, Unkeyed;
    var m := 2 * |Unkeyed(plan.order, before, |plan.order|)|;
    var tail := sent[m..][2 * n..];
    assert tail[|tail| - 1] == sent[|sent| - 1];
  }

  lemma PushReportLength(order: seq<ServerId>, n: nat)
    requires n < |order|
    ensures |PushReport(order, n)| == |order| && |Reports(order, n, NodeKeyed)| == n
  {
  }

  lemma MarkedElsewhere(plan: Plan, mid: map<ServerId, Row>, after: map<ServerId, Row>, n: nat)
    requires Covers(plan, mid) && n < |plan.order| && MarkedOnly(mid, after, plan.order[n])
    ensures after.Keys == mid.Keys && after[plan.order[n]].status.Error?
    ensures forall i | 0 <= i < |plan.order| && i != n :: after[plan.order[i]] == mid[plan.order[i]]
  {
    forall i | 0 <= i < |plan.order| && i != n ensures after[plan.order[i]] == mid[plan.order[i]] {
      DistinctAt(plan, mid, i, n);
    }
  }

  lemma MintAbortLeaves(plan: Plan, before: map<ServerId, Row>, after: map<ServerId, Row>, n: nat)
    requires Covers(plan, before) && n < |plan.order| && FailedMint(plan, before, after, n, false)
    ensures after.Keys == before.Keys && after[plan.order[n]].status.Error?
    ensures forall i | 0 <= i < |plan.order| && i != n && after[plan.order[i]].status.Error? ::
              after[plan.order[i]] == before[plan.order[i]]
    ensures forall i | 0 <= i < n :: after[plan.order[i]].key.Some?
  {
    hide MarkedOnly;
    var mid :| MintedTo(plan, before, mid, n) && mid.Keys == before.Keys && MarkedOnly(mid, after, plan.order[n]);
    MintedKeeps(plan, before, mid, n);
    MarkedElsewhere(plan, mid, after, n);
    forall i | 0 <= i < |plan.order| && i != n
      ensures after[plan.order[i]].status.Error? ==> after[plan.order[i]] == before[plan.order[i]]
      ensures i < n ==> after[plan.order[i]].key.Some?
    {
      assert after[plan.order[i]] == mid[plan.order[i]];
      if i < n { assert Minted(before[plan.order[i]], mid[plan.order[i]]); }
    }
  }

  lemma PushAbortLeaves(plan: Plan, before: map<ServerId, Row>, minted: map<ServerId, Row>, after: map<ServerId, Row>,
      n: nat)
    requires Covers(plan, before) && n < |plan.order| && MintedTo(plan, before, minted, |plan.order|)
    requires Covers(plan, minted) && AllKeyed(minted) && FailedPush(plan, minted, after, n)
    ensures after.Keys == before.Keys && after[plan.order[n]].status.Error?
    ensures forall i | 0 <= i < |plan.order| && i != n && after[plan.order[i]].status.Error? ::
              after[plan.order[i]] == before[plan.order[i]]
    ensures forall i | 0 <= i < |plan.order| && i != n ::
              after[plan.order[i]].key.Some? && (i < n ==> after[plan.order[i]].status == Mesh.Active)
  {
    hide MarkedOnly;
    var mid :| ActiveTo(plan, minted, mid, n) && mid.Keys == minted.Keys && MarkedOnly(mid, after, plan.order[n]);
    ActiveKeeps(plan, minted, mid, n);
    MarkedElsewhere(plan, mid, after, n);
    forall i | 0 <= i < |plan.order| && i != n
      ensures after[plan.order[i]].status.Error? ==> after[plan.order[i]] == before[plan.order[i]]
      ensures after[plan.order[i]].key.Some? && (i < n ==> after[plan.order[i]].status == Mesh.Active)
    {
      assert after[plan.order[i]] == mid[plan.order[i]];
      assert Minted(before[plan.order[i]], minted[plan.order[i]]);
    }
  }

  lemma MintAborts(plan: Plan, before: map<ServerId, Row>, after: map<ServerId, Row>, n: nat, report: seq<NodeReport>,
                   sent: seq<Sent>)
    requires Covers(plan, before) && n < |plan.order| && FailedMint(plan, before, after, n, false)
    requires report == Reports(plan.order, n, NodeKeyed) + [NodeReport(plan.order[n], NodeError)]
    requires StoppedMint(plan, before, after, sent, n, false)
    ensures Aborted(plan, before, after, n, report, sent)
  {
    hide FailedMint, Covers, StoppedMint;
  }

  lemma PushAborts(plan: Plan, before: map<ServerId, Row>, minted: map<ServerId, Row>, after: map<ServerId, Row>,
                   n: nat, report: seq<NodeReport>, sent: seq<Sent>)
    requires Covers(plan, before) && Covers(plan, minted) && Covers(plan, after) && n < |plan.order|
    requires HalfScript(plan, before, after, sent, n)
    requires MintedTo(plan, before, minted, |plan.order|) && AllKeyed(minted) && FailedPush(plan, minted, after, n)
    requires report == PushReport(plan.order, n) + [NodeReport(plan.order[n], NodeError)]
    ensures Aborted(plan, before, after, n, report, sent)
  {
    hide FailedPush, FailedMint, Covers, MintedTo, AllKeyed, PushReport, HalfScript, StoppedMint;
  }

  lemma PushFailsAt(plan: Plan, start: map<ServerId, Row>, mid: map<ServerId, Row>, after: map<ServerId, Row>, n: nat)
    requires Covers(plan, start) && n < |plan.order| && ActiveTo(plan, start, mid, n) && mid.Keys == start.Keys
    requires plan.order[n] in mid && MarkedOnly(mid, after, plan.order[n])
    ensures FailedPush(plan, start, after, n)
  {
    hide ActiveTo, MarkedOnly, Covers;
  }

  lemma PushReportStart(order: seq<ServerId>)
    ensures PushReport(order, 0) == Reports(order, |order|, NodeKeyed)
    ensures PushReport(order, |order|) == Reports(order, |order|, NodeActive)
  {
    hide Reports;
  }

  lemma PushReportNext(plan: Plan, rows: map<ServerId, Row>, n: nat)
    requires Covers(plan, rows) && n < |plan.order|
    ensures var r := PushReport(plan.order, n);
            && n < |r| && r[n].sid == plan.order[n]
            && (forall i | 0 <= i < n :: r[i].sid != plan.order[n])
            && r[n := NodeReport(plan.order[n], NodeActive)] == PushReport(plan.order, n + 1)
  {
  }

  lemma NothingSent(plan: Plan)
    ensures AllWellSent(plan, [])
  {
  }

  lemma WellSentAppend(plan: Plan, a: seq<Sent>, b: seq<Sent>)
    requires AllWellSent(plan, a) && AllWellSent(plan, b)
    ensures AllWellSent(plan, a + b)
  {
    hide WellSent;
  }

  lemma MintingWellSent(plan: Plan, sent: seq<Sent>)
    requires forall x | x in sent :: x.call.Install? || x.call.GenKey?
    ensures AllWellSent(plan, sent)
  {
  }

  lemma PushWellSent(plan: Plan, rows: map<ServerId, Row>, sid: ServerId, sent: seq<Sent>, more: seq<Sent>)
    requires AllWellSent(plan, sent) && Covers(plan, rows) && AllKeyed(rows) && sid in rows
    requires more != [] && more[0].call == WriteConfig(sid, ConfigFor(plan, rows, sid)) && more[0].rows == rows
    requires forall x | x in more[1..] :: x.call == Up(sid)
    ensures AllWellSent(plan, sent + more)
  {
    hide ConfigFor, Covers, AllKeyed;
    assert forall x | x in more :: x == more[0] || x in more[1..];
  }

  /** One node of phase 2: the rows and the calls after it, whether it was accepted or refused. */
  lemma PushGoesOn(plan: Plan, start: map<ServerId, Row>, before: map<ServerId, Row>, after: map<ServerId, Row>,
                   sent: seq<Sent>, more: seq<Sent>, n: nat, ok: bool)
    requires Covers(plan, start) && AllKeyed(start) && n < |plan.order| && ActiveTo(plan, start, before, n)
    requires PushScript(plan, start, sent, n) && AllWellSent(plan, sent)
    requires Covers(plan, before) && plan.order[n] in before && more != [] && more[0].rows == before
    requires ok ==> PushedBy(more, plan.order[n], ConfigFor(plan, before, plan.order[n]))
                    && after == before[plan.order[n] := before[plan.order[n]].(status := Mesh.Active)]
    requires !ok ==> PushRefused(more, plan.order[n], ConfigFor(plan, before, plan.order[n]))
                     && MarkedOnly(before, after, plan.order[n])
    ensures AllWellSent(plan, sent + more)
    ensures ok ==> ActiveTo(plan, start, after, n + 1) && PushScript(plan, start, sent + more, n + 1)
    ensures !ok ==> FailedPush(plan, start, after, n) && StoppedPush(plan, start, sent + more, n)
  {
    hide Covers, ActiveTo, MarkedOnly, ConfigFor, AllKeyed, WellSent, AllWellSent, FailedPush, PushScript, StoppedPush,
      PushedBy, PushRefused, Mesh.KeepsNodes;
    var sid := plan.order[n];
    ActiveToNext(plan, start, before, n);
    ActiveKeeps(plan, start, before, n);
    ConfigSame(plan, start, before, sid);
    PushCalls(more, sid, ConfigFor(plan, before, sid));
    PushWellSent(plan, before, sid, sent, more);
    if ok {
      PushScriptNext(plan, start, sent, more, n);
    } else {
      PushStops(plan, start, sent, more, n);
      PushFailsAt(plan, start, before, after, n);
    }
  }

  lemma MintedToStart(plan: Plan, rows: map<ServerId, Row>)
    requires Covers(plan, rows)
    ensures MintedTo(plan, rows, rows, 0)
  {
  }

  lemma ActiveToStart(plan: Plan, rows: map<ServerId, Row>)
    requires Covers(plan, rows)
    ensures ActiveTo(plan, rows, rows, 0)
  {
  }

  lemma MintedToNext(plan: Plan, start: map<ServerId, Row>, rows: map<ServerId, Row>, n: nat)
    requires Covers(plan, start) && n < |plan.order| && MintedTo(plan, start, rows, n)
    ensures rows.Keys == start.Keys && plan.order[n] in rows && rows[plan.order[n]] == start[plan.order[n]]
    ensures rows[plan.order[n]].key.Some? ==> MintedTo(plan, start, rows, n + 1)
    ensures rows[plan.order[n]].key.None? ==>
              forall k ::
                var keyed := rows[plan.order[n]].(key := Some(k), status := Mesh.Keyed);
                MintedTo(plan, start, rows[plan.order[n] := keyed], n + 1)
  {
    var sid := plan.order[n];
    forall k | rows[sid].key.None?
      ensures MintedTo(plan, start, rows[sid := rows[sid].(key := Some(k), status := Mesh.Keyed)], n + 1)
    {
      var next := rows[sid := rows[sid].(key := Some(k), status := Mesh.Keyed)];
      assert next.Keys == rows.Keys;
      forall i | 0 <= i < |plan.order| && i != n ensures next[plan.order[i]] == rows[plan.order[i]] {
        assert plan.order[i] != sid by { DistinctAt(plan, start, i, n); }
      }
    }
  }

  lemma DistinctAt(plan: Plan, rows: map<ServerId, Row>, i: nat, j: nat)
    requires Covers(plan, rows) && i < |plan.order| && j < |plan.order| && i != j
    ensures plan.order[i] != plan.order[j]
  {
  }

  lemma FailsAt(plan: Plan, start: map<ServerId, Row>, mid: map<ServerId, Row>, after: map<ServerId, Row>, n: nat,
      internal: bool)
    requires Covers(plan, start) && n < |plan.order| && MintedTo(plan, start, mid, n) && mid.Keys == start.Keys
    requires plan.order[n] in mid
    requires if internal then after == mid else MarkedOnly(mid, after, plan.order[n])
    ensures FailedMint(plan, start, after, n, internal)
  {
  }

  lemma ActiveToNext(plan: Plan, start: map<ServerId, Row>, rows: map<ServerId, Row>, n: nat)
    requires Covers(plan, start) && AllKeyed(start) && n < |plan.order| && ActiveTo(plan, start, rows, n)
    ensures rows.Keys == start.Keys && plan.order[n] in rows && Covers(plan, rows) && AllKeyed(rows)
    ensures ActiveTo(plan, start, rows[plan.order[n] := rows[plan.order[n]].(status := Mesh.Active)], n + 1)
  {
    var sid := plan.order[n];
    var next := rows[sid := rows[sid].(status := Mesh.Active)];
    assert next.Keys == rows.Keys;
    forall i | 0 <= i < |plan.order| && i != n ensures next[plan.order[i]] == rows[plan.order[i]] {
      DistinctAt(plan, start, i, n);
    }
    forall s | s in rows ensures rows[s].key.Some? {
      var i :| 0 <= i < |plan.order| && plan.order[i] == s;
    }
  }

  /** A failed node loses its status, never its key. */
  lemma UnkeyedStays(before: map<ServerId, Row>, after: map<ServerId, Row>, sid: ServerId, internal: bool)
    requires sid in before && if internal then after == before else MarkedOnly(before, after, sid)
    ensures SameKeys(before, after)
  {
  }

  lemma KeepsItself(rows: map<ServerId, Row>)
    ensures Mesh.KeepsNodes(rows, rows)
  {
  }

  lemma MintedKeeps(plan: Plan, start: map<ServerId, Row>, rows: map<ServerId, Row>, n: nat)
    requires Covers(plan, start) && n <= |plan.order| && MintedTo(plan, start, rows, n)
    ensures Covers(plan, rows) && Mesh.KeepsNodes(start, rows)
    ensures n == |plan.order| ==> AllKeyed(rows)
  {
    forall s | s in start
      ensures Mesh.KeepsNodes(map[s := start[s]], map[s := rows[s]]) && (n == |plan.order| ==> rows[s].key.Some?)
    {
      var i :| 0 <= i < |plan.order| && plan.order[i] == s;
    }
    forall s | s in start
      ensures rows[s].ip == start[s].ip && rows[s].host == start[s].host && rows[s].port == start[s].port
      ensures start[s].key.Some? ==> rows[s].key == start[s].key
    {
      assert Mesh.KeepsNodes(map[s := start[s]], map[s := rows[s]]);
    }
  }

  lemma MintedAll(plan: Plan, start: map<ServerId, Row>, rows: map<ServerId, Row>)
    requires Covers(plan, start) && MintedTo(plan, start, rows, |plan.order|)
    ensures Covers(plan, rows) && Mesh.KeepsNodes(start, rows) && AllKeyed(rows)
  {
    MintedKeeps(plan, start, rows, |plan.order|);
  }

  lemma MarkedKeeps(plan: Plan, mid: map<ServerId, Row>, after: map<ServerId, Row>, sid: ServerId)
    requires sid in mid && MarkedOnly(mid, after, sid) && Covers(plan, mid)
    ensures Covers(plan, after) && Mesh.KeepsNodes(mid, after)
  {
  }

  lemma FailedMintKeeps(plan: Plan, start: map<ServerId, Row>, after: map<ServerId, Row>, n: nat, internal: bool)
    requires Covers(plan, start) && n < |plan.order| && FailedMint(plan, start, after, n, internal)
    ensures Covers(plan, after) && Mesh.KeepsNodes(start, after)
  {
    hide MintedTo, MarkedOnly;
    var mid :| MintedTo(plan, start, mid, n) && mid.Keys == start.Keys
               && if internal then after == mid else MarkedOnly(mid, after, plan.order[n]);
    MintedKeeps(plan, start, mid, n);
    if !internal { MarkedKeeps(plan, mid, after, plan.order[n]); }
  }

  lemma ActiveKeeps(plan: Plan, start: map<ServerId, Row>, rows: map<ServerId, Row>, n: nat)
    requires Covers(plan, start) && n <= |plan.order| && ActiveTo(plan, start, rows, n)
    ensures Covers(plan, rows) && Mesh.KeepsNodes(start, rows)
    ensures n == |plan.order| ==> forall s | s in rows :: rows[s] == start[s].(status := Mesh.Active)
  {
    forall s | s in start
      ensures rows[s] == start[s] || rows[s] == start[s].(status := Mesh.Active)
      ensures n == |plan.order| ==> rows[s] == start[s].(status := Mesh.Active)
    {
      var i :| 0 <= i < |plan.order| && plan.order[i] == s;
    }
  }

  lemma PushKeeps(plan: Plan, start: map<ServerId, Row>, after: map<ServerId, Row>, n: nat)
    requires Covers(plan, start) && n < |plan.order| && FailedPush(plan, start, after, n)
    ensures Covers(plan, after) && Mesh.KeepsNodes(start, after)
  {
    hide Mesh.KeepsNodes;
    KeepsItself(start);
    FailedPushKeeps(plan, start, start, after, n);
  }

  lemma FailedPushKeeps(plan: Plan, start: map<ServerId, Row>, minted: map<ServerId, Row>, after: map<ServerId, Row>,
      n: nat)
    requires Covers(plan, start) && Covers(plan, minted) && Mesh.KeepsNodes(start, minted)
    requires n < |plan.order| && FailedPush(plan, minted, after, n)
    ensures Covers(plan, after) && Mesh.KeepsNodes(start, after)
  {
    var mid :| ActiveTo(plan, minted, mid, n) && mid.Keys == minted.Keys && MarkedOnly(mid, after, plan.order[n]);
    ActiveKeeps(plan, minted, mid, n);
    MarkedKeeps(plan, mid, after, plan.order[n]);
  }

  lemma ActiveAll(plan: Plan, start: map<ServerId, Row>, minted: map<ServerId, Row>, after: map<ServerId, Row>)
    requires Covers(plan, start) && Covers(plan, minted) && Mesh.KeepsNodes(start, minted) && AllKeyed(minted)
    requires ActiveTo(plan, minted, after, |plan.order|)
    ensures Covers(plan, after) && Mesh.KeepsNodes(start, after) && AllKeyed(after)
    ensures forall sid | sid in after :: after[sid].status == Mesh.Active
  {
    ActiveKeeps(plan, minted, after, |plan.order|);
  }
}
