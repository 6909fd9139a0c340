/**
 * Moving a stack to another core (api/migration.rs): the lock flag on its row and the pipeline,
 * with any number of requests interleaved and a failure possible at every step.
 */
module Migration {
  import opened Text

  type RequestId = nat
  type StackId = nat

  /** Where a request stands; the id is the stack created on the target. */
  datatype Pc =
    | Validated
    | Locked
    | Resolved
    | Created(id: StackId)
    | Deployed(id: StackId)
    | Downed(id: StackId)
    | Removed(id: StackId)
    | Failing
    | Finished(moved: bool)

  /** One stack: its row and flag, its containers on the source, and the copies running on the target. */
  datatype World = World(present: bool, locked: bool, sourceUp: bool, running: set<StackId>,
                         requests: map<RequestId, Pc>)

  datatype CreateReply = CreatedWith(id: StackId) | NoId | Rejected

  /**
   * One step of one request, with the answer of the database, the target or the container engine.
   * A request may also be dropped where it stands; the call it was in then takes effect or not.
   */
  datatype Step =
    | Validate(r: RequestId, migratable: bool)
    | Acquire(r: RequestId, dbOk: bool)
    | Resolve(r: RequestId, paired: bool)
    | Create(r: RequestId, reply: CreateReply)
    | Deploy(r: RequestId, ok: bool, leftRunning: bool)
    | Down(r: RequestId, ok: bool)
    | Remove(r: RequestId)
    | DeleteRow(r: RequestId, ok: bool)
    | Release(r: RequestId, ok: bool)
    | Drop(r: RequestId, tookEffect: bool)

  predicate At(w: World, r: RequestId, pc: Pc) { r in w.requests && w.requests[r] == pc }

  predicate Enabled(w: World, step: Step) {
    match step
    case Validate(r, _) => r !in w.requests
    case Acquire(r, _) => At(w, r, Validated)
    case Resolve(r, _) => At(w, r, Locked)
    case Create(r, _) => At(w, r, Resolved)
    case Deploy(r, _, _) => r in w.requests && w.requests[r].Created?
    case Down(r, _) => r in w.requests && w.requests[r].Deployed?
    case Remove(r) => r in w.requests && w.requests[r].Downed?
    case DeleteRow(r, _) => r in w.requests && w.requests[r].Removed?
    case Release(r, _) => At(w, r, Failing)
    case Drop(r, _) => r in w.requests && !w.requests[r].Finished?
  }

  function Goto(w: World, r: RequestId, pc: Pc): World { w.(requests := w.requests[r := pc]) }

  function Next(w: World, step: Step): World
    requires Enabled(w, step)
  {
    match step
    case Validate(r, migratable) => Goto(w, r, if w.present && migratable then Validated else Finished(false))
    case Acquire(r, dbOk) =>
      if dbOk && w.present && !w.locked then Goto(w, r, Locked).(locked := true) else Goto(w, r, Finished(false))
    case Resolve(r, paired) => Goto(w, r, if paired then Resolved else Failing)
    case Create(r, reply) => Goto(w, r, if reply.CreatedWith? then Created(reply.id) else Failing)
    case Deploy(r, ok, leftRunning) =>
      var id := w.requests[r].id;
      var next := Goto(w, r, if ok then Deployed(id) else Failing);
      if ok || leftRunning then next.(running := w.running + {id}) else next
    case Down(r, ok) => Goto(w, r, Downed(w.requests[r].id)).(sourceUp := w.sourceUp && !ok)
    case Remove(r) => Goto(w, r, Removed(w.requests[r].id))
    case DeleteRow(r, ok) =>
      if ok then Goto(w, r, Finished(true)).(present := false, locked := false) else Goto(w, r, Failing)
    case Release(r, ok) => Goto(w, r, Finished(false)).(locked := w.locked && !ok)
    case Drop(r, tookEffect) =>
      var pc := w.requests[r];
      Goto(w, r, Finished(false)).(running := if pc.Created? && tookEffect then w.running + {pc.id} else w.running,
                                   sourceUp := w.sourceUp && !(pc.Deployed? && tookEffect))
  }

  // ----- the handler ----------------------------------------------------------------------

  /** Every answer a request can get on its way. */
  datatype Answers = Answers(migratable: bool, dbOk: bool, paired: bool, reply: CreateReply, deployed: bool,
      leftRunning: bool,
                             downOk: bool, deleteOk: bool, releaseOk: bool)

  class Source {
    var present: bool
    var locked: bool
    var sourceUp: bool
    var running: set<StackId>
    ghost var requests: map<RequestId, Pc>

    ghost function Model(): World
      reads this
    {
      World(present, locked, sourceUp, running, requests)
    }

    constructor ()
      ensures Model() == World(true, false, true, {}, map[])
    {
      present, locked, sourceUp, running, requests := true, false, true, {}, map[];
    }

    /** The flag goes from 0 to 1 in one statement; its row count says whether this request did it. */
    method AcquireMigrationLock(r: RequestId, dbOk: bool) returns (won: bool)
      requires Enabled(Model(), Acquire(r, dbOk))
      modifies this
      ensures Model() == Next(old(Model()), Acquire(r, dbOk))
      ensures won <==> At(Model(), r, Locked)
      ensures !won ==> At(Model(), r, Finished(false))
    {
      won := dbOk && present && !locked;
      if won {
        locked := true;
        requests := requests[r := Locked];
      } else {
        requests := requests[r := Finished(false)];
      }
    }

    method ReleaseMigrationLock(r: RequestId, dbOk: bool)
      requires Enabled(Model(), Release(r, dbOk))
      modifies this
      ensures Model() == Next(old(Model()), Release(r, dbOk))
    {
      if dbOk {
        locked := false;
      }
      requests := requests[r := Finished(false)];
    }

    /** Looks the target up and creates the stack there. */
    method CreateCopy(r: RequestId, a: Answers) returns (copy: Option<StackId>)
      requires At(Model(), r, Locked)
      modifies this
      ensures Replay(old(Model()), Pipeline(r, a))
           == Replay(Model(),
                     if copy.Some? then [Step.Deploy(r, a.deployed, a.leftRunning)] + AfterDeploy(r, a) else [])
      ensures At(Model(), r, if copy.Some? then Created(copy.value) else Failing)
    {
      hide Replay, AfterResolve, AfterCreate, AfterDeploy;
      copy := None;
      Tails(r, a);
      ReplayCons(Model(), Resolve(r, a.paired), AfterResolve(r, a));
      if !a.paired {
        requests := requests[r := Failing];
        return;
      }
      requests := requests[r := Resolved];
      ReplayCons(Model(), Create(r, a.reply), AfterCreate(r, a));
      if !a.reply.CreatedWith? {
        requests := requests[r := Failing];
        return;
      }
      copy := Some(a.reply.id);
      requests := requests[r := Created(copy.value)];
    }

    /** Lookup, create and deploy on the target; the id is that of the running copy. */
    method MoveToTarget(r: RequestId, a: Answers) returns (copy: Option<StackId>)
      requires At(Model(), r, Locked)
      modifies this
      ensures Replay(old(Model()), Pipeline(r, a)) == Replay(Model(), if copy.Some? then AfterDeploy(r, a) else [])
      ensures At(Model(), r, if copy.Some? then Deployed(copy.value) else Failing)
      ensures copy.Some? ==> a.deployed
    {
      hide Replay, Pipeline, AfterDeploy;
      copy := CreateCopy(r, a);
      if copy.None? {
        return;
      }
      Tails(r, a);
      ReplayCons(Model(), Step.Deploy(r, a.deployed, a.leftRunning), AfterDeploy(r, a));
      DeployCopy(r, copy.value, a);
      if !a.deployed {
        copy := None;
      }
    }

    /** Deploys the created stack; a failed deploy may still leave it running if the clean-up fails. */
    method DeployCopy(r: RequestId, id: StackId, a: Answers)
      requires At(Model(), r, Created(id))
      modifies this
      ensures Model() == Next(old(Model()), Step.Deploy(r, a.deployed, a.leftRunning))
    {
      if a.deployed || a.leftRunning {
        running := running + {id};
      }
      requests := requests[r := if a.deployed then Deployed(id) else Failing];
    }

    /** From the target lookup to the deletion of the source row; on failure the lock is still held. */
    method RunMigrationPipeline(r: RequestId, a: Answers) returns (ok: bool)
      requires At(Model(), r, Locked)
      modifies this
      ensures Model() == Replay(old(Model()), Pipeline(r, a))
      ensures ok <==> At(Model(), r, Finished(true))
      ensures !ok ==> At(Model(), r, Failing)
      ensures ok ==> !present && !locked && a.reply.CreatedWith? && running == old(running) + {a.reply.id}
      ensures ok ==> sourceUp == (old(sourceUp) && !a.downOk)
    {
      hide Replay, Pipeline, AfterDeploy, PipelineOk, Unlock;
      ok := false;
      PipelineOutcome(Model(), r, a);
      var copy := MoveToTarget(r, a);
      if copy.None? {
        ReplayNothing(Model());
        return;
      }
      Tails(r, a);
      ReplayCons(Model(), Down(r, a.downOk), [Step.Remove(r)] + ([DeleteRow(r, a.deleteOk)] + []));
      if a.downOk {
        sourceUp := false;
      }
      requests := requests[r := Downed(copy.value)];
      ReplayCons(Model(), Step.Remove(r), [DeleteRow(r, a.deleteOk)] + []);
      requests := requests[r := Removed(copy.value)];
      ReplayCons(Model(), DeleteRow(r, a.deleteOk), []);
      if !a.deleteOk {
        requests := requests[r := Failing];
      } else {
        present, locked := false, false;
        requests := requests[r := Finished(true)];
        ok := true;
      }
      ReplayNothing(Model());
    }

    /** One whole request with nothing interleaved; `ScriptOutcome` says what it leaves behind. */
    method MigrateStack(r: RequestId, a: Answers) returns (ok: bool)
      requires r !in requests
      modifies this
      ensures Model() == Replay(old(Model()), Script(old(Model()), r, a))
      ensures ok <==> At(Model(), r, Finished(true))
    {
      hide Replay, Pipeline, PipelineOk;
      var tail: seq<Step> := AfterValidate(r, a, locked);
      ReplayCons(Model(), Validate(r, a.migratable), if present && a.migratable then tail else []);
      if !present || !a.migratable {
        requests := requests[r := Finished(false)];
        ReplayNothing(Model());
        return false;
      }
      requests := requests[r := Validated];
      ReplayCons(Model(), Acquire(r, a.dbOk), if !a.dbOk || locked then [] else AfterAcquire(r, a));
      var won := AcquireMigrationLock(r, a.dbOk);
      if !won {
        ReplayNothing(Model());
        return false;
      }
      ReplayAppend(Model(), Pipeline(r, a), Unlock(r, a));
      PipelineOutcome(Model(), r, a);
      ok := RunMigrationPipeline(r, a);
      if !ok {
        ReplayCons(Model(), Release(r, a.releaseOk), []);
        ReleaseMigrationLock(r, a.releaseOk);
      }
      ReplayNothing(Model());
    }
  }

  /**
   * What a whole pipeline leaves behind. It reaches its end exactly when nothing it depends on
   * fails; then row and flag are gone and the copy runs. The source is stopped exactly when its
   * teardown came up and was answered with ok; a copy runs once it is deployed, or left over.
   */
  lemma PipelineOutcome(w: World, r: RequestId, a: Answers)
    requires At(w, r, Locked)
    ensures var created := a.paired && a.reply.CreatedWith?;
            var ok := created && a.deployed && a.deleteOk;
            Replay(w, Pipeline(r, a)) ==
              World(w.present && !ok, w.locked && !ok, w.sourceUp && !(created && a.deployed && a.downOk),
                    if created && (a.deployed || a.leftRunning) then w.running + {a.reply.id} else w.running,
                    w.requests[r := if ok then Finished(true) else Failing])
    ensures PipelineOk(a) <==> a.paired && a.reply.CreatedWith? && a.deployed && a.deleteOk
    ensures Unlock(r, a) == if PipelineOk(a) then [] else [Release(r, a.releaseOk)] + []
  {
    hide Replay, AfterResolve, AfterCreate, AfterDeploy;
    Tails(r, a);
    ReplayCons(w, Resolve(r, a.paired), AfterResolve(r, a));
    var w1 := Next(w, Resolve(r, a.paired));
    ReplayNothing(w1);
    if a.paired {
      ReplayCons(w1, Create(r, a.reply), AfterCreate(r, a));
      var w2 := Next(w1, Create(r, a.reply));
      ReplayNothing(w2);
      if a.reply.CreatedWith? { DeployOutcome(w2, r, a); }
    }
  }

  lemma DeployOutcome(w: World, r: RequestId, a: Answers)
    requires a.reply.CreatedWith? && At(w, r, Created(a.reply.id))
    ensures var ok := a.deployed && a.deleteOk;
            Replay(w, [Deploy(r, a.deployed, a.leftRunning)] + AfterDeploy(r, a)) ==
              World(w.present && !ok, w.locked && !ok, w.sourceUp && !(a.deployed && a.downOk),
                    if a.deployed || a.leftRunning then w.running + {a.reply.id} else w.running,
                    w.requests[r := if ok then Finished(true) else Failing])
  {
    hide Replay, AfterResolve, AfterCreate, AfterDeploy;
    Tails(r, a);
    ReplayCons(w, Deploy(r, a.deployed, a.leftRunning), AfterDeploy(r, a));
    var w3 := Next(w, Deploy(r, a.deployed, a.leftRunning));
    ReplayNothing(w3);
    if a.deployed {
      ReplayCons(w3, Down(r, a.downOk), [Remove(r)] + ([DeleteRow(r, a.deleteOk)] + []));
      var w4 := Next(w3, Down(r, a.downOk));
      ReplayCons(w4, Remove(r), [DeleteRow(r, a.deleteOk)] + []);
      var w5 := Next(w4, Remove(r));
      ReplayCons(w5, DeleteRow(r, a.deleteOk), []);
      ReplayNothing(Next(w5, DeleteRow(r, a.deleteOk)));
    }
  }

  /**
   * What a whole request leaves behind. Without the row, a movable stack, the database or a free
   * flag nothing but its own record changes; with them it wins the flag and runs the pipeline. A
   * request that then fails leaves the row, and the flag exactly when the release misses the database.
   */
  lemma ScriptOutcome(w: World, r: RequestId, a: Answers)
    requires r !in w.requests
    ensures var won := w.present && a.migratable && a.dbOk && !w.locked;
            var created := won && a.paired && a.reply.CreatedWith?;
            var ok := created && a.deployed && a.deleteOk;
            Replay(w, Script(w, r, a)) ==
              World(w.present && !ok, if won then !ok && !a.releaseOk else w.locked,
                    w.sourceUp && !(created && a.deployed && a.downOk),
                    if created && (a.deployed || a.leftRunning) then w.running + {a.reply.id} else w.running,
                    w.requests[r := Finished(ok)])
  {
    hide Replay, Pipeline;
    var tail := AfterValidate(r, a, w.locked);
    ReplayCons(w, Validate(r, a.migratable), if w.present && a.migratable then tail else []);
    var w1 := Next(w, Validate(r, a.migratable));
    ReplayNothing(w1);
    if w.present && a.migratable {
      ReplayCons(w1, Acquire(r, a.dbOk), if !a.dbOk || w.locked then [] else AfterAcquire(r, a));
      var w2 := Next(w1, Acquire(r, a.dbOk));
      ReplayNothing(w2);
      if a.dbOk && !w.locked {
        ReplayAppend(w2, Pipeline(r, a), Unlock(r, a));
        PipelineOutcome(w2, r, a);
        var w3 := Replay(w2, Pipeline(r, a));
        ReplayNothing(w3);
        if !PipelineOk(a) {
          ReplayCons(w3, Release(r, a.releaseOk), []);
          ReplayNothing(Next(w3, Release(r, a.releaseOk)));
        }
      }
    }
  }

  /** The pipeline's steps for the given answers, up to the first failure. */
  function Pipeline(r: RequestId, a: Answers): seq<Step> { [Resolve(r, a.paired)] + AfterResolve(r, a) }

  function AfterResolve(r: RequestId, a: Answers): seq<Step> {
    if !a.paired then [] else [Create(r, a.reply)] + AfterCreate(r, a)
  }

  function AfterCreate(r: RequestId, a: Answers): seq<Step> {
    if !a.reply.CreatedWith? then [] else [Deploy(r, a.deployed, a.leftRunning)] + AfterDeploy(r, a)
  }

  function AfterDeploy(r: RequestId, a: Answers): seq<Step> {
    if !a.deployed then [] else [Down(r, a.downOk)] + ([Remove(r)] + ([DeleteRow(r, a.deleteOk)] + []))
  }

  lemma ReplayCons(w: World, step: Step, rest: seq<Step>)
    requires Enabled(w, step)
    ensures Replay(w, [step] + rest) == Replay(Next(w, step), rest)
  {
    assert ([step] + rest)[1..] == rest;
  }

  lemma Tails(r: RequestId, a: Answers)
    ensures AfterResolve(r, a) == if a.paired then [Create(r, a.reply)] + AfterCreate(r, a) else []
    ensures AfterCreate(r, a) ==
            if a.reply.CreatedWith? then [Deploy(r, a.deployed, a.leftRunning)] + AfterDeploy(r, a) else []
    ensures AfterDeploy(r, a) ==
            if a.deployed then [Down(r, a.downOk)] + ([Remove(r)] + ([DeleteRow(r, a.deleteOk)] + [])) else []
  {
  }

  lemma ReplayNothing(w: World)
    ensures Replay(w, []) == w
  {
  }

  predicate PipelineOk(a: Answers) { a.paired && a.reply.CreatedWith? && a.deployed && a.deleteOk }

  function Unlock(r: RequestId, a: Answers): seq<Step> { if PipelineOk(a) then [] else [Release(r, a.releaseOk)] }

  function AfterAcquire(r: RequestId, a: Answers): seq<Step> { Pipeline(r, a) + Unlock(r, a) }

  function AfterValidate(r: RequestId, a: Answers, locked: bool): seq<Step> {
    [Acquire(r, a.dbOk)] + if !a.dbOk || locked then [] else AfterAcquire(r, a)
  }

  /** The steps of a whole request that runs alone. */
  function Script(w: World, r: RequestId, a: Answers): seq<Step> {
    [Validate(r, a.migratable)] + if w.present && a.migratable then AfterValidate(r, a, w.locked) else []
  }

  /** Takes the steps in order; a step that is not enabled is skipped. */
  function Replay(w: World, steps: seq<Step>): World
    decreases |steps|
  {
    if steps == [] then w
    else Replay(if Enabled(w, steps[0]) then Next(w, steps[0]) else w, steps[1..])
  }

  lemma {:induction false} ReplayAppend(w: World, a: seq<Step>, b: seq<Step>)
    ensures Replay(w, a + b) == Replay(Replay(w, a), b)
    decreases |a|
  {
    hide Next, Enabled;
    if a == [] {
      assert a + b == b;
    } else {
      assert (a + b)[1..] == a[1..] + b;
      ReplayAppend(if Enabled(w, a[0]) then Next(w, a[0]) else w, a[1..], b);
    }
  }

  // ----- runs -----------------------------------------------------------------------------

  predicate Initial(w: World) { w.present && !w.locked && w.sourceUp && w.running == {} && w.requests == map[] }

  ghost predicate IsRun(ws: seq<World>, steps: seq<Step>) {
    && |ws| == |steps| + 1
    && Initial(ws[0])
    && forall i | 0 <= i < |steps| :: Enabled(ws[i], steps[i]) && ws[i + 1] == Next(ws[i], steps[i])
  }

  /** The request owns the flag: it acquired it and has not yet released it or deleted the row. */
  predicate Holds(pc: Pc) { !pc.Validated? && !pc.Finished? }

  predicate Holder(w: World, r: RequestId) { r in w.requests && Holds(w.requests[r]) }

  predicate Moving(pc: Pc) { pc.Deployed? || pc.Downed? || pc.Removed? }

  /** At most one request holds the lock, and then the flag is set. */
  ghost predicate LockSafe(w: World) {
    && (forall a, b | Holder(w, a) && Holder(w, b) :: a == b)
    && (forall r | r in w.requests :: Holds(w.requests[r]) ==> w.present && w.locked)
  }

  /**
   * A request past its deploy has a running copy; the source is down, or its row gone, only when
   * a copy runs on the target.
   */
  predicate CopySafe(w: World) {
    && (forall r | r in w.requests :: Moving(w.requests[r]) ==> w.requests[r].id in w.running)
    && (!w.sourceUp ==> w.running != {})
    && (!w.present ==> w.running != {})
  }

  ghost predicate Safe(w: World) { LockSafe(w) && CopySafe(w) }

  lemma {:induction false} RunsStaySafe(ws: seq<World>, steps: seq<Step>, j: nat)
    requires IsRun(ws, steps) && j <= |steps|
    ensures Safe(ws[j])
  {
    if j > 0 {
      RunsStaySafe(ws, steps, j - 1);
      StepStaysSafe(ws[j - 1], steps[j - 1]);
    }
  }

  lemma StepStaysSafe(w: World, step: Step)
    requires Safe(w) && Enabled(w, step)
    ensures Safe(Next(w, step))
  {
    hide LockSafe, CopySafe, Next, Enabled;
    StepKeepsLock(w, step);
    StepKeepsCopy(w, step);
  }

  lemma StepKeepsLock(w: World, step: Step)
    requires LockSafe(w) && Enabled(w, step)
    ensures LockSafe(Next(w, step))
  {
    var w' := Next(w, step);
    var r := step.r;
    assert forall a | a in w'.requests && a != r :: a in w.requests && w'.requests[a] == w.requests[a];
    if Holder(w, r) { OnlyHolder(w, r); }
    assert step.Acquire? && At(w', r, Locked) ==> forall a | a in w.requests :: !Holds(w.requests[a]);
    forall a, b | Holder(w', a) && Holder(w', b) ensures a == b {
      assert a != r ==> Holder(w, a);
      assert b != r ==> Holder(w, b);
    }
  }

  lemma StepKeepsCopy(w: World, step: Step)
    requires CopySafe(w) && Enabled(w, step)
    ensures CopySafe(Next(w, step))
  {
    assert w.running <= Next(w, step).running;
  }

  lemma OnlyHolder(w: World, r: RequestId)
    requires LockSafe(w) && Holder(w, r)
    ensures forall a | a in w.requests && a != r :: !Holds(w.requests[a])
  {
    forall a | a in w.requests && a != r ensures !Holds(w.requests[a]) {
      assert Holder(w, a) ==> a == r;
    }
  }

  /** Teardown and row deletion, finished or dropped half-way. */
  predicate TouchesSource(w: World, step: Step) {
    step.Down? || step.Remove? || step.DeleteRow? || (step.Drop? && step.r in w.requests && Moving(w.requests[step.r]))
  }

  lemma NothingElseTouchesSource(w: World, step: Step)
    requires Enabled(w, step) && !TouchesSource(w, step)
    ensures Next(w, step).sourceUp == w.sourceUp && Next(w, step).present == w.present
  {
  }

  /** Tearing the source down or deleting its row comes only after the same request's successful deploy. */
  lemma TeardownFollowsDeploy(ws: seq<World>, steps: seq<Step>, j: nat) returns (i: nat)
    requires IsRun(ws, steps) && j < |steps| && TouchesSource(ws[j], steps[j])
    ensures i < j && steps[i].Deploy? && steps[i].ok && steps[i].r == steps[j].r
    ensures ws[j].running != {}
  {
    RunsStaySafe(ws, steps, j);
    assert Moving(ws[j].requests[steps[j].r]);
    i := DeployOf(ws, steps, j, steps[j].r);
  }

  lemma {:induction false} DeployOf(ws: seq<World>, steps: seq<Step>, j: nat, r: RequestId) returns (i: nat)
    requires IsRun(ws, steps) && j <= |steps| && r in ws[j].requests && Moving(ws[j].requests[r])
    ensures i < j && steps[i].Deploy? && steps[i].ok && steps[i].r == r
  {
    var step := steps[j - 1];
    if step.Deploy? && step.ok && step.r == r {
      i := j - 1;
    } else {
      assert r in ws[j - 1].requests && Moving(ws[j - 1].requests[r]);
      i := DeployOf(ws, steps, j - 1, r);
    }
  }

  /**
   * A request that fails without a successful deploy leaves the source exactly as it was when it
   * took the lock, and clears the flag exactly when the release reaches the database.
   */
  lemma FailureLeavesSource(ws: seq<World>, steps: seq<Step>, j: nat) returns (i: nat)
    requires IsRun(ws, steps) && j < |steps| && steps[j].Release?
    requires forall k | 0 <= k < j :: !(steps[k].Deploy? && steps[k].ok && steps[k].r == steps[j].r)
    ensures i < j && steps[i].Acquire? && steps[i].r == steps[j].r && At(ws[i + 1], steps[j].r, Locked)
    ensures ws[j + 1].present && ws[i].present && ws[j + 1].sourceUp == ws[i].sourceUp
    ensures ws[j + 1].locked == !steps[j].ok
  {
    RunsStaySafe(ws, steps, j);
    i := SourceSinceAcquire(ws, steps, j, steps[j].r);
  }

  lemma {:induction false} SourceSinceAcquire(ws: seq<World>, steps: seq<Step>, j: nat, r: RequestId) returns (i: nat)
    requires IsRun(ws, steps) && j <= |steps| && Holder(ws[j], r)
    requires forall k | 0 <= k < j :: !(steps[k].Deploy? && steps[k].ok && steps[k].r == r)
    ensures i < j && steps[i] == Acquire(r, true) && At(ws[i + 1], r, Locked)
    ensures ws[j].present && ws[i].present && ws[j].sourceUp == ws[i].sourceUp
  {
    hide Safe;
    var w, step := ws[j - 1], steps[j - 1];
    RunsStaySafe(ws, steps, j - 1);
    HolderIsRecorded(w, step, r);
    if step.Acquire? && step.r == r {
      i := j - 1;
    } else {
      assert Holder(w, r);
      i := SourceSinceAcquire(ws, steps, j - 1, r);
      NoTeardownBeforeDeploy(ws, steps, j - 1, r);
      SourceKept(w, step, r);
    }
  }

  lemma HolderIsRecorded(w: World, step: Step, r: RequestId)
    requires Safe(w) && Enabled(w, step) && Holder(Next(w, step), r)
    ensures Next(w, step).present && (step == Acquire(r, true) ==> w.present && Next(w, step).sourceUp == w.sourceUp)
  {
    StepStaysSafe(w, step);
  }

  /** While a request before its deploy holds the lock, nobody touches the source. */
  lemma SourceKept(w: World, step: Step, r: RequestId)
    requires Safe(w) && Enabled(w, step) && Holder(w, r) && !Moving(w.requests[r])
    ensures Next(w, step).sourceUp == w.sourceUp && Next(w, step).present == w.present
  {
    OnlyHolder(w, r);
  }

  lemma NoTeardownBeforeDeploy(ws: seq<World>, steps: seq<Step>, j: nat, r: RequestId)
    requires IsRun(ws, steps) && j <= |steps| && Holder(ws[j], r)
    requires forall k | 0 <= k < j :: !(steps[k].Deploy? && steps[k].ok && steps[k].r == r)
    ensures !Moving(ws[j].requests[r])
  {
    if Moving(ws[j].requests[r]) { var i := DeployOf(ws, steps, j, r); }
  }

  /** In every reachable state the stack is recorded at the source or runs on the target, and it runs somewhere. */
  lemma StackIsNeverLost(ws: seq<World>, steps: seq<Step>, j: nat)
    requires IsRun(ws, steps) && j <= |steps|
    ensures ws[j].present || ws[j].running != {}
    ensures ws[j].sourceUp || ws[j].running != {}
    ensures forall a, b | Holder(ws[j], a) && Holder(ws[j], b) :: a == b
  {
    RunsStaySafe(ws, steps, j);
  }

  /** A flag nobody holds. */
  predicate Stuck(w: World) { w.present && w.locked && forall r | r in w.requests :: !Holds(w.requests[r]) }

  /** The lock's holder ends without clearing it: its release misses the database, or it is dropped. */
  predicate LosesLock(w: World, step: Step) { Holder(w, step.r) && (step == Release(step.r, false) || step.Drop?) }

  lemma LostLockSticks(w: World, step: Step)
    requires Safe(w) && Enabled(w, step) && LosesLock(w, step)
    ensures Stuck(Next(w, step))
  {
    OnlyHolder(w, step.r);
  }

  lemma OnlyALostLockSticks(w: World, step: Step)
    requires Safe(w) && (w.present && w.locked ==> Stuck(w) || exists r :: Holder(w, r))
    requires Enabled(w, step) && !Stuck(w) && !LosesLock(w, step)
    ensures var w' := Next(w, step); w'.present && w'.locked ==> !Stuck(w') && exists r :: Holder(w', r)
  {
    var w' := Next(w, step);
    if w'.present && w'.locked {
      if w.present && w.locked {
        var r :| Holder(w, r);
        assert Holder(w', r) by { if step.r != r { assert w'.requests[r] == w.requests[r]; } }
      } else {
        assert Holder(w', step.r);
      }
    }
  }

  /** In every run the flag is stuck exactly when some holder has lost it. */
  lemma {:induction false} StuckIff(ws: seq<World>, steps: seq<Step>, j: nat)
    requires IsRun(ws, steps) && j <= |steps|
    ensures Stuck(ws[j]) <==> exists i | 0 <= i < j :: LosesLock(ws[i], steps[i])
    ensures ws[j].present && ws[j].locked ==> Stuck(ws[j]) || exists r :: Holder(ws[j], r)
  {
    hide Safe, LosesLock, Holder, Stuck;
    if j == 0 {
      NotStuckAtFirst(ws[0]);
    } else {
      StuckIff(ws, steps, j - 1);
      RunsStaySafe(ws, steps, j - 1);
      assert Enabled(ws[j - 1], steps[j - 1]) && ws[j] == Next(ws[j - 1], steps[j - 1]);
      if LosesLock(ws[j - 1], steps[j - 1]) {
        LostLockSticks(ws[j - 1], steps[j - 1]);
      } else if Stuck(ws[j - 1]) {
        StuckStays(ws[j - 1], steps[j - 1]);
      } else {
        OnlyALostLockSticks(ws[j - 1], steps[j - 1]);
        NotStuckWithoutFlag(ws[j]);
      }
    }
  }

  lemma NotStuckAtFirst(w: World)
    requires Initial(w)
    ensures !Stuck(w) && !w.locked
  {
  }

  lemma NotStuckWithoutFlag(w: World)
    ensures !(w.present && w.locked) ==> !Stuck(w)
  {
  }

  lemma StuckStays(w: World, step: Step)
    requires Stuck(w) && Enabled(w, step)
    ensures Stuck(Next(w, step))
  {
  }

  /** From then on no request ever gets the lock, and the source stays as it is. */
  lemma {:induction false} StuckForever(w: World, steps: seq<Step>)
    requires Stuck(w)
    ensures var w' := Replay(w, steps);
            Stuck(w') && w'.sourceUp == w.sourceUp && w'.running == w.running
    decreases |steps|
  {
    if steps != [] {
      var w1 := if Enabled(w, steps[0]) then Next(w, steps[0]) else w;
      assert Stuck(w1);
      StuckForever(w1, steps[1..]);
    }
  }

  /** It does happen: one request takes the lock and is dropped. */
  lemma DropSticks() returns (ws: seq<World>, steps: seq<Step>)
    ensures IsRun(ws, steps) && Stuck(ws[|steps|])
  {
    var w0 := World(true, false, true, {}, map[]);
    steps := [Validate(0, true), Acquire(0, true), Drop(0, false)];
    var w1 := Next(w0, steps[0]);
    var w2 := Next(w1, steps[1]);
    ws := [w0, w1, w2, Next(w2, steps[2])];
    assert w2 == World(true, true, true, {}, map[0 := Locked]);
  }

  // ----- what a run leaves behind ---------------------------------------------------------

  /** What each field of the source and the target can lose or gain in one step, and by which answer. */
  lemma EachFieldMovesIff(w: World, step: Step)
    requires Enabled(w, step)
    ensures var w', r := Next(w, step), step.r;
            var dropped := step.Drop? && step.tookEffect;
            && (w'.present == (w.present && step != DeleteRow(r, true)))
            && (w'.sourceUp == (w.sourceUp && step != Down(r, true) && !(dropped && w.requests[r].Deployed?)))
            && (w'.locked == if step == DeleteRow(r, true) || step == Release(r, true) then false
                             else w.locked || (step == Acquire(r, true) && w.present))
            && (w'.running == if (step.Deploy? && (step.ok || step.leftRunning)) || (dropped && w.requests[r].Created?)
                              then w.running + {w.requests[r].id} else w.running)
            && (forall q | q != r :: (q in w'.requests <==> q in w.requests)
                                     && (q in w.requests ==> w'.requests[q] == w.requests[q]))
  {
  }

  /**
   * In every run, a request that has moved its stack has torn the source down before it deleted the
   * row: the row is gone for good, and so are the source's containers if that teardown was answered with ok.
   */
  lemma MovedMeansGone(ws: seq<World>, steps: seq<Step>, j: nat, r: RequestId) returns (down: nat, deletion: nat)
    requires IsRun(ws, steps) && j <= |steps| && At(ws[j], r, Finished(true))
    ensures down < deletion < j && steps[deletion] == DeleteRow(r, true)
    ensures steps[down].Down? && steps[down].r == r
    ensures !ws[j].present && (steps[down].ok ==> !ws[j].sourceUp) && ws[j].running != {}
  {
    deletion := DeletionOf(ws, steps, j, r);
    down := DownOf(ws, steps, deletion, r);
    EachFieldMovesIff(ws[deletion], steps[deletion]);
    EachFieldMovesIff(ws[down], steps[down]);
    GoneStaysGone(ws, steps, deletion + 1, j);
    GoneStaysGone(ws, steps, down + 1, j);
    RunsStaySafe(ws, steps, j);
  }

  lemma {:induction false} DeletionOf(ws: seq<World>, steps: seq<Step>, j: nat, r: RequestId) returns (i: nat)
    requires IsRun(ws, steps) && j <= |steps| && At(ws[j], r, Finished(true))
    ensures i < j && steps[i] == DeleteRow(r, true)
  {
    if steps[j - 1] == DeleteRow(r, true) {
      i := j - 1;
    } else {
      assert At(ws[j - 1], r, Finished(true)) by { assert ws[j] == Next(ws[j - 1], steps[j - 1]); }
      i := DeletionOf(ws, steps, j - 1, r);
    }
  }

  lemma {:induction false} DownOf(ws: seq<World>, steps: seq<Step>, j: nat, r: RequestId) returns (i: nat)
    requires IsRun(ws, steps) && j <= |steps| && r in ws[j].requests
    requires ws[j].requests[r].Downed? || ws[j].requests[r].Removed?
    ensures i < j && steps[i].Down? && steps[i].r == r
  {
    var step := steps[j - 1];
    if step.Down? && step.r == r {
      i := j - 1;
    } else {
      assert r in ws[j - 1].requests && (ws[j - 1].requests[r].Downed? || ws[j - 1].requests[r].Removed?);
      i := DownOf(ws, steps, j - 1, r);
    }
  }

  lemma {:induction false} GoneStaysGone(ws: seq<World>, steps: seq<Step>, i: nat, j: nat)
    requires IsRun(ws, steps) && i <= j <= |steps|
    ensures (!ws[i].present ==> !ws[j].present) && (!ws[i].sourceUp ==> !ws[j].sourceUp)
    decreases j
  {
    if i < j {
      GoneStaysGone(ws, steps, i, j - 1);
      EachFieldMovesIff(ws[j - 1], steps[j - 1]);
    }
  }
}
