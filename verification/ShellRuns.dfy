/**
 * The shell runs of an agent (crates/pier-agent/src/shell.rs): one step per critical section of
 * the supervisor, the canceller, the sweeper and the pollers, in any interleaving.
 */
module ShellRuns {
  import opened Text

  type RunId = nat
  type PollId = nat

  datatype Status = Running | Success | Failed | Cancelled | TimedOut

  datatype Error = ExceededTimeout | WaitFailed

  /** What the supervisor's race between `wait` and the timer came to. */
  datatype End = Timeout | Exit(code: Option<int>) | WaitError

  /** The lock-guarded fields, how the process ended, and the supervisor's completed sections. */
  datatype Run = Run(status: Status, exitCode: Option<int>, finishedAt: Option<int>, error: Option<Error>,
                     end: Option<End>, done: nat)

  const NEW_RUN := Run(Running, None, None, None, None, 0)

  /** Milliseconds a finished run is kept. */
  const KEEP_MS := 5 * 60 * 1000

  /** The sweeper: asleep, holding a clock reading, or holding the map lock too. */
  datatype Gc = Asleep | Woken(reading: int) | Scanning(reading: int, todo: set<RunId>, drop: set<RunId>)

  /** A snapshot being taken, field by field. */
  datatype Poll = Poll(run: RunId, status: Option<Status>, exitCode: Option<Option<int>>,
      finishedAt: Option<Option<int>>,
                       error: Option<Option<Error>>)

  /** Every run ever started, the ids still in the map, the sweeper and the snapshots. */
  datatype World = World(runs: map<RunId, Run>, registry: set<RunId>, gc: Gc, polls: map<PollId, Poll>)

  const EMPTY := World(map[], {}, Asleep, map[])

  datatype Step =
    | Start(id: RunId)
    | Ends(id: RunId, end: End)
    | Supervise(id: RunId, clock: int)
    | Cancel(id: RunId)
    | GcWake(clock: int)
    | GcLock
    | GcRead(id: RunId)
    | GcRemove
    | PollBegin(p: PollId, id: RunId)
    | PollRead(p: PollId)

  // ----- critical sections ----------------------------------------------------------------

  function Settled(r: Run, s: Status): Run { if r.status.Running? then r.(status := s) else r }

  function Verdict(code: Option<int>): Status { if code == Some(0) then Success else Failed }

  /** The supervisor's next section, in the order of the branch it took. */
  function Supervised(r: Run, clock: int): Run
    requires r.end.Some? && r.done < 3
  {
    var next := match r.end.value
      case Timeout =>
        if r.done == 0 then Settled(r, TimedOut)
        else if r.done == 1 then r.(finishedAt := Some(clock))
        else r.(error := Some(ExceededTimeout))
      case Exit(code) =>
        if r.done == 0 then r.(exitCode := code)
        else if r.done == 1 then Settled(r, Verdict(code))
        else r.(finishedAt := Some(clock))
      case WaitError =>
        if r.done == 0 then r.(status := Failed)
        else if r.done == 1 then r.(error := Some(WaitFailed))
        else r.(finishedAt := Some(clock));
    next.(done := r.done + 1)
  }

  predicate Expired(r: Run, reading: int) { r.finishedAt.Some? && r.finishedAt.value < reading - KEEP_MS }

  /** The next field of a snapshot. */
  function ReadOn(p: Poll, r: Run): Poll {
    if p.status.None? then p.(status := Some(r.status))
    else if p.exitCode.None? then p.(exitCode := Some(r.exitCode))
    else if p.finishedAt.None? then p.(finishedAt := Some(r.finishedAt))
    else if p.error.None? then p.(error := Some(r.error))
    else p
  }

  // ----- steps ----------------------------------------------------------------------------

  /** The sweeper's write lock keeps starts and lookups out, not the users of a handle. */
  predicate Enabled(w: World, step: Step) {
    match step
    case Start(id) => id !in w.runs && !w.gc.Scanning?
    case Ends(id, _) => id in w.runs && w.runs[id].end.None?
    case Supervise(id, _) => id in w.runs && w.runs[id].end.Some? && w.runs[id].done < 3
    case Cancel(id) => id in w.runs
    case GcWake(_) => w.gc.Asleep?
    case GcLock => w.gc.Woken?
    case GcRead(id) => w.gc.Scanning? && id in w.gc.todo && id in w.runs
    case GcRemove => w.gc.Scanning? && w.gc.todo == {}
    case PollBegin(p, id) => p !in w.polls && id in w.registry && !w.gc.Scanning?
    case PollRead(p) => p in w.polls && w.polls[p].run in w.runs
  }

  function Next(w: World, step: Step): World
    requires Enabled(w, step)
  {
    match step
    case Start(id) => w.(runs := w.runs[id := NEW_RUN], registry := w.registry + {id})
    case Ends(id, end) => w.(runs := w.runs[id := w.runs[id].(end := Some(end))])
    case Supervise(id, clock) => w.(runs := w.runs[id := Supervised(w.runs[id], clock)])
    case Cancel(id) => w.(runs := w.runs[id := Settled(w.runs[id], Cancelled)])
    case GcWake(clock) => w.(gc := Woken(clock))
    case GcLock => w.(gc := Scanning(w.gc.reading, w.registry, {}))
    case GcRead(id) =>
      var drop := if Expired(w.runs[id], w.gc.reading) then w.gc.drop + {id} else w.gc.drop;
      w.(gc := Scanning(w.gc.reading, w.gc.todo - {id}, drop))
    case GcRemove => w.(gc := Asleep, registry := w.registry - w.gc.drop)
    case PollBegin(p, id) => w.(polls := w.polls[p := Poll(id, None, None, None, None)])
    case PollRead(p) => w.(polls := w.polls[p := ReadOn(w.polls[p], w.runs[w.polls[p].run])])
  }

  /** The worlds a list of steps goes through. */
  ghost predicate Trace(ws: seq<World>, steps: seq<Step>) {
    && |ws| == |steps| + 1
    && ws[0] == EMPTY
    && forall i | 0 <= i < |steps| :: Enabled(ws[i], steps[i]) && ws[i + 1] == Next(ws[i], steps[i])
  }

  // ----- the handle and the map, updated in place -----------------------------------------

  class RunHandle {
    var status: Status
    var exitCode: Option<int>
    var finishedAt: Option<int>
    var error: Option<Error>
    ghost var end: Option<End>
    ghost var done: nat

    ghost function Model(): Run
      reads this
    {
      Run(status, exitCode, finishedAt, error, end, done)
    }

    constructor ()
      ensures Model() == NEW_RUN
    {
      status, exitCode, finishedAt, error, end, done := Running, None, None, None, None, 0;
    }

    method Settle(s: Status)
      modifies this`status
      ensures Model() == Settled(old(Model()), s)
    {
      if status == Running {
        status := s;
      }
    }

    method CancelRun()
      modifies this`status
      ensures Model() == Settled(old(Model()), Cancelled)
    {
      Settle(Cancelled);
    }

    /** The supervisor left alone once the process has ended. */
    method Supervise(how: End, clock: int)
      requires end.None? && done == 0
      modifies this
      ensures var r := old(Model()).(end := Some(how));
              Model() == Supervised(Supervised(Supervised(r, clock), clock), clock)
    {
      end := Some(how);
      match how {
        case Timeout =>
          Settle(TimedOut);
          finishedAt := Some(clock);
          error := Some(ExceededTimeout);
        case Exit(code) =>
          exitCode := code;
          Settle(if code == Some(0) then Success else Failed);
          finishedAt := Some(clock);
        case WaitError =>
          status := Failed;
          error := Some(WaitFailed);
          finishedAt := Some(clock);
      }
      done := 3;
    }
  }

  class Registry {
    var runs: map<RunId, RunHandle>

    constructor ()
      ensures runs == map[]
    {
      runs := map[];
    }

    /** One round of the sweeper with nobody in between. */
    method Sweep(reading: int)
      modifies this
      ensures runs == map id | id in old(runs) && !Expired(old(runs)[id].Model(), reading) :: old(runs)[id]
    {
      var cutoff := reading - KEEP_MS;
      var toDrop: seq<RunId> := [];
      var todo := runs.Keys;
      while todo != {}
        invariant todo <= runs.Keys
        invariant forall id :: id in toDrop <==> id in runs.Keys - todo && Expired(runs[id].Model(), reading)
      {
        var id :| id in todo;
        var finished := runs[id].finishedAt;
        if finished.Some? && finished.value < cutoff {
          toDrop := toDrop + [id];
        }
        todo := todo - {id};
      }
      var all := runs;
      var i := 0;
      while i < |toDrop|
        invariant 0 <= i <= |toDrop|
        invariant runs == map id | id in all && id !in toDrop[..i] :: all[id]
      {
        runs := runs - {toDrop[i]};
        i := i + 1;
      }
    }
  }

  // ----- the record of a run --------------------------------------------------------------

  predicate RunSound(r: Run) {
    && r.done <= 3
    && match r.end
       case None => r.done == 0 && r.status in {Running, Cancelled} && r == NEW_RUN.(status := r.status)
       case Some(Timeout) =>
         && r.status in (if r.done == 0 then {Running, Cancelled} else {TimedOut, Cancelled})
         && r.exitCode.None? && (r.finishedAt.Some? <==> r.done >= 2)
         && r.error == if r.done == 3 then Some(ExceededTimeout) else None
       case Some(Exit(code)) =>
         && r.status in (if r.done <= 1 then {Running, Cancelled} else {Verdict(code), Cancelled})
         && (r.exitCode == if r.done == 0 then None else code)
         && r.error.None? && (r.finishedAt.Some? <==> r.done == 3)
       case Some(WaitError) =>
         && (if r.done == 0 then r.status in {Running, Cancelled} else r.status == Failed)
         && r.exitCode.None? && (r.finishedAt.Some? <==> r.done == 3)
         && r.error == if r.done >= 2 then Some(WaitFailed) else None
  }

  /** What may become of one run in one step, or in many. */
  predicate Follows(before: Run, after: Run) {
    && before.done <= after.done
    && (before.end.Some? ==> after.end == before.end)
    && (before.finishedAt.Some? ==> after.finishedAt == before.finishedAt)
    && (before.status.Running? || after.status == before.status
        || (before.status.Cancelled? && after.status.Failed? && after.end == Some(WaitError)))
    && (before.exitCode.Some? ==> after.exitCode == before.exitCode)
  }

  predicate PollSound(p: Poll, runs: map<RunId, Run>) {
    && p.run in runs
    && (p.exitCode.Some? ==> p.status.Some?) && (p.finishedAt.Some? ==> p.exitCode.Some?)
    && (p.status == Some(Success) ==> runs[p.run].exitCode == Some(0))
    && (p.status == Some(Success) && p.exitCode.Some? ==> p.exitCode.value == Some(0))
  }

  predicate GcSound(w: World) {
    w.gc.Scanning? ==>
      && w.gc.todo <= w.registry && w.gc.drop <= w.registry
      && forall id | id in w.gc.drop :: id in w.runs && Expired(w.runs[id], w.gc.reading)
  }

  predicate Sound(w: World) {
    && w.registry <= w.runs.Keys
    && (forall id | id in w.runs :: RunSound(w.runs[id]))
    && GcSound(w)
    && forall p | p in w.polls :: PollSound(w.polls[p], w.runs)
  }

  /** The run a step writes, as it was and as it becomes. */
  lemma OneRunStep(r: Run, step: Step)
    requires RunSound(r)
    requires step.Ends? ==> r.end.None?
    requires step.Supervise? ==> r.end.Some? && r.done < 3
    ensures step.Ends? ==> RunSound(r.(end := Some(step.end))) && Follows(r, r.(end := Some(step.end)))
    ensures step.Supervise? ==> RunSound(Supervised(r, step.clock)) && Follows(r, Supervised(r, step.clock))
    ensures RunSound(Settled(r, Cancelled)) && Follows(r, Settled(r, Cancelled))
  {
  }

  lemma RunsFollow(w: World, step: Step)
    requires Sound(w) && Enabled(w, step)
    ensures w.runs.Keys <= Next(w, step).runs.Keys
    ensures forall id | id in Next(w, step).runs :: RunSound(Next(w, step).runs[id])
    ensures forall id | id in w.runs :: Follows(w.runs[id], Next(w, step).runs[id])
  {
    hide RunSound, Supervised, Settled, Follows;
    assert RunSound(NEW_RUN) by { FreshIsSound(); }
    forall id | id in w.runs ensures Follows(w.runs[id], w.runs[id]) {
      FollowsItself(w.runs[id]);
    }
    if step.Ends? || step.Supervise? || step.Cancel? {
      OneRunStep(w.runs[step.id], step);
    }
  }

  lemma FreshIsSound()
    ensures RunSound(NEW_RUN)
  {
  }

  lemma FollowsItself(r: Run)
    ensures Follows(r, r)
  {
  }

  lemma FollowsOn(a: Run, b: Run, c: Run)
    requires Follows(a, b) && Follows(b, c) && RunSound(b) && RunSound(c)
    ensures Follows(a, c)
  {
  }

  lemma SuccessHasCode(r: Run)
    requires RunSound(r) && r.status.Success?
    ensures r.exitCode == Some(0)
  {
  }

  lemma PollsStaySound(w: World, step: Step)
    requires Sound(w) && Enabled(w, step)
    ensures forall p | p in Next(w, step).polls :: PollSound(Next(w, step).polls[p], Next(w, step).runs)
  {
    hide Supervised, Settled, RunSound, GcSound;
    RunsFollow(w, step);
    var after := Next(w, step);
    forall p | p in after.polls ensures PollSound(after.polls[p], after.runs) {
      if p in w.polls {
        var id := w.polls[p].run;
        assert RunSound(w.runs[id]) && Follows(w.runs[id], after.runs[id]);
        if w.runs[id].status.Success? { SuccessHasCode(w.runs[id]); }
      }
    }
  }

  lemma StepKeepsSound(w: World, step: Step)
    requires Sound(w) && Enabled(w, step)
    ensures Sound(Next(w, step))
  {
    RunsFollow(w, step);
    PollsStaySound(w, step);
    hide RunSound, Supervised, Settled, PollSound;
  }

  lemma {:induction false} RunsStaySound(ws: seq<World>, steps: seq<Step>, i: nat)
    requires Trace(ws, steps) && i < |ws|
    ensures Sound(ws[i])
  {
    hide Sound, Next, Enabled;
    if i == 0 {
      assert Sound(EMPTY) by { EmptyIsSound(); }
    } else {
      RunsStaySound(ws, steps, i - 1);
      StepKeepsSound(ws[i - 1], steps[i - 1]);
    }
  }

  lemma EmptyIsSound()
    ensures Sound(EMPTY)
  {
  }

  // ----- over whole runs ------------------------------------------------------------------

  /** From any moment to any later one a run only moves forward. */
  lemma {:induction false} RunsMoveForward(ws: seq<World>, steps: seq<Step>, i: nat, j: nat, id: RunId)
    requires Trace(ws, steps) && i <= j < |ws| && id in ws[i].runs
    ensures id in ws[j].runs && Follows(ws[i].runs[id], ws[j].runs[id])
    decreases j
  {
    hide Follows, Next, Enabled, RunSound, GcSound, PollSound;
    if i == j {
      FollowsItself(ws[i].runs[id]);
    } else {
      RunsMoveForward(ws, steps, i, j - 1, id);
      RunsStaySound(ws, steps, j - 1);
      RunsStaySound(ws, steps, j);
      RunsFollow(ws[j - 1], steps[j - 1]);
      FollowsOn(ws[i].runs[id], ws[j - 1].runs[id], ws[j].runs[id]);
    }
  }

  /** A run with a finish time is not running, and its finish time never changes. */
  lemma FinishIsFinal(ws: seq<World>, steps: seq<Step>, i: nat, j: nat, id: RunId)
    requires Trace(ws, steps) && i <= j < |ws| && id in ws[i].runs && ws[i].runs[id].finishedAt.Some?
    ensures !ws[i].runs[id].status.Running?
    ensures id in ws[j].runs && ws[j].runs[id].finishedAt == ws[i].runs[id].finishedAt
  {
    hide Next, Enabled;
    RunsStaySound(ws, steps, i);
    RunsMoveForward(ws, steps, i, j, id);
  }

  /** A cancelled run stays cancelled; only the wait-error branch overwrites it, with a failure. */
  lemma CancelledStays(ws: seq<World>, steps: seq<Step>, i: nat, j: nat, id: RunId)
    requires Trace(ws, steps) && i <= j < |ws| && id in ws[i].runs && ws[i].runs[id].status.Cancelled?
    ensures id in ws[j].runs
    ensures ws[j].runs[id].status.Cancelled? || (ws[j].runs[id].status.Failed? && ws[j].runs[id].end == Some(WaitError))
  {
    hide Next, Enabled;
    RunsMoveForward(ws, steps, i, j, id);
  }

  /** What the record says once the supervisor is through: the status, the code and the error agree. */
  lemma FinalRecord(ws: seq<World>, steps: seq<Step>, i: nat, id: RunId)
    requires Trace(ws, steps) && i < |ws| && id in ws[i].runs && ws[i].runs[id].done == 3
    ensures var r := ws[i].runs[id];
            && r.finishedAt.Some? && r.end.Some?
            && (r.status.Success? <==> !r.status.Cancelled? && r.exitCode == Some(0))
            && (r.status.TimedOut? <==> !r.status.Cancelled? && r.error == Some(ExceededTimeout))
            && (r.error == Some(WaitFailed) ==> r.status.Failed?)
            && (r.error.Some? ==> r.exitCode.None?)
  {
    hide Next, Enabled;
    RunsStaySound(ws, steps, i);
  }

  /**
   * The final record in full: how the process ended decides status, code and error, a cancel changes
   * only the status and not that of a failed wait, and the finish time is the clock of the section
   * that wrote it.
   */
  lemma FinalRecordIs(ws: seq<World>, steps: seq<Step>, i: nat, id: RunId) returns (k: nat)
    requires Trace(ws, steps) && i < |ws| && id in ws[i].runs && ws[i].runs[id].done == 3
    ensures var r := ws[i].runs[id];
            && k < i && steps[k].Supervise? && steps[k].id == id && r.finishedAt == Some(steps[k].clock)
            && r.end.Some?
            && match r.end.value
               case Timeout =>
                 && (r.status == TimedOut || r.status == Cancelled)
                 && r.exitCode == None && r.error == Some(ExceededTimeout)
               case Exit(code) =>
                 && (r.status == (if code == Some(0) then Success else Failed) || r.status == Cancelled)
                 && r.exitCode == code && r.error == None
               case WaitError => r.status == Failed && r.exitCode == None && r.error == Some(WaitFailed)
  {
    hide Next, Enabled;
    RunsStaySound(ws, steps, i);
    k := FinishClock(ws, steps, i, id);
  }

  lemma {:induction false} FinishClock(ws: seq<World>, steps: seq<Step>, i: nat, id: RunId) returns (k: nat)
    requires Trace(ws, steps) && i < |ws| && id in ws[i].runs && ws[i].runs[id].finishedAt.Some?
    ensures k < i && steps[k].Supervise? && steps[k].id == id && ws[i].runs[id].finishedAt == Some(steps[k].clock)
  {
    hide ReadOn;
    assert i > 0;
    assert Enabled(ws[i - 1], steps[i - 1]) && ws[i] == Next(ws[i - 1], steps[i - 1]);
    if id in ws[i - 1].runs && ws[i - 1].runs[id].finishedAt == ws[i].runs[id].finishedAt {
      k := FinishClock(ws, steps, i - 1, id);
    } else {
      k := i - 1;
    }
  }

  /** Which request writes what: a start registers a running run, a cancel makes a running run cancelled. */
  lemma RequestOutcome(w: World, step: Step)
    requires Enabled(w, step) && (step.Start? || step.Cancel?)
    ensures var w', id := Next(w, step), step.id;
            && w'.gc == w.gc && w'.polls == w.polls
            && w'.registry == (if step.Start? then w.registry + {id} else w.registry)
            && (step.Start? ==> w'.runs == w.runs[id := Run(Running, None, None, None, None, 0)])
            && (step.Cancel? ==> w'.runs == if w.runs[id].status == Running
                                            then w.runs[id := w.runs[id].(status := Cancelled)] else w.runs)
  {
    assert step.Cancel? && w.runs[step.id].status != Running ==> w.runs[step.id := w.runs[step.id]] == w.runs;
  }

  /** A cancel that meets a running run decides its status for good, unless the wait itself fails. */
  lemma CancelDecides(ws: seq<World>, steps: seq<Step>, i: nat, j: nat)
    requires Trace(ws, steps) && i < j < |ws| && steps[i].Cancel?
    requires steps[i].id in ws[i].runs && ws[i].runs[steps[i].id].status == Running
    ensures var id := steps[i].id;
            && id in ws[j].runs
            && (ws[j].runs[id].status == Cancelled || ws[j].runs[id].end == Some(WaitError))
  {
    hide Next, Enabled;
    assert Enabled(ws[i], steps[i]) && ws[i + 1] == Next(ws[i], steps[i]);
    RequestOutcome(ws[i], steps[i]);
    CancelledStays(ws, steps, i + 1, j, steps[i].id);
  }

  /** Only the sweeper removes a run, and only one that finished over five minutes before it woke. */
  lemma GcDropsOnlyOldRuns(ws: seq<World>, steps: seq<Step>, i: nat, id: RunId)
    requires Trace(ws, steps) && i < |steps| && id in ws[i].registry && id !in ws[i + 1].registry
    ensures steps[i].GcRemove? && ws[i].gc.Scanning? && id in ws[i].runs
    ensures ws[i].runs[id].finishedAt.Some? && !ws[i].runs[id].status.Running?
    ensures exists k | 0 <= k < i :: steps[k].GcWake? && ws[i].runs[id].finishedAt.value < steps[k].clock - KEEP_MS
  {
    hide Supervised, Settled, ReadOn;
    RunsStaySound(ws, steps, i);
    assert Enabled(ws[i], steps[i]) && ws[i + 1] == Next(ws[i], steps[i]);
    FinishIsFinal(ws, steps, i, i, id);
    var k := WokeAt(ws, steps, i);
    assert steps[k].GcWake?;
  }

  /** The reading the sweeper works with is the one it took when it woke. */
  lemma {:induction false} WokeAt(ws: seq<World>, steps: seq<Step>, i: nat) returns (k: nat)
    requires Trace(ws, steps) && i < |ws| && !ws[i].gc.Asleep?
    ensures k < i && steps[k] == GcWake(ws[i].gc.reading)
  {
    hide Supervised, Settled, ReadOn;
    assert i > 0;
    assert Enabled(ws[i - 1], steps[i - 1]) && ws[i] == Next(ws[i - 1], steps[i - 1]);
    if ws[i - 1].gc.Asleep? {
      k := i - 1;
    } else {
      k := WokeAt(ws, steps, i - 1);
    }
  }

  /** Finished over five minutes before the reading. */
  predicate IsOld(r: Run, reading: int) { r.finishedAt.Some? && r.finishedAt.value < reading - 300000 }

  /** The run is registered and finished over five minutes before the reading. */
  predicate Old(w: World, id: RunId, reading: int) {
    id in w.registry && id in w.runs && IsOld(w.runs[id], reading)
  }

  predicate Round(steps: seq<Step>, i: nat, j: nat) {
    i < j < |steps| && steps[i].GcLock? && steps[j].GcRemove? && forall k | i < k < j :: !steps[k].GcRemove?
  }

  /** And each round removes them all: a run that old when the sweeper takes the map is not in it afterwards. */
  lemma GcDropsOldRuns(ws: seq<World>, steps: seq<Step>, i: nat, j: nat, id: RunId)
    requires Trace(ws, steps) && Round(steps, i, j)
    requires ws[i].gc.Woken? && Old(ws[i], id, ws[i].gc.reading)
    ensures id !in ws[j + 1].registry && id in ws[j + 1].runs
  {
    hide Supervised, Settled, ReadOn;
    assert Enabled(ws[j], steps[j]) && ws[j + 1] == Next(ws[j], steps[j]);
    ScanReaches(ws, steps, i, j, id);
  }

  lemma {:induction false} ScanReaches(ws: seq<World>, steps: seq<Step>, i: nat, j: nat, id: RunId)
    requires Trace(ws, steps) && i < j <= |steps| && steps[i].GcLock? && forall k | i < k < j :: !steps[k].GcRemove?
    requires ws[i].gc.Woken? && Old(ws[i], id, ws[i].gc.reading)
    ensures Old(ws[j], id, ws[i].gc.reading) && ws[j].gc.Scanning? && ws[j].gc.reading == ws[i].gc.reading
    ensures id in ws[j].gc.todo || id in ws[j].gc.drop
    decreases j
  {
    hide Supervised, Settled, ReadOn, RunSound, PollSound;
    assert Enabled(ws[j - 1], steps[j - 1]) && ws[j] == Next(ws[j - 1], steps[j - 1]);
    if i + 1 < j {
      ScanReaches(ws, steps, i, j - 1, id);
      FinishIsFinal(ws, steps, j - 1, j, id);
    }
  }

  /** The sweeper's own steps touch no run: waking takes the reading, locking takes the map as it is. */
  lemma SweeperOutcome(w: World, step: Step)
    requires Enabled(w, step) && (step.GcWake? || step.GcLock? || step.GcRead? || step.GcRemove?)
    ensures var w' := Next(w, step);
            && w'.runs == w.runs && w'.polls == w.polls
            && (step.GcWake? ==> w'.gc == Woken(step.clock) && w'.registry == w.registry)
            && (step.GcLock? ==> w'.gc == Scanning(w.gc.reading, w.registry, {}) && w'.registry == w.registry)
            && (step.GcRead? ==>
                  && w'.registry == w.registry && w'.gc.Scanning? && w'.gc.reading == w.gc.reading
                  && w'.gc.todo == w.gc.todo - {step.id}
                  && w'.gc.drop == w.gc.drop + if IsOld(w.runs[step.id], w.gc.reading) then {step.id} else {})
            && (step.GcRemove? ==> w'.gc == Asleep && w'.registry == w.registry - w.gc.drop)
  {
  }

  /** One step; a step that is not enabled is skipped. */
  function Stepped(w: World, step: Step): World { if Enabled(w, step) then Next(w, step) else w }

  /** The scan left alone, over the ids of a list. */
  function Scanned(w: World, ids: seq<RunId>): World {
    if ids == [] then w else Stepped(Scanned(w, ids[..|ids| - 1]), GcRead(ids[|ids| - 1]))
  }

  lemma {:induction false} ScanCollects(w: World, ids: seq<RunId>)
    requires w.gc.Scanning? && w.gc.drop == {} && w.gc.todo <= w.runs.Keys
    requires forall i, j | 0 <= i < j < |ids| :: ids[i] != ids[j]
    requires forall i | 0 <= i < |ids| :: ids[i] in w.gc.todo
    ensures var w' := Scanned(w, ids);
            && w' == w.(gc := w'.gc) && w'.gc.Scanning? && w'.gc.reading == w.gc.reading
            && w'.gc.todo == w.gc.todo - (set x | x in ids)
            && w'.gc.drop == set x | x in ids && x in w.runs && IsOld(w.runs[x], w.gc.reading)
  {
    if ids != [] {
      var n := |ids| - 1;
      var before, last := ids[..n], ids[n];
      assert forall i | 0 <= i < n :: before[i] == ids[i];
      ScanCollects(w, before);
      assert last !in before;
      assert forall x :: x in ids <==> x in before || x == last;
    }
  }

  /** A whole round left alone keeps exactly the runs that are not over five minutes old. */
  lemma RoundKeepsYoung(w: World, clock: int, ids: seq<RunId>)
    requires w.gc.Asleep? && w.registry <= w.runs.Keys
    requires forall i, j | 0 <= i < j < |ids| :: ids[i] != ids[j]
    requires w.registry == set x | x in ids
    ensures var locked := Stepped(Stepped(w, GcWake(clock)), GcLock);
            var w' := Stepped(Scanned(locked, ids), GcRemove);
            w' == w.(registry := set x | x in w.registry && !IsOld(w.runs[x], clock))
  {
    hide Scanned, IsOld;
    var locked := Stepped(Stepped(w, GcWake(clock)), GcLock);
    assert locked == w.(gc := Scanning(clock, w.registry, {}));
    ScanCollects(locked, ids);
    assert Scanned(locked, ids).gc.todo == {};
  }

  // ----- snapshots ------------------------------------------------------------------------

  /** A finished snapshot that says success carries exit code 0. */
  lemma SuccessShowsItsCode(ws: seq<World>, steps: seq<Step>, i: nat, p: PollId)
    requires Trace(ws, steps) && i < |ws| && p in ws[i].polls && ws[i].polls[p].error.Some?
    requires ws[i].polls[p].status == Some(Success)
    ensures ws[i].polls[p].exitCode == Some(Some(0))
  {
    hide Next, Enabled;
    SnapshotOrder(ws, steps, i, p);
    RunsStaySound(ws, steps, i);
  }

  lemma {:induction false} SnapshotOrder(ws: seq<World>, steps: seq<Step>, i: nat, p: PollId)
    requires Trace(ws, steps) && i < |ws| && p in ws[i].polls && ws[i].polls[p].error.Some?
    ensures ws[i].polls[p].exitCode.Some?
  {
    hide Supervised, Settled;
    assert i > 0;
    assert Enabled(ws[i - 1], steps[i - 1]) && ws[i] == Next(ws[i - 1], steps[i - 1]);
    if p in ws[i - 1].polls && ws[i - 1].polls[p].error.Some? {
      SnapshotOrder(ws, steps, i - 1, p);
    }
  }

  /** The status a snapshot shows is that of the run at the snapshot's first read. */
  lemma {:induction false} StatusRead(ws: seq<World>, steps: seq<Step>, i: nat, p: PollId) returns (a: nat)
    requires Trace(ws, steps) && i < |ws| && p in ws[i].polls && ws[i].polls[p].status.Some?
    ensures a < i && steps[a] == PollRead(p) && p in ws[a].polls && ws[a].polls[p].status.None?
    ensures ws[a].polls[p].run == ws[i].polls[p].run && ws[i].polls[p].run in ws[a].runs
    ensures ws[i].polls[p].status == Some(ws[a].runs[ws[i].polls[p].run].status)
  {
    hide Supervised, Settled;
    assert i > 0;
    assert Enabled(ws[i - 1], steps[i - 1]) && ws[i] == Next(ws[i - 1], steps[i - 1]);
    if p in ws[i - 1].polls && ws[i - 1].polls[p].status.Some? {
      a := StatusRead(ws, steps, i - 1, p);
    } else {
      a := i - 1;
    }
  }

  /** The finish time it shows is that of the run at its third read; the status is read before. */
  lemma {:induction false} FinishRead(ws: seq<World>, steps: seq<Step>, i: nat, p: PollId) returns (c: nat)
    requires Trace(ws, steps) && i < |ws| && p in ws[i].polls && ws[i].polls[p].finishedAt.Some?
    ensures c < i && steps[c] == PollRead(p) && p in ws[c].polls
    ensures ws[c].polls[p].exitCode.Some? && ws[c].polls[p].finishedAt.None?
    ensures ws[c].polls[p].run == ws[i].polls[p].run && ws[i].polls[p].run in ws[c].runs
    ensures ws[c].polls[p].status == ws[i].polls[p].status
    ensures ws[i].polls[p].finishedAt == Some(ws[c].runs[ws[i].polls[p].run].finishedAt)
  {
    hide Supervised, Settled, RunSound, GcSound;
    assert i > 0;
    assert Enabled(ws[i - 1], steps[i - 1]) && ws[i] == Next(ws[i - 1], steps[i - 1]);
    RunsStaySound(ws, steps, i - 1);
    assert p in ws[i - 1].polls ==> PollSound(ws[i - 1].polls[p], ws[i - 1].runs);
    if p in ws[i - 1].polls && ws[i - 1].polls[p].finishedAt.Some? {
      c := FinishRead(ws, steps, i - 1, p);
    } else {
      c := i - 1;
    }
  }

  /** The supervisor's section that writes the finish time of run `id`. */
  predicate WritesFinish(w: World, step: Step, id: RunId) {
    && step.Supervise? && step.id == id && id in w.runs && w.runs[id].end.Some?
    && w.runs[id].done == if w.runs[id].end.value.Timeout? then 1 else 2
  }

  /** Between a moment without a finish time and one with it, the supervisor writes it. */
  lemma {:induction false} FinishWritten(ws: seq<World>, steps: seq<Step>, a: nat, c: nat, id: RunId) returns (k: nat)
    requires Trace(ws, steps) && a <= c < |ws| && id in ws[a].runs && id in ws[c].runs
    requires ws[a].runs[id].finishedAt.None? && ws[c].runs[id].finishedAt.Some?
    ensures a <= k < c && WritesFinish(ws[k], steps[k], id)
    decreases c
  {
    hide ReadOn;
    RunsMoveForward(ws, steps, a, c - 1, id);
    assert Enabled(ws[c - 1], steps[c - 1]) && ws[c] == Next(ws[c - 1], steps[c - 1]);
    if ws[c - 1].runs[id].finishedAt.Some? {
      k := FinishWritten(ws, steps, a, c - 1, id);
    } else {
      k := c - 1;
    }
  }

  lemma WritingFinishes(w: World, step: Step, id: RunId)
    requires Enabled(w, step) && WritesFinish(w, step, id)
    ensures id in Next(w, step).runs && Next(w, step).runs[id].finishedAt.Some?
  {
  }

  /** The snapshot shows a running run that has finished: no state of any run looks like that. */
  predicate Torn(p: Poll) { p.status == Some(Running) && p.finishedAt.Some? && p.finishedAt.value.Some? }

  /**
   * The fields are read under separate locks. A snapshot that has read its finish time is torn
   * exactly when the run was still running at the first read, `a`, and the supervisor wrote the
   * finish time between that read and the third, `c`.
   */
  lemma SnapshotIsTornIff(ws: seq<World>, steps: seq<Step>, i: nat, p: PollId) returns (a: nat, c: nat)
    requires Trace(ws, steps) && i < |ws| && p in ws[i].polls && ws[i].polls[p].finishedAt.Some?
    ensures a < c < i && steps[a] == steps[c] == PollRead(p) && p in ws[a].polls && p in ws[c].polls
    ensures ws[a].polls[p].status.None?
    ensures ws[c].polls[p].exitCode.Some? && ws[c].polls[p].finishedAt.None?
    ensures var id := ws[i].polls[p].run;
            id in ws[a].runs &&
            (Torn(ws[i].polls[p]) <==>
             ws[a].runs[id].status.Running? && exists k | a < k < c :: WritesFinish(ws[k], steps[k], id))
  {
    hide Next, Enabled, RunSound, GcSound, ReadOn, WritesFinish;
    var id := ws[i].polls[p].run;
    c := FinishRead(ws, steps, i, p);
    RunsStaySound(ws, steps, c);
    assert PollSound(ws[c].polls[p], ws[c].runs);
    a := StatusRead(ws, steps, c, p);
    if Torn(ws[i].polls[p]) {
      if ws[a].runs[id].finishedAt.Some? { FinishIsFinal(ws, steps, a, a, id); }
      var k := FinishWritten(ws, steps, a, c, id);
      assert k != a by { assert !WritesFinish(ws[a], steps[a], id) by { ReadWritesNothing(ws[a], p, id); } }
    }
    forall k | a < k < c && WritesFinish(ws[k], steps[k], id) ensures ws[c].runs[id].finishedAt.Some? {
      WritingFinishes(ws[k], steps[k], id);
      assert ws[k + 1] == Next(ws[k], steps[k]);
      RunsMoveForward(ws, steps, k + 1, c, id);
    }
  }

  lemma ReadWritesNothing(w: World, p: PollId, id: RunId)
    ensures !WritesFinish(w, PollRead(p), id)
  {
  }

  /** A trace with one more step. */
  lemma Took(ws: seq<World>, steps: seq<Step>, step: Step) returns (ws': seq<World>, steps': seq<Step>)
    requires Trace(ws, steps) && Enabled(ws[|steps|], step)
    ensures Trace(ws', steps') && |steps'| == |steps| + 1
    ensures ws'[|steps'|] == Next(ws[|steps|], step)
  {
    hide Enabled, Next;
    ws', steps' := ws + [Next(ws[|steps|], step)], steps + [step];
  }

  /** It does happen: a complete snapshot that is torn. */
  lemma SnapshotCanBeTorn() returns (ws: seq<World>, steps: seq<Step>, p: PollId)
    ensures Trace(ws, steps) && p in ws[|steps|].polls
    ensures Torn(ws[|steps|].polls[p]) && ws[|steps|].polls[p].error.Some?
  {
    p := 0;
    ws, steps := [EMPTY], [];
    ws, steps := Took(ws, steps, Start(0));
    ws, steps := Took(ws, steps, PollBegin(0, 0));
    ws, steps := Took(ws, steps, PollRead(0));
    ws, steps := Took(ws, steps, Ends(0, Timeout));
    ws, steps := Took(ws, steps, Supervise(0, 1));
    ws, steps := Took(ws, steps, Supervise(0, 2));
    ws, steps := Took(ws, steps, PollRead(0));
    ws, steps := Took(ws, steps, PollRead(0));
    ws, steps := Took(ws, steps, PollRead(0));
  }
}
