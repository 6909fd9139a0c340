/**
 * The dead-man's switch of pier-net-helper (main.rs): wg0.conf, its backup, the live interface,
 * the rollback slot and the timer tasks, one request at a time.
 */
module NetHelper {
  import opened Text
  import opened WgConf
  import WgRead

  const MAX_ROLLBACK_AFTER_SEC := 600

  type TaskId = nat

  /** A spawned rollback task that is still asleep. */
  datatype Task = Task(armedAt: nat, deadline: nat)

  /**
   * `live` is the configuration wg0 runs, None while it is down. The slot holds the handle of a
   * task; the tasks themselves live on until they fire or are aborted.
   */
  datatype Host = Host(
    conf: Option<string>,
    bak: Option<string>,
    key: Option<string>,
    live: Option<string>,
    slot: Option<TaskId>,
    tasks: map<TaskId, Task>,
    nextTask: TaskId,
    now: nat)

  /** Results of the file copy in `apply`: a failed copy leaves any text behind. */
  datatype Copy = Copied | CopyFailed(left: Option<string>)

  datatype ApplyIo = ApplyIo(copy: Copy, bakRemoved: bool, synced: bool)

  datatype RestoreIo = RestoreIo(statOk: bool, renamed: bool, synced: bool, confRemoved: bool, downed: bool)

  /** One request, one firing, or time passing; the flags are what the files and tools answer. */
  datatype Step =
    | GenerateKeypair(genkey: Option<string>, saved: bool, derived: bool)
    | WriteConfig(content: string, saved: bool)
    | Apply(after: nat, applyIo: ApplyIo)
    | Commit(bakRemoved: bool)
    | Rollback(io: RestoreIo)
    | Fire(task: TaskId, io: RestoreIo)
    | Up(toolOk: bool)
    | Down(toolOk: bool)
    | Uninstall(downed: bool, confRemoved: bool, bakRemoved: bool, keyRemoved: bool)
    | Tick(seconds: nat)

  // ----- what each step does to the host --------------------------------------------------

  function NonEmpty(s: string): Option<string> { if s == "" then None else Some(s) }

  /** The key in wg0.privkey, None when the file is missing or blank. */
  function NodeKey(h: Host): Option<string> {
    match h.key
    case None => None
    case Some(text) => NonEmpty(Trim(text))
  }

  /** The text `write_config` puts on disk, None when a check before the write refuses. */
  function Writable(h: Host, content: string): Option<string> {
    if !AcceptedText(content, true) || NodeKey(h).None? then None
    else
      var text := InjectedText(content, NodeKey(h).value);
      if text.Some? && AcceptedText(text.value, false) then text else None
  }

  function Cancelled(h: Host): Host {
    match h.slot
    case None => h
    case Some(t) => h.(slot := None, tasks := h.tasks - {t})
  }

  /** Both tools read wg0.conf, so neither succeeds without it. */
  function Synced(h: Host, ok: bool): Host { if ok && h.conf.Some? then h.(live := h.conf) else h }

  function Downed(h: Host, ok: bool): Host { if ok then h.(live := None) else h }

  function Snapshot(h: Host, io: ApplyIo): Host {
    if h.conf.None? then (if io.bakRemoved then h.(bak := None) else h)
    else match io.copy
      case Copied => h.(bak := h.conf)
      case CopyFailed(left) => h.(bak := left)
  }

  predicate SnapshotOk(h: Host, io: ApplyIo) { h.conf.None? || io.copy.Copied? }

  function Armed(h: Host, after: nat): Host {
    h.(slot := Some(h.nextTask), nextTask := h.nextTask + 1,
       tasks := h.tasks[h.nextTask := Task(h.now, h.now + after)])
  }

  predicate ValidDelay(after: nat) { 1 <= after <= MAX_ROLLBACK_AFTER_SEC }

  /** The apply reaches the line that stores the timer's handle. */
  predicate ArmsTimer(h: Host, after: nat, io: ApplyIo) {
    ValidDelay(after) && SnapshotOk(h, io) && h.conf.Some? && io.synced
  }

  function Applied(h: Host, after: nat, io: ApplyIo): Host {
    if !ValidDelay(after) then h
    else
      var h' := Snapshot(Cancelled(h), io);
      if ArmsTimer(h, after, io) then Armed(Synced(h', true), after) else h'
  }

  function Restored(h: Host, io: RestoreIo): Host {
    if !io.statOk then h
    else match h.bak
      case Some(text) => if io.renamed then Synced(h.(conf := h.bak, bak := None), io.synced) else h
      case None => Downed(if io.confRemoved then h.(conf := None) else h, io.downed)
  }

  predicate RestoredOk(h: Host, io: RestoreIo) {
    io.statOk && (h.bak.Some? ==> io.renamed && io.synced)
  }

  predicate Enabled(h: Host, step: Step) {
    step.Fire? ==> step.task in h.tasks && h.tasks[step.task].deadline <= h.now
  }

  function Next(h: Host, step: Step): Host {
    match step
    case GenerateKeypair(genkey, saved, _) =>
      if NodeKey(h).None? && genkey.Some? && Trim(genkey.value) != "" && saved
      then h.(key := Some(Trim(genkey.value) + "\n")) else h
    case WriteConfig(content, saved) =>
      if Writable(h, content).Some? && saved then h.(conf := Writable(h, content)) else h
    case Apply(after, io) => Applied(h, after, io)
    case Commit(removed) => var h' := Cancelled(h); if removed then h'.(bak := None) else h'
    case Rollback(io) => Restored(Cancelled(h), io)
    case Fire(t, io) => Restored(h, io).(slot := None, tasks := h.tasks - {t})
    case Up(ok) => Synced(h, ok)
    case Down(ok) => Downed(h, ok)
    case Uninstall(downed, confRemoved, bakRemoved, keyRemoved) =>
      var h1 := Downed(Cancelled(h), downed);
      h1.(conf := if confRemoved then None else h.conf,
          bak := if bakRemoved then None else h.bak,
          key := if keyRemoved then None else h.key)
    case Tick(d) => h.(now := h.now + d)
  }

  /** Whether the request is answered with ok. */
  predicate Succeeds(h: Host, step: Step) {
    match step
    case GenerateKeypair(genkey, saved, derived) =>
      (NodeKey(h).Some? || (genkey.Some? && Trim(genkey.value) != "" && saved)) && derived
    case WriteConfig(content, saved) => Writable(h, content).Some? && saved
    case Apply(after, io) => ArmsTimer(h, after, io)
    case Rollback(io) => RestoredOk(h, io)
    case Fire(_, io) => RestoredOk(h, io)
    case Up(ok) => ok && h.conf.Some?
    case _ => true
  }

  // ----- the helper process ---------------------------------------------------------------

  class HelperState {
    var conf: Option<string>
    var bak: Option<string>
    var key: Option<string>
    var live: Option<string>
    var rollback: Option<TaskId>
    var tasks: map<TaskId, Task>
    var nextTask: TaskId
    var now: nat

    function Model(): Host
      reads this
    {
      Host(conf, bak, key, live, rollback, tasks, nextTask, now)
    }

    constructor ()
      ensures Model() == Host(None, None, None, None, None, map[], 0, 0)
    {
      conf, bak, key, live, rollback, tasks, nextTask, now := None, None, None, None, None, map[], 0, 0;
    }

    method CancelPendingRollback()
      modifies this
      ensures Model() == Cancelled(old(Model()))
    {
      if rollback.Some? {
        tasks := tasks - {rollback.value};
        rollback := None;
      }
    }

    /** Strips wg0.conf to a temporary file and hands that to `wg syncconf`. */
    method SyncConf(toolOk: bool) returns (ok: bool)
      modifies this`live
      ensures Model() == Synced(old(Model()), toolOk)
      ensures ok <==> toolOk && conf.Some?
    {
      ok := conf.Some? && toolOk;
      if ok {
        live := conf;
      }
    }

    /** `derived`: whether `wg pubkey` makes the public half of the node's key. */
    method GenerateKeypair(genkey: Option<string>, saved: bool, derived: bool) returns (ok: bool)
      modifies this
      ensures Model() == Next(old(Model()), Step.GenerateKeypair(genkey, saved, derived))
      ensures ok == Succeeds(old(Model()), Step.GenerateKeypair(genkey, saved, derived))
    {
      hide Text.Trim;
      if key.None? || Trim(key.value) == "" {
        if genkey.None? || Trim(genkey.value) == "" || !saved {
          return false;
        }
        key := Some(Trim(genkey.value) + "\n");
      }
      return derived;
    }

    method WriteConfig(content: string, saved: bool) returns (ok: bool)
      modifies this
      ensures Model() == Next(old(Model()), Step.WriteConfig(content, saved))
      ensures ok == Succeeds(old(Model()), Step.WriteConfig(content, saved))
    {
      hide AcceptedText, InjectedText, Text.Trim;
      var v := Validate(content, true);
      if v.Reject? || key.None? {
        return false;
      }
      var privateKey := Trim(key.value);
      if privateKey == "" {
        return false;
      }
      var injected := InjectPrivateKey(content, privateKey);
      if injected.None? {
        return false;
      }
      v := Validate(injected.value, false);
      if v.Reject? || !saved {
        return false;
      }
      conf := injected;
      return true;
    }

    method Apply(after: nat, io: ApplyIo) returns (ok: bool)
      modifies this
      ensures Model() == Next(old(Model()), Step.Apply(after, io))
      ensures ok == Succeeds(old(Model()), Step.Apply(after, io))
    {
      if after == 0 || after > MAX_ROLLBACK_AFTER_SEC {
        return false;
      }
      CancelPendingRollback();
      if conf.Some? {
        match io.copy
        case Copied =>
          bak := conf;
        case CopyFailed(left) =>
          bak := left;
          return false;
      } else if io.bakRemoved {
        bak := None;
      }
      ok := SyncConf(io.synced);
      if !ok {
        return false;
      }
      tasks := tasks[nextTask := Task(now, now + after)];
      rollback := Some(nextTask);
      nextTask := nextTask + 1;
      return true;
    }

    method Commit(bakRemoved: bool)
      modifies this
      ensures Model() == Next(old(Model()), Step.Commit(bakRemoved))
    {
      CancelPendingRollback();
      if bakRemoved {
        bak := None;
      }
    }

    method PerformRollback(io: RestoreIo) returns (ok: bool)
      modifies this
      ensures Model() == Restored(old(Model()), io)
      ensures ok == RestoredOk(old(Model()), io)
    {
      if !io.statOk {
        return false;
      }
      if bak.Some? {
        if !io.renamed {
          return false;
        }
        conf, bak := bak, None;
        ok := SyncConf(io.synced);
        if !ok {
          return false;
        }
      } else {
        if io.confRemoved {
          conf := None;
        }
        if io.downed {
          live := None;
        }
      }
      return true;
    }

    method Rollback(io: RestoreIo) returns (ok: bool)
      modifies this
      ensures Model() == Next(old(Model()), Step.Rollback(io))
      ensures ok == Succeeds(old(Model()), Step.Rollback(io))
    {
      CancelPendingRollback();
      ok := PerformRollback(io);
    }

    method Fire(t: TaskId, io: RestoreIo)
      requires Enabled(Model(), Step.Fire(t, io))
      modifies this
      ensures Model() == Next(old(Model()), Step.Fire(t, io))
    {
      var _ := PerformRollback(io);
      rollback := None;
      tasks := tasks - {t};
    }

    method Uninstall(downed: bool, confRemoved: bool, bakRemoved: bool, keyRemoved: bool)
      modifies this
      ensures Model() == Next(old(Model()), Step.Uninstall(downed, confRemoved, bakRemoved, keyRemoved))
    {
      CancelPendingRollback();
      if downed { live := None; }
      if confRemoved { conf := None; }
      if bakRemoved { bak := None; }
      if keyRemoved { key := None; }
    }

    method Up(toolOk: bool) returns (ok: bool)
      modifies this
      ensures Model() == Next(old(Model()), Step.Up(toolOk))
      ensures ok == Succeeds(old(Model()), Step.Up(toolOk))
    {
      ok := SyncConf(toolOk);
    }

    method Down(toolOk: bool)
      modifies this
      ensures Model() == Next(old(Model()), Step.Down(toolOk))
    {
      if toolOk {
        live := None;
      }
    }
  }

  // ----- runs -----------------------------------------------------------------------------

  /** A serialised run: every step is taken in one piece, with any answers from files and tools. */
  ghost predicate IsRun(hs: seq<Host>, steps: seq<Step>) {
    && |hs| == |steps| + 1
    && Idle(hs[0])
    && forall i | 0 <= i < |steps| :: Enabled(hs[i], steps[i]) && hs[i + 1] == Next(hs[i], steps[i])
  }

  /** A freshly started helper: any files, no timer. */
  predicate Idle(h: Host) { h.slot.None? && h.tasks == map[] }

  /** The slot and the sleeping tasks agree: at most one task, and the slot can abort it. */
  predicate OneTimer(h: Host) {
    match h.slot
    case None => h.tasks == map[]
    case Some(t) => h.tasks.Keys == {t} && t < h.nextTask
  }

  predicate Arms(h: Host, step: Step) { step.Apply? && ArmsTimer(h, step.after, step.applyIo) }

  /** A step that takes the slot: whatever was armed before it is gone. */
  predicate Disarms(step: Step) {
    match step
    case Apply(after, _) => ValidDelay(after)
    case Commit(_) => true
    case Rollback(_) => true
    case Fire(_, _) => true
    case Uninstall(_, _, _, _) => true
    case _ => false
  }

  lemma {:induction false} AtMostOneTimer(hs: seq<Host>, steps: seq<Step>, j: nat)
    requires IsRun(hs, steps) && j <= |steps|
    ensures OneTimer(hs[j])
  {
    if j > 0 {
      AtMostOneTimer(hs, steps, j - 1);
      KeepsOneTimer(hs[j - 1], steps[j - 1]);
    }
  }

  lemma KeepsOneTimer(h: Host, step: Step)
    requires OneTimer(h) && Enabled(h, step)
    ensures OneTimer(Next(h, step))
  {
    hide Writable, NodeKey, Text.Trim;
    if step.Fire? { assert h.tasks.Keys == {step.task}; }
  }

  // ----- what every request leaves behind --------------------------------------------------

  /**
   * An apply is answered with ok exactly when its delay is allowed, wg0.conf is there and can be
   * copied, and the sync works. Then the interface runs wg0.conf, the backup holds the same text
   * and exactly one task sleeps, for the asked delay. Otherwise interface and file stay as they are.
   */
  lemma ApplyOutcome(hs: seq<Host>, steps: seq<Step>, i: nat)
    requires IsRun(hs, steps) && i < |steps| && steps[i].Apply?
    ensures var h, h', after, io := hs[i], hs[i + 1], steps[i].after, steps[i].applyIo;
            var valid := 1 <= after <= 600;
            var ok := Succeeds(h, steps[i]);
            && (ok <==> valid && h.conf.Some? && io.copy.Copied? && io.synced)
            && h'.conf == h.conf && h'.key == h.key && h'.now == h.now
            && h'.live == (if ok then h.conf else h.live)
            && h'.slot == (if ok then Some(h.nextTask) else if valid then None else h.slot)
            && h'.tasks == (if ok then map[h.nextTask := Task(h.now, h.now + after)]
                            else if valid then map[] else h.tasks)
            && h'.bak == (if !valid || (h.conf.None? && !io.bakRemoved) then h.bak
                          else if h.conf.None? || io.copy.Copied? then h.conf
                          else io.copy.left)
  {
    hide NodeKey, Writable;
    AtMostOneTimer(hs, steps, i);
    AtMostOneTimer(hs, steps, i + 1);
  }

  /**
   * An undo, by a request or by the timer: with a backup that can be renamed, wg0.conf is that
   * backup, and runs if the sync works; without a backup, file and interface go as far as the tools
   * allow. No timer is left.
   */
  lemma UndoOutcome(hs: seq<Host>, steps: seq<Step>, i: nat)
    requires IsRun(hs, steps) && i < |steps| && (steps[i].Rollback? || steps[i].Fire?)
    ensures var h, h', io := hs[i], hs[i + 1], steps[i].io;
            var renamed, absent := io.statOk && h.bak.Some? && io.renamed, io.statOk && h.bak.None?;
            && (Succeeds(h, steps[i]) <==> absent || (renamed && io.synced))
            && h'.conf == (if renamed then h.bak else if absent && io.confRemoved then None else h.conf)
            && h'.bak == (if renamed then None else h.bak)
            && h'.live == (if renamed && io.synced then h.bak else if absent && io.downed then None else h.live)
            && h'.slot == None && h'.tasks == map[] && h'.key == h.key && h'.now == h.now
  {
    hide NodeKey, Writable;
    AtMostOneTimer(hs, steps, i);
    AtMostOneTimer(hs, steps, i + 1);
  }

  /** A commit and an uninstall leave no timer; the rest of the host loses only what was removed. */
  lemma CommitOutcome(hs: seq<Host>, steps: seq<Step>, i: nat)
    requires IsRun(hs, steps) && i < |steps| && (steps[i].Commit? || steps[i].Uninstall?)
    ensures var h, h', step := hs[i], hs[i + 1], steps[i];
            && Succeeds(h, step)
            && h'.slot == None && h'.tasks == map[] && h'.now == h.now
            && h'.bak == (if step.bakRemoved then None else h.bak)
            && h'.conf == (if step.Uninstall? && step.confRemoved then None else h.conf)
            && h'.live == (if step.Uninstall? && step.downed then None else h.live)
            && h'.key == (if step.Uninstall? && step.keyRemoved then None else h.key)
  {
    AtMostOneTimer(hs, steps, i);
    AtMostOneTimer(hs, steps, i + 1);
  }

  /** Starting and stopping touch the interface only, and a clock tick nothing but the clock. */
  lemma InterfaceOutcome(h: Host, step: Step)
    requires step.Up? || step.Down? || step.Tick?
    ensures var h' := Next(h, step);
            && h' == h.(live := h'.live, now := h'.now)
            && h'.now == h.now + (if step.Tick? then step.seconds else 0)
            && h'.live == (if step.Up? && step.toolOk && h.conf.Some? then h.conf
                           else if step.Down? && step.toolOk then None else h.live)
            && (Succeeds(h, step) <==> (step.Up? ==> step.toolOk && h.conf.Some?))
  {
  }

  /**
   * After a successful key generation the node has a key: the one it had, or else what the tool
   * made. It fails exactly when there is no key and none can be made and saved, or when the tool
   * does not derive its public half; nothing but the key changes.
   */
  lemma KeypairOutcome(h: Host, genkey: Option<string>, saved: bool, derived: bool)
    ensures var step := GenerateKeypair(genkey, saved, derived);
            var h' := Next(h, step);
            var had := h.key.Some? && Trim(h.key.value) != "";
            var made := genkey.Some? && Trim(genkey.value) != "" && saved;
            && h' == h.(key := h'.key)
            && (Succeeds(h, step) <==> (had || made) && derived)
            && (had || !made ==> h'.key == h.key)
            && (!had && made ==> NodeKey(h') == Some(Trim(genkey.value)))
  {
    hide Text.Trim;
    if genkey.Some? {
      TrimTwice(genkey.value);
      TrimNewline(Trim(genkey.value));
    }
  }

  /**
   * A write is answered with ok exactly when the text passes the form of the whitelist used over
   * the wire, the node has a key, some line is an [Interface] header, the injected text passes the
   * whole whitelist, and the save works. Then, for a single-line key, wg0.conf reads as the text with
   * that key behind its first header. Nothing but wg0.conf changes, and not that in a refused write.
   */
  lemma WriteOutcome(h: Host, content: string, saved: bool)
    ensures var step, ls := WriteConfig(content, saved), Lines(content);
            var h' := Next(h, step);
            && h' == h.(conf := h'.conf)
            && (!Succeeds(h, step) ==> h' == h)
            && (Succeeds(h, step) ==>
                  && saved && AcceptedText(content, true) && NodeKey(h).Some?
                  && h'.conf.Some? && AcceptedText(h'.conf.value, false)
                  && ('\n' !in NodeKey(h).value ==> HoldsKeyed(ls, Lines(h'.conf.value), NodeKey(h).value)))
            && (NodeKey(h).Some? && '\n' !in NodeKey(h).value ==>
                  (Succeeds(h, step) <==>
                     saved && AcceptedText(content, true)
                     && exists k | 0 <= k < |ls| :: WgRead.IsInterfaceLine(ls[k])))
  {
    hide AcceptedText, InjectedText, NodeKey, Text.Trim, Text.Lines, WgRead.IsInterfaceLine, HoldsKeyed;
    if NodeKey(h).Some? && '\n' !in NodeKey(h).value {
      var key, ls := NodeKey(h).value, Lines(content);
      NodeKeyIsTrimmed(h);
      WgRead.InjectableIff(content, key);
      if AcceptedText(content, true) { RecheckNeverRefuses(h, content); }
      if exists k | 0 <= k < |ls| :: WgRead.IsInterfaceLine(ls[k]) { InjectedHoldsKey(content, key); }
    }
  }

  lemma NodeKeyIsTrimmed(h: Host)
    requires NodeKey(h).Some?
    ensures Trim(NodeKey(h).value) == NodeKey(h).value
  {
    hide Text.Trim;
    TrimTwice(h.key.value);
  }

  /** `after` reads as `ls` with a PrivateKey directive behind the first [Interface] header. */
  predicate HoldsKeyed(ls: seq<string>, after: seq<string>, key: string) {
    exists k | 0 <= k < |ls| ::
      && WgRead.IsInterfaceLine(ls[k])
      && (forall i | 0 <= i < k :: !WgRead.IsInterfaceLine(ls[i]))
      && |after| == |ls| + 1
      && (forall j | 0 <= j <= k :: WgRead.ItemsOfLine(after[j]) == WgRead.ItemsOfLine(ls[j]))
      && WgRead.ItemsOfLine(after[k + 1]) == [WgRead.Setting("PrivateKey", key)]
      && (forall j | k < j < |ls| :: WgRead.ItemsOfLine(after[j + 1]) == WgRead.ItemsOfLine(ls[j]))
  }

  lemma InjectedHoldsKey(content: string, key: string)
    requires '\n' !in key && Trim(key) == key
    requires exists k | 0 <= k < |Lines(content)| :: WgRead.IsInterfaceLine(Lines(content)[k])
    ensures InjectedText(content, key).Some?
    ensures HoldsKeyed(Lines(content), Lines(InjectedText(content, key).value), key)
  {
    hide Text.Trim, Text.Lines, WgRead.IsInterfaceLine, WgRead.ItemsOfLine, InjectedText;
    var ls := Lines(content);
    var k := FirstHeader(ls);
    WgRead.InjectionReads(content, key, k);
  }

  lemma {:induction false} FirstHeader(ls: seq<string>) returns (k: nat)
    requires exists k | 0 <= k < |ls| :: WgRead.IsInterfaceLine(ls[k])
    ensures k < |ls| && WgRead.IsInterfaceLine(ls[k]) && forall i | 0 <= i < k :: !WgRead.IsInterfaceLine(ls[i])
  {
    hide WgRead.IsInterfaceLine;
    if WgRead.IsInterfaceLine(ls[0]) {
      k := 0;
    } else {
      var i :| 0 <= i < |ls| && WgRead.IsInterfaceLine(ls[i]);
      assert WgRead.IsInterfaceLine(ls[1..][i - 1]);
      var m := FirstHeader(ls[1..]);
      k := m + 1;
      assert forall i | 1 <= i < k :: ls[i] == ls[1..][i - 1];
    }
  }

  /** The apply at step `i` armed the timer that is armed at `j`, and nothing took the slot since. */
  ghost predicate ArmedBy(hs: seq<Host>, steps: seq<Step>, i: nat, j: nat)
    requires IsRun(hs, steps) && j <= |steps|
  {
    && i < j
    && Arms(hs[i], steps[i])
    && hs[j].slot == Some(hs[i].nextTask)
    && hs[j].tasks == map[hs[i].nextTask := Task(hs[i].now, hs[i].now + steps[i].after)]
    && forall k | i < k < j :: !Disarms(steps[k])
  }

  /**
   * While a timer is armed, some apply armed it, and the backup is the file as of that apply,
   * whatever was written since.
   */
  lemma {:induction false} ArmedBackup(hs: seq<Host>, steps: seq<Step>, j: nat) returns (i: nat)
    requires IsRun(hs, steps) && j <= |steps| && hs[j].slot.Some?
    ensures ArmedBy(hs, steps, i, j)
    ensures hs[i].now < hs[i].now + steps[i].after <= hs[i].now + MAX_ROLLBACK_AFTER_SEC
    ensures hs[j].bak == hs[i].conf && hs[i].conf.Some?
    ensures hs[i].now <= hs[j].now
  {
    hide Writable, NodeKey, Text.Trim, Restored, Disarms;
    var h, step := hs[j - 1], steps[j - 1];
    AtMostOneTimer(hs, steps, j - 1);
    assert Enabled(h, step) && hs[j] == Next(h, step);
    if Arms(h, step) {
      i := j - 1;
    } else {
      StaysTheSameTimer(h, step);
      i := ArmedBackup(hs, steps, j - 1);
    }
  }

  /** A step that neither arms nor takes the slot leaves timer and backup alone. */
  lemma StaysTheSameTimer(h: Host, step: Step)
    requires OneTimer(h) && Enabled(h, step) && Next(h, step).slot.Some? && !Arms(h, step)
    ensures !Disarms(step) && h.now <= Next(h, step).now
    ensures Next(h, step).slot == h.slot && Next(h, step).tasks == h.tasks && Next(h, step).bak == h.bak
  {
    hide Writable, NodeKey, Text.Trim;
  }

  /** An undo of an armed change: its timer firing, or an explicit rollback before that. */
  predicate Undoes(h: Host, step: Step) { step.Fire? || (step.Rollback? && h.slot.Some?) }

  /**
   * An undo whose rename succeeds puts back exactly the bytes wg0.conf had at the apply that armed
   * the timer, and runs them when its sync succeeds too. A firing has waited at least the asked delay.
   */
  lemma UndoRestores(hs: seq<Host>, steps: seq<Step>, j: nat) returns (i: nat)
    requires IsRun(hs, steps) && j < |steps| && Undoes(hs[j], steps[j])
    ensures ArmedBy(hs, steps, i, j)
    ensures steps[j].Fire? ==> hs[j].slot == Some(steps[j].task) && hs[i].now + steps[i].after <= hs[j].now
    ensures hs[i].conf.Some? && hs[j].bak == hs[i].conf
    ensures steps[j].io.statOk && steps[j].io.renamed ==>
              && hs[j + 1].conf == hs[i].conf && hs[j + 1].bak.None?
              && hs[j + 1].live == if steps[j].io.synced then hs[i].conf else hs[j].live
    ensures hs[j + 1].slot.None? && hs[j + 1].tasks == map[]
  {
    hide Writable, NodeKey, Text.Trim;
    AtMostOneTimer(hs, steps, j);
    AtMostOneTimer(hs, steps, j + 1);
    i := ArmedBackup(hs, steps, j);
    assert hs[j + 1] == Next(hs[j], steps[j]);
  }

  /**
   * The header comment promises a rollback to the previous configuration. In every run, an undo
   * whose tools work leaves the interface with what it ran before the apply exactly when wg0.conf
   * already held that at the apply: when nothing else had been written since the last sync.
   */
  lemma UndoReturnsToLiveIff(hs: seq<Host>, steps: seq<Step>, j: nat) returns (i: nat)
    requires IsRun(hs, steps) && j < |steps| && Undoes(hs[j], steps[j])
    requires steps[j].io.statOk && steps[j].io.renamed && steps[j].io.synced
    ensures ArmedBy(hs, steps, i, j)
    ensures hs[j + 1].live == hs[i].live <==> hs[i].conf == hs[i].live
  {
    i := UndoRestores(hs, steps, j);
  }

  /** Left alone past its deadline, an armed timer can fire: a missing commit is enough. */
  lemma DeadlineLetsItFire(hs: seq<Host>, steps: seq<Step>, i: nat, j: nat, io: RestoreIo)
    requires IsRun(hs, steps) && i < j <= |steps| && Arms(hs[i], steps[i])
    requires forall k | i < k < j :: !Disarms(steps[k])
    requires hs[i].now + steps[i].after <= hs[j].now
    ensures ArmedBy(hs, steps, i, j) && Enabled(hs[j], Fire(hs[i].nextTask, io))
  {
    StaysArmed(hs, steps, i, j);
  }

  lemma {:induction false} StaysArmed(hs: seq<Host>, steps: seq<Step>, i: nat, j: nat)
    requires IsRun(hs, steps) && i < j <= |steps| && Arms(hs[i], steps[i])
    requires forall k | i < k < j :: !Disarms(steps[k])
    ensures ArmedBy(hs, steps, i, j)
    decreases j
  {
    hide Writable, NodeKey, Text.Trim;
    AtMostOneTimer(hs, steps, j - 1);
    if i + 1 < j {
      StaysArmed(hs, steps, i, j - 1);
      assert !Disarms(steps[j - 1]);
    }
  }

  /** After a commit no earlier timer fires: any later firing belongs to an apply after the commit. */
  lemma CommitDisarms(hs: seq<Host>, steps: seq<Step>, c: nat, j: nat) returns (i: nat)
    requires IsRun(hs, steps) && c < j < |steps| && steps[c].Commit? && steps[j].Fire?
    ensures c < i && ArmedBy(hs, steps, i, j)
  {
    i := UndoRestores(hs, steps, j);
    assert Disarms(steps[c]);
  }

  /** An explicit rollback without a backup, as after a commit, removes the configuration. */
  lemma RollbackAfterCommitRemoves(h: Host, io: RestoreIo)
    requires io.statOk && io.confRemoved && io.downed
    ensures var h' := Next(Next(h, Commit(true)), Rollback(io));
            h'.conf.None? && h'.live.None? && h'.bak.None?
  {
  }

  /**
   * The family that misses: written, applied and fired with every tool working, the switch ends
   * with the text just written, so with the previous one exactly when they are equal.
   */
  lemma SwitchKeepsWrittenConfig(h: Host, content: string, after: nat, io: RestoreIo)
    requires Writable(h, content).Some? && ValidDelay(after)
    requires io.statOk && io.renamed && io.synced
    ensures var h1 := Next(h, WriteConfig(content, true));
            var h2 := Next(h1, Apply(after, ApplyIo(Copied, true, true)));
            var h3 := Next(h2, Tick(after));
            var h4 := Next(h3, Fire(h2.slot.value, io));
            && Enabled(h3, Fire(h2.slot.value, io))
            && h4.conf == h4.live == Writable(h, content)
            && (h4.conf == h.conf <==> Writable(h, content) == h.conf)
  {
    hide Writable;
  }

  // ----- overlapping requests -------------------------------------------------------------

  /**
   * Cancelling and arming are separate critical sections of an apply. Storing the handle keeps
   * one timer exactly when the slot is empty at that moment, which the code does not check.
   */
  lemma ArmKeepsOneTimerIff(h: Host, after: nat)
    requires OneTimer(h)
    ensures OneTimer(Armed(h, after)) <==> h.slot.None?
  {
    var h' := Armed(h, after);
    assert h.nextTask in h'.tasks;
    if h.slot.Some? {
      assert h.slot.value in h'.tasks && h.slot.value != h.nextTask;
    }
  }

  /**
   * Two applies that both cancel before either arms leave a timer the slot has lost: it outlives
   * a commit and can still fire.
   */
  lemma OverlappingAppliesOutliveCommit(h: Host, a: nat, b: nat, io: RestoreIo)
    requires OneTimer(h)
    ensures var raced := Armed(Armed(Cancelled(Cancelled(h)), a), b);
            var late := Next(Next(raced, Commit(true)), Tick(a));
            && |raced.tasks| == 2
            && late.slot.None?
            && Enabled(late, Fire(h.nextTask, io))
  {
    var base := Cancelled(h);
    assert base.tasks == map[];
    var raced := Armed(Armed(Cancelled(base), a), b);
    assert raced.tasks.Keys == {h.nextTask, h.nextTask + 1};
    assert |raced.tasks| == |raced.tasks.Keys|;
  }

  // ----- the files are always whitelisted -------------------------------------------------

  predicate Whitelisted(text: Option<string>) { text.Some? ==> AcceptedText(text.value, false) }

  predicate CleanFiles(h: Host) { Whitelisted(h.conf) && Whitelisted(h.bak) }

  /**
   * Without an explicit rollback wg0.conf passes the whitelist in every state of every run that
   * starts with such a file, whatever the failed copies leave in the backup.
   */
  lemma {:induction false} ConfStaysWhitelisted(hs: seq<Host>, steps: seq<Step>, j: nat)
    requires IsRun(hs, steps) && j <= |steps| && Whitelisted(hs[0].conf)
    requires forall k | 0 <= k < j :: !steps[k].Rollback?
    ensures Whitelisted(hs[j].conf)
    decreases j
  {
    hide AcceptedText, NodeKey, InjectedText, Text.Trim;
    if j > 0 {
      ConfStaysWhitelisted(hs, steps, j - 1);
      if steps[j - 1].Fire? {
        var i := UndoRestores(hs, steps, j - 1);
        ConfStaysWhitelisted(hs, steps, i);
      }
      assert hs[j] == Next(hs[j - 1], steps[j - 1]);
    }
  }

  /** The step renames the backup over wg0.conf. */
  predicate RenamesBackup(h: Host, step: Step) {
    (step.Rollback? || step.Fire?) && step.io.statOk && step.io.renamed && h.bak.Some?
  }

  /** The failed copy of the apply at step `i` left the backup that is there at `j`. */
  ghost predicate LeftBy(hs: seq<Host>, steps: seq<Step>, i: nat, j: nat)
    requires IsRun(hs, steps) && j <= |steps|
  {
    && i < j
    && steps[i].Apply? && ValidDelay(steps[i].after) && hs[i].conf.Some? && steps[i].applyIo.copy.CopyFailed?
    && forall k | i < k <= j :: hs[k].bak == steps[i].applyIo.copy.left
  }

  /** While wg0.conf has always been whitelisted, a backup that is not was left by a failed copy. */
  lemma {:induction false} DirtyBackupIsLeft(hs: seq<Host>, steps: seq<Step>, j: nat) returns (i: nat)
    requires IsRun(hs, steps) && j <= |steps| && CleanFiles(hs[0])
    requires forall k | 0 <= k <= j :: Whitelisted(hs[k].conf)
    requires !Whitelisted(hs[j].bak)
    ensures LeftBy(hs, steps, i, j)
  {
    hide AcceptedText, NodeKey, InjectedText, Text.Trim;
    assert hs[j] == Next(hs[j - 1], steps[j - 1]);
    if hs[j].bak == hs[j - 1].bak {
      i := DirtyBackupIsLeft(hs, steps, j - 1);
    } else {
      i := j - 1;
    }
  }

  /**
   * The first text outside the whitelist comes into wg0.conf exactly when a step renames a backup
   * that the failed copy of an earlier apply left so; that step is never a firing.
   */
  lemma FirstTaintIff(hs: seq<Host>, steps: seq<Step>, j: nat)
    requires IsRun(hs, steps) && j < |steps| && CleanFiles(hs[0])
    requires forall k | 0 <= k <= j :: Whitelisted(hs[k].conf)
    ensures !Whitelisted(hs[j + 1].conf) <==>
            RenamesBackup(hs[j], steps[j])
            && exists i | 0 <= i < j :: LeftBy(hs, steps, i, j) && !Whitelisted(steps[i].applyIo.copy.left)
    ensures !Whitelisted(hs[j + 1].conf) ==> steps[j].Rollback? && hs[j].slot.None?
  {
    hide AcceptedText, NodeKey, InjectedText, Text.Trim;
    assert hs[j + 1] == Next(hs[j], steps[j]);
    if Undoes(hs[j], steps[j]) {
      var a := UndoRestores(hs, steps, j);
      assert Whitelisted(hs[a].conf);
    }
    if !Whitelisted(hs[j + 1].conf) {
      assert RenamesBackup(hs[j], steps[j]) && !Whitelisted(hs[j].bak);
      var i := DirtyBackupIsLeft(hs, steps, j);
    }
  }

  /** In any run, a text outside the whitelist in either file was left by an earlier failed copy. */
  lemma {:induction false} JunkWasLeft(hs: seq<Host>, steps: seq<Step>, j: nat, junk: string) returns (i: nat)
    requires IsRun(hs, steps) && j <= |steps| && CleanFiles(hs[0])
    requires !AcceptedText(junk, false) && (hs[j].conf == Some(junk) || hs[j].bak == Some(junk))
    ensures i < j && steps[i].Apply? && steps[i].applyIo.copy == CopyFailed(Some(junk))
  {
    hide AcceptedText, NodeKey, InjectedText, Text.Trim;
    assert hs[j] == Next(hs[j - 1], steps[j - 1]);
    if hs[j - 1].conf == Some(junk) || hs[j - 1].bak == Some(junk) {
      i := JunkWasLeft(hs, steps, j - 1, junk);
    } else {
      i := j - 1;
    }
  }

  /** A text that is no configuration at all. */
  lemma JunkIsRefused()
    ensures !AcceptedText("x", false)
  {
    hide Text.Trim, Text.Lines, NameOf;
    LastLine("x");
    TrimSame("x");
    assert KindOf("x") == Junk;
    assert Kinds(["x"])[0] == Junk;
  }

  /** It does happen: a copy that stops half-way, then an explicit rollback, installs what it left. */
  lemma HalfCopyIsRolledBackTo(h: Host, after: nat, junk: string)
    requires Idle(h) && h.conf.Some? && ValidDelay(after)
    ensures var steps := [Apply(after, ApplyIo(CopyFailed(Some(junk)), true, true)),
                          Rollback(RestoreIo(true, true, true, true, true))];
            var hs := [h, Next(h, steps[0]), Next(Next(h, steps[0]), steps[1])];
            IsRun(hs, steps) && hs[2].conf == hs[2].live == Some(junk)
  {
    var steps := [Apply(after, ApplyIo(CopyFailed(Some(junk)), true, true)),
                  Rollback(RestoreIo(true, true, true, true, true))];
    var hs := [h, Next(h, steps[0]), Next(Next(h, steps[0]), steps[1])];
    assert hs[1] == h.(bak := Some(junk));
  }

  /** The re-check after injection never refuses when the stored key is a single line. */
  lemma RecheckNeverRefuses(h: Host, content: string)
    requires AcceptedText(content, true) && NodeKey(h).Some? && '\n' !in NodeKey(h).value
    ensures Writable(h, content) == InjectedText(content, NodeKey(h).value)
  {
    hide AcceptedText, NodeKey, InjectedText, Text.Trim;
    if InjectedText(content, NodeKey(h).value).Some? {
      InjectionKeepsVerdict(content, NodeKey(h).value);
    }
  }

  /** A node's key, once made, stays until the node is uninstalled. */
  lemma {:induction false} KeyIsStable(hs: seq<Host>, steps: seq<Step>, i: nat, j: nat)
    requires IsRun(hs, steps) && i <= j <= |steps| && NodeKey(hs[i]).Some?
    requires forall k | i <= k < j :: !steps[k].Uninstall?
    ensures NodeKey(hs[j]) == NodeKey(hs[i])
    decreases j
  {
    hide Text.Trim, Writable;
    if i < j {
      KeyIsStable(hs, steps, i, j - 1);
      assert hs[j] == Next(hs[j - 1], steps[j - 1]);
    }
  }
}
