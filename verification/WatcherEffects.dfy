/**
 What the calls and the polling tasks of a watcher achieve, whatever runs at the same time: a removed path
 stays away until it is added again, every pending path is polled, and an added path is taken care of.
 */
module WatcherEffects {
  import opened Paths
  import opened Wrappers
  import opened GlobalWatcher
  import opened WatcherProtocol

  // ---------- A step is about one path ----------

  predicate OfAdd(step: Step) {
    Interruptible(step) || step.AddAtOnce?
  }

  predicate OfRemove(step: Step) {
    step.RemoveForget? || step.RemoveTake? || step.RemoveRelease?
  }

  predicate OfDrop(step: Step) {
    step.DropClear? || step.DropSwap? || step.DropRelease? || step.DropFinish?
  }

  /** The path of the call or of the task. */
  ghost predicate IsAbout(s: State, step: Step, path: Path)
    requires Enabled(s, step)
  {
    match step
    case AddCheckRegistrations(_, p) => p == path
    case AddAtOnce(p, _, _, _) => p == path
    case AddCheckPending(op) => s.adds[op].path == path
    case AddStat(op, _) => s.adds[op].path == path
    case AddInsertPending(op, _) => s.adds[op].path == path
    case AddRegister(op, _) => s.adds[op].path == path
    case AddInsert(op) => s.adds[op].path == path
    case RemoveForget(_, p) => p == path
    case RemoveTake(op) => s.removes[op].path == path
    case RemoveRelease(_) => false
    case DropClear => true
    case DropSwap => true
    case DropRelease(_) => false
    case DropFinish => false
    case _ => s.tasks[step.t].path == path
  }

  ghost predicate SameFor(s: State, s': State, path: Path) {
    && (path in s'.pending <==> path in s.pending) && (path in s.pending ==> s'.pending[path] == s.pending[path])
    && (path in s'.registrations <==> path in s.registrations)
    && (path in s.registrations ==> s'.registrations[path] == s.registrations[path])
  }

  lemma TaskLeavesOthers(r: bool, s: State, step: Step, path: Path)
    requires Enabled(s, step) && OfTask(step) && !IsAbout(s, step, path)
    ensures SameFor(s, Apply(r, s, step), path)
  {
  }

  /** What is pending or registered changes at one path only, but for destruction. */
  lemma StepLeavesOthers(r: bool, s: State, step: Step, path: Path)
    requires Enabled(s, step) && !IsAbout(s, step, path)
    ensures SameFor(s, Apply(r, s, step), path)
  {
    if OfTask(step) {
      TaskLeavesOthers(r, s, step, path);
    }
  }

  // ---------- Every pending path is polled ----------

  predicate StillPolls(pc: TaskPc) {
    pc.Sleeping? || pc.Woken? || pc.Present? || pc.AlreadyRegistered? || pc.Registering? || pc.Holding?
  }

  ghost predicate Polled(s: State) {
    forall path :: path in s.pending ==>
      var t := s.pending[path];
      t in s.tasks && s.tasks[t].path == path && StillPolls(s.tasks[t].pc)
  }

  lemma TaskStepKeepsPolled(r: bool, s: State, step: Step)
    requires Polled(s) && Enabled(s, step) && OfTask(step)
    ensures Polled(Apply(r, s, step))
  {
    var s', t := Apply(r, s, step), step.t;
    forall path | path in s'.pending
      ensures s'.pending[path] in s'.tasks && s'.tasks[s'.pending[path]].path == path
      ensures StillPolls(s'.tasks[s'.pending[path]].pc)
    {
      if s.pending[path] != t {
        assert s'.tasks[s.pending[path]] == s.tasks[s.pending[path]];
      }
    }
  }

  lemma AddStepKeepsPolled(r: bool, s: State, step: Step)
    requires Polled(s) && Enabled(s, step) && OfAdd(step)
    ensures Polled(Apply(r, s, step))
  {
  }

  lemma StepKeepsPolled(r: bool, s: State, step: Step)
    requires Polled(s) && Enabled(s, step)
    ensures Polled(Apply(r, s, step))
  {
    if OfTask(step) {
      TaskStepKeepsPolled(r, s, step);
    } else if OfAdd(step) {
      AddStepKeepsPolled(r, s, step);
    }
  }

  /** At every point of every run a pending path has its own task, which has not ended: it cannot be forgotten. */
  lemma {:induction false} PendingIsPolled(r: bool, states: seq<State>, steps: seq<Step>, n: nat)
    requires IsRun(r, states, steps) && n < |states|
    ensures Polled(states[n])
  {
    if n > 0 {
      PendingIsPolled(r, states, steps, n - 1);
      assert Next(r, states[n - 1], steps[n - 1], states[n]);
      StepKeepsPolled(r, states[n - 1], steps[n - 1]);
    }
  }

  // ---------- One round of a polling task ----------

  /** What the task does from one wait to the next, or to its end, when nothing comes between. */
  function Round(s: State, t: nat, exist: bool, outcome: Option<Mode>): seq<Step>
    requires t in s.tasks
  {
    if !exist then [TaskWake(t), TaskStat(t, false)]
    else if s.tasks[t].path in s.registrations then [TaskWake(t), TaskStat(t, true)] + [TaskCheckRegistrations(t), TaskForget(t)]
    else if outcome.None? then [TaskWake(t), TaskStat(t, true)] + [TaskCheckRegistrations(t), TaskRegister(t, None)]
    else [TaskWake(t), TaskStat(t, true)] + [TaskCheckRegistrations(t), TaskRegister(t, outcome)] + [TaskClaim(t), TaskInsert(t)]
  }

  /**
   While its path is absent, or refused, the task goes back to sleep and nothing changes; a path that was registered
   meanwhile is forgotten; and a path that exists and is accepted is registered under a fresh id, and no longer pending.
   */
  lemma RoundEnds(r: bool, s: State, t: nat, exist: bool, outcome: Option<Mode>)
    requires TaskAt(s, t, Sleeping) && s.pendingLock.None? && s.tasks[t].path in s.pending
    ensures var path := s.tasks[t].path;
            LeadsTo(r, s, Round(s, t, exist, outcome),
                    if !exist || (path !in s.registrations && outcome.None?) then s
                    else
                      var ended := s.(tasks := s.tasks[t := Task(path, Finished)], pending := s.pending - {path});
                      if path in s.registrations then ended
                      else ended.(registrations := s.registrations[path := Reg(s.nextId, outcome.value)],
                                  live := s.live + {s.nextId}, nextId := s.nextId + 1))
  {
    RoundWakes(r, s, t, exist);
    if exist && s.tasks[t].path in s.registrations {
      RoundForgets(r, s, t);
      LeadsToAppend(r, s, [TaskWake(t), TaskStat(t, true)], At(s, t, Present), [TaskCheckRegistrations(t), TaskForget(t)],
                    At(s, t, Finished).(pending := s.pending - {s.tasks[t].path}));
    } else if exist {
      RoundTries(r, s, t, outcome);
      if outcome.Some? {
        RoundSucceeds(r, s, t, outcome.value);
      }
    }
  }

  /** After the attempt to register: back to sleep, or holding a fresh id. */
  ghost function Tried(s: State, t: nat, outcome: Option<Mode>): State
    requires t in s.tasks
  {
    if outcome.None? then s else s.Issued().(tasks := At(s, t, Holding(Reg(s.nextId, outcome.value))).tasks)
  }

  lemma RoundTries(r: bool, s: State, t: nat, outcome: Option<Mode>)
    requires TaskAt(s, t, Sleeping) && s.pendingLock.None? && s.tasks[t].path in s.pending && s.tasks[t].path !in s.registrations
    ensures LeadsTo(r, s, [TaskWake(t), TaskStat(t, true)] + [TaskCheckRegistrations(t), TaskRegister(t, outcome)],
                    Tried(s, t, outcome))
  {
    RoundWakes(r, s, t, true);
    RoundRegisters(r, s, t, outcome, Tried(s, t, outcome));
    LeadsToAppend(r, s, [TaskWake(t), TaskStat(t, true)], At(s, t, Present),
                  [TaskCheckRegistrations(t), TaskRegister(t, outcome)], Tried(s, t, outcome));
  }

  lemma RoundSucceeds(r: bool, s: State, t: nat, mode: Mode)
    requires TaskAt(s, t, Sleeping) && s.pendingLock.None? && s.tasks[t].path in s.pending && s.tasks[t].path !in s.registrations
    ensures LeadsTo(r, s, Round(s, t, true, Some(mode)),
                    s.Issued().(tasks := At(s, t, Finished).tasks, pending := s.pending - {s.tasks[t].path},
                                registrations := s.registrations[s.tasks[t].path := Reg(s.nextId, mode)]))
  {
    var done := s.Issued().(tasks := At(s, t, Finished).tasks, pending := s.pending - {s.tasks[t].path},
                            registrations := s.registrations[s.tasks[t].path := Reg(s.nextId, mode)]);
    RoundTries(r, s, t, Some(mode));
    RoundHandsOver(r, s, t, mode, Tried(s, t, Some(mode)), done);
    LeadsToAppend(r, s, [TaskWake(t), TaskStat(t, true)] + [TaskCheckRegistrations(t), TaskRegister(t, Some(mode))],
                  Tried(s, t, Some(mode)), [TaskClaim(t), TaskInsert(t)], done);
  }

  ghost function At(s: State, t: nat, pc: TaskPc): State
    requires t in s.tasks
  {
    s.(tasks := s.tasks[t := Task(s.tasks[t].path, pc)])
  }

  lemma RoundWakes(r: bool, s: State, t: nat, exist: bool)
    requires TaskAt(s, t, Sleeping) && s.pendingLock.None? && s.tasks[t].path in s.pending
    ensures LeadsTo(r, s, [TaskWake(t), TaskStat(t, exist)], if exist then At(s, t, Present) else s)
  {
    var end := if exist then At(s, t, Present) else s;
    assert s.tasks[t := Task(s.tasks[t].path, Sleeping)] == s.tasks;
    assert At(s, t, Woken).tasks[t := Task(s.tasks[t].path, if exist then Present else Sleeping)] == end.tasks;
    LeadsTo2(r, s, TaskWake(t), At(s, t, Woken), TaskStat(t, exist), end);
  }

  lemma RoundForgets(r: bool, s: State, t: nat)
    requires TaskAt(s, t, Sleeping) && s.pendingLock.None? && s.tasks[t].path in s.registrations
    ensures LeadsTo(r, At(s, t, Present), [TaskCheckRegistrations(t), TaskForget(t)],
                    At(s, t, Finished).(pending := s.pending - {s.tasks[t].path}))
  {
    var path, end := s.tasks[t].path, At(s, t, Finished).(pending := s.pending - {s.tasks[t].path});
    assert At(s, t, Present).tasks[t := Task(path, AlreadyRegistered)] == At(s, t, AlreadyRegistered).tasks;
    assert At(s, t, AlreadyRegistered).tasks[t := Task(path, Finished)] == end.tasks;
    LeadsTo2(r, At(s, t, Present), TaskCheckRegistrations(t), At(s, t, AlreadyRegistered), TaskForget(t), end);
  }

  lemma RoundRegisters(r: bool, s: State, t: nat, outcome: Option<Mode>, end: State)
    requires TaskAt(s, t, Sleeping) && s.tasks[t].path !in s.registrations
    requires end == if outcome.None? then s else s.Issued().(tasks := At(s, t, Holding(Reg(s.nextId, outcome.value))).tasks)
    ensures LeadsTo(r, At(s, t, Present), [TaskCheckRegistrations(t), TaskRegister(t, outcome)], end)
  {
    var path := s.tasks[t].path;
    assert At(s, t, Present).tasks[t := Task(path, Registering)] == At(s, t, Registering).tasks;
    assert s.tasks[t := Task(path, Sleeping)] == s.tasks;
    assert At(s, t, Registering).tasks[t := Task(path, if outcome.None? then Sleeping else Holding(Reg(s.nextId, outcome.value)))]
        == end.tasks;
    LeadsTo2(r, At(s, t, Present), TaskCheckRegistrations(t), At(s, t, Registering), TaskRegister(t, outcome), end);
  }

  lemma RoundHandsOver(r: bool, s: State, t: nat, mode: Mode, held: State, end: State)
    requires TaskAt(s, t, Sleeping) && s.pendingLock.None? && s.tasks[t].path in s.pending
    requires held == s.Issued().(tasks := At(s, t, Holding(Reg(s.nextId, mode))).tasks)
    requires end == s.Issued().(tasks := At(s, t, Finished).tasks, pending := s.pending - {s.tasks[t].path},
                                registrations := s.registrations[s.tasks[t].path := Reg(s.nextId, mode)])
    ensures LeadsTo(r, held, [TaskClaim(t), TaskInsert(t)], end)
  {
    var path, reg := s.tasks[t].path, Reg(s.nextId, mode);
    var claimed := held.(tasks := At(s, t, Claimed(reg)).tasks, pending := s.pending - {path}, pendingLock := Some(t));
    assert held.tasks[t := Task(path, Claimed(reg))] == claimed.tasks;
    assert claimed.tasks[t := Task(path, Finished)] == end.tasks;
    LeadsTo2(r, held, TaskClaim(t), claimed, TaskInsert(t), end);
  }

  // ---------- What a remove achieves ----------

  /** A step of an add that makes the path pending or registers it. */
  ghost predicate AddInserts(s: State, step: Step, path: Path)
    requires Enabled(s, step)
  {
    (step.AddInsertPending? || step.AddInsert? || step.AddAtOnce?) && IsAbout(s, step, path)
  }

  ghost predicate InsertedAt(states: seq<State>, steps: seq<Step>, k: nat, path: Path)
    requires k < |steps| && |states| == |steps| + 1
  {
    Enabled(states[k], steps[k]) && AddInserts(states[k], steps[k], path)
  }

  ghost predicate NoInserts(states: seq<State>, steps: seq<Step>, i: nat, n: nat, path: Path)
    requires n <= |steps| && |states| == |steps| + 1
  {
    forall k :: i <= k < n ==> !InsertedAt(states, steps, k, path)
  }

  lemma HandOverKeepsUnclaimed(r: bool, s: State, step: Step, path: Path)
    requires Unclaimed(s, path) && Enabled(s, step) && (step.TaskClaim? || step.TaskReject? || step.TaskInsert?)
    ensures Unclaimed(Apply(r, s, step), path)
    ensures path !in s.registrations ==> path !in Apply(r, s, step).registrations
  {
  }

  lemma TaskKeepsUnclaimed(r: bool, s: State, step: Step, path: Path)
    requires Unclaimed(s, path) && Enabled(s, step) && OfTask(step)
    ensures Unclaimed(Apply(r, s, step), path)
    ensures path !in s.registrations ==> path !in Apply(r, s, step).registrations
  {
    if step.TaskClaim? || step.TaskReject? || step.TaskInsert? {
      HandOverKeepsUnclaimed(r, s, step, path);
    }
  }

  lemma StepKeepsUnclaimed(r: bool, s: State, step: Step, path: Path)
    requires Unclaimed(s, path) && Enabled(s, step) && !AddInserts(s, step, path)
    ensures Unclaimed(Apply(r, s, step), path)
    ensures path !in s.registrations ==> path !in Apply(r, s, step).registrations
  {
    if OfTask(step) {
      TaskKeepsUnclaimed(r, s, step, path);
    }
  }

  /** The remove has gone on from the pending paths to the registrations. */
  ghost predicate Removing(s: State, op: nat, path: Path) {
    op in s.removes && (s.removes[op].Taking? ==> s.removes[op].path == path)
  }

  lemma ForgettingUnclaims(r: bool, s: State, op: nat, path: Path)
    requires LockOk(s) && Enabled(s, RemoveForget(op, path))
    ensures var s' := Apply(r, s, RemoveForget(op, path)); Unclaimed(s', path) && s'.removes.Keys == s.removes.Keys + {op}
    ensures Apply(r, s, RemoveForget(op, path)).removes[op] == Taking(path)
  {
  }

  lemma StepKeepsRemoving(r: bool, s: State, step: Step, op: nat, path: Path)
    requires Removing(s, op, path) && Enabled(s, step)
    requires !s.removes[op].Taking? ==> path !in s.registrations
    requires !AddInserts(s, step, path) && Unclaimed(s, path)
    ensures var s' := Apply(r, s, step); Removing(s', op, path) && (!s'.removes[op].Taking? ==> path !in s'.registrations)
  {
    StepKeepsUnclaimed(r, s, step, path);
  }

  /**
   From the moment a remove has forgotten the path it is not pending, and no task registers it; from the moment the remove
   has looked at the registrations it is not registered either; and so it stays as long as no add of the path inserts it.
   */
  lemma {:induction false} RemovedStaysAway(r: bool, states: seq<State>, steps: seq<Step>, i: nat, n: nat, op: nat, path: Path)
    requires IsRun(r, states, steps) && i < n <= |steps| && steps[i] == RemoveForget(op, path)
    requires NoInserts(states, steps, i + 1, n, path)
    ensures Unclaimed(states[n], path) && Removing(states[n], op, path)
    ensures !states[n].removes[op].Taking? ==> path !in states[n].registrations
  {
    assert Next(r, states[n - 1], steps[n - 1], states[n]);
    if n == i + 1 {
      RunsKeepOrder(r, states, steps, i);
      ForgettingUnclaims(r, states[i], op, path);
    } else {
      RemovedStaysAway(r, states, steps, i, n - 1, op, path);
      assert !InsertedAt(states, steps, n - 1, path);
      StepKeepsUnclaimed(r, states[n - 1], steps[n - 1], path);
      StepKeepsRemoving(r, states[n - 1], steps[n - 1], op, path);
    }
  }

  /** When the remove has ended, its path is gone. */
  lemma RemoveAchieves(r: bool, states: seq<State>, steps: seq<Step>, i: nat, n: nat, op: nat, path: Path)
    requires IsRun(r, states, steps) && i < n <= |steps| && steps[i] == RemoveForget(op, path)
    requires NoInserts(states, steps, i + 1, n, path)
    requires op in states[n].removes && states[n].removes[op] == RemoveDone
    ensures path !in states[n].pending && path !in states[n].registrations
  {
    RemovedStaysAway(r, states, steps, i, n, op, path);
  }

  // ---------- Ids that are released ----------

  ghost predicate IdsBelow(s: State) {
    && (forall place :: IdAt(s, place).Some? ==> IdAt(s, place).value < s.nextId)
    && (forall id :: id in s.live ==> id < s.nextId)
  }

  lemma StepKeepsIdsBelow(r: bool, s: State, step: Step)
    requires IdsBelow(s) && Enabled(s, step)
    ensures IdsBelow(Apply(r, s, step))
  {
    if Silent(r, s, step) {
      SilentPlaces(r, s, step);
    } else if step.AddRegister? || step.AddAtOnce? || step.TaskRegister? {
      IssuingPlaces(r, s, step);
    } else if step.AddInsert? || step.TaskInsert? || step.RemoveTake? {
      MovingPlaces(r, s, step);
    } else if step.DropSwap? {
      SwappedPlaces(r, s);
    } else {
      ReleasingPlaces(r, s, step);
    }
  }

  lemma {:induction false} RunsKeepIdsBelow(r: bool, states: seq<State>, steps: seq<Step>, n: nat)
    requires IsRun(r, states, steps) && n < |states|
    ensures IdsBelow(states[n])
  {
    if n > 0 {
      RunsKeepIdsBelow(r, states, steps, n - 1);
      assert Next(r, states[n - 1], steps[n - 1], states[n]);
      StepKeepsIdsBelow(r, states[n - 1], steps[n - 1]);
    }
  }

  lemma TaskIssuesOnly(r: bool, s: State, step: Step)
    requires Enabled(s, step) && OfTask(step)
    ensures var s' := Apply(r, s, step); s.nextId <= s'.nextId && forall id :: id in s'.live ==> id in s.live || id >= s.nextId
  {
  }

  /** Ids only become live by being issued. */
  lemma OnlyIssuedBecomeLive(r: bool, s: State, step: Step)
    requires Enabled(s, step)
    ensures var s' := Apply(r, s, step); s.nextId <= s'.nextId && forall id :: id in s'.live ==> id in s.live || id >= s.nextId
  {
    if OfTask(step) {
      TaskIssuesOnly(r, s, step);
    }
  }

  /** The remove still holds the id that it took, or has released it for good. */
  ghost predicate ReleasesReg(s: State, op: nat, id: nat) {
    op in s.removes && id < s.nextId && (s.removes[op].Releasing? || s.removes[op].RemoveDone?)
    && (s.removes[op].Releasing? ==> s.removes[op].reg.id == id)
    && (s.removes[op].RemoveDone? ==> id !in s.live)
  }

  lemma StepKeepsReleasing(r: bool, s: State, step: Step, op: nat, id: nat)
    requires ReleasesReg(s, op, id) && Enabled(s, step)
    ensures ReleasesReg(Apply(r, s, step), op, id)
  {
    OnlyIssuedBecomeLive(r, s, step);
  }

  /** When a remove has ended, the id that was registered for its path is not live any more. */
  lemma {:induction false} RemoveReleases(r: bool, states: seq<State>, steps: seq<Step>, k: nat, n: nat, op: nat)
    requires IsRun(r, states, steps) && k < n <= |steps| && steps[k] == RemoveTake(op)
    requires Enabled(states[k], steps[k]) && states[k].removes[op].path in states[k].registrations
    ensures var id := states[k].registrations[states[k].removes[op].path].id;
            ReleasesReg(states[n], op, id) && (states[n].removes[op] == RemoveDone ==> id !in states[n].live)
  {
    assert Next(r, states[n - 1], steps[n - 1], states[n]);
    var path := states[k].removes[op].path;
    var id := states[k].registrations[path].id;
    if n == k + 1 {
      RunsKeepIdsBelow(r, states, steps, k);
      assert IdAt(states[k], InRegistrations(path)) == Some(id);
    } else {
      RemoveReleases(r, states, steps, k, n - 1, op);
      StepKeepsReleasing(r, states[n - 1], steps[n - 1], op, id);
    }
  }

  /** The task still holds its id, or is inside the section in which it finds out that its path was forgotten, or has released it. */
  ghost predicate GivesUp(s: State, t: nat, path: Path, reg: Reg) {
    && t in s.tasks && s.tasks[t].path == path && reg.id < s.nextId
    && (s.tasks[t].pc == Holding(reg) || s.tasks[t].pc == Rejected(reg) || (s.tasks[t].pc == Finished && reg.id !in s.live))
  }

  lemma StepKeepsGivingUp(r: bool, s: State, step: Step, t: nat, path: Path, reg: Reg)
    requires GivesUp(s, t, path, reg) && Unclaimed(s, path) && Enabled(s, step)
    ensures GivesUp(Apply(r, s, step), t, path, reg)
  {
    OnlyIssuedBecomeLive(r, s, step);
  }

  lemma HeldIsBelow(r: bool, states: seq<State>, steps: seq<Step>, k: nat, t: nat, reg: Reg)
    requires IsRun(r, states, steps) && k < |states| && TaskAt(states[k], t, Holding(reg))
    ensures reg.id < states[k].nextId
  {
    RunsKeepIdsBelow(r, states, steps, k);
    assert IdAt(states[k], InTask(t)) == Some(reg.id);
  }

  /** A task that already holds an id when its path is removed releases it, and ends, without having registered it. */
  lemma {:induction false} HolderGivesUp(r: bool, states: seq<State>, steps: seq<Step>, i: nat, k: nat, n: nat,
                                         op: nat, path: Path, t: nat, reg: Reg)
    requires IsRun(r, states, steps) && i < k <= n <= |steps| && steps[i] == RemoveForget(op, path)
    requires NoInserts(states, steps, i + 1, n, path)
    requires TaskAt(states[k], t, Holding(reg)) && states[k].tasks[t].path == path
    ensures GivesUp(states[n], t, path, reg) && (states[n].tasks[t].pc == Finished ==> reg.id !in states[n].live)
  {
    if n == k {
      HeldIsBelow(r, states, steps, k, t, reg);
    } else {
      assert Next(r, states[n - 1], steps[n - 1], states[n]);
      HolderGivesUp(r, states, steps, i, k, n - 1, op, path, t, reg);
      RemovedStaysAway(r, states, steps, i, n - 1, op, path);
      StepKeepsGivingUp(r, states[n - 1], steps[n - 1], t, path, reg);
    }
  }

  /** A task that wakes up and finds its path forgotten ends; one that holds an id then releases it first. */
  lemma ForgottenTaskEnds(r: bool, s: State, t: nat, reg: Reg)
    requires t in s.tasks && s.pendingLock.None? && s.tasks[t].path !in s.pending
    ensures s.tasks[t].pc.Sleeping? ==> LeadsTo(r, s, [TaskWake(t)], At(s, t, Finished))
    ensures s.tasks[t].pc == Holding(reg) ==> LeadsTo(r, s, [TaskClaim(t), TaskReject(t)], At(s, t, Finished).(live := s.live - {reg.id}))
  {
    var path := s.tasks[t].path;
    if s.tasks[t].pc.Sleeping? {
      assert [TaskWake(t)][1..] == [];
      LeadsToCons(r, s, TaskWake(t), At(s, t, Finished), [], At(s, t, Finished));
      assert [TaskWake(t)] + [] == [TaskWake(t)];
    } else if s.tasks[t].pc == Holding(reg) {
      assert s.pending - {path} == s.pending;
      var claimed := At(s, t, Rejected(reg)).(pendingLock := Some(t));
      assert claimed.tasks[t := Task(path, Finished)] == At(s, t, Finished).tasks;
      LeadsTo2(r, s, TaskClaim(t), claimed, TaskReject(t), At(s, t, Finished).(live := s.live - {reg.id}));
    }
  }

  /** A task whose handle is gone can be cancelled wherever it waits, even if its path is pending again with another task. */
  lemma OrphanCanBeCancelled(r: bool, s: State, t: nat)
    requires t in s.tasks && (s.tasks[t].pc.Sleeping? || s.tasks[t].pc.Woken?)
    requires s.tasks[t].path in s.pending ==> s.pending[s.tasks[t].path] != t
    ensures LeadsTo(r, s, [TaskCancel(t)], At(s, t, Finished))
  {
    assert [TaskCancel(t)][1..] == [];
    LeadsToCons(r, s, TaskCancel(t), At(s, t, Finished), [], At(s, t, Finished));
    assert [TaskCancel(t)] + [] == [TaskCancel(t)];
  }

  // ---------- What an add achieves ----------

  /** A registration of the path, or of an ancestor that is watched with everything below it. */
  ghost predicate IsCovered(r: bool, s: State, path: Path) {
    exists a :: a in s.registrations && a < path && (s.registrations[a].mode.Poll? || r)
  }

  lemma CoversIff(r: bool, s: State, path: Path)
    ensures s.Covers(path, r) <==> IsCovered(r, s, path)
  {
    if IsCovered(r, s, path) {
      var a :| a in s.registrations && a < path && (s.registrations[a].mode.Poll? || r);
      assert path[..|a|] == a;
    }
    if s.Covers(path, r) {
      var n :| 0 <= n < |path| && path[..n] in s.registrations && (s.registrations[path[..n]].mode.Poll? || r);
      assert path[..n] < path;
    }
  }

  ghost predicate TakenCareOf(r: bool, s: State, path: Path) {
    path in s.registrations || path in s.pending || IsCovered(r, s, path)
  }

  ghost predicate UnderWay(s: State, op: nat) {
    op in s.adds && s.adds[op].pc != AddDone
  }

  /** An add goes on exactly if its path is neither registered nor covered. */
  lemma AddGoesOnIff(r: bool, s: State, op: nat, path: Path)
    requires Enabled(s, AddCheckRegistrations(op, path))
    ensures UnderWay(Apply(r, s, AddCheckRegistrations(op, path)), op) <==> path !in s.registrations && !IsCovered(r, s, path)
    ensures var s' := Apply(r, s, AddCheckRegistrations(op, path)); op in s'.adds && s'.adds[op].path == path
  {
    CoversIff(r, s, path);
  }

  /** Whatever runs at the same time: when an add ends without having been refused, its path is registered, pending or covered. */
  lemma AddAchieves(r: bool, s: State, step: Step, op: nat)
    requires Enabled(s, step) && !(step.AddRegister? && step.outcome.None?)
    requires UnderWay(s, op) || (step.AddCheckRegistrations? && step.op == op)
    requires !UnderWay(Apply(r, s, step), op)
    ensures var s' := Apply(r, s, step); op in s'.adds && TakenCareOf(r, s', s'.adds[op].path)
  {
    var s' := Apply(r, s, step);
    if step.AddCheckRegistrations? {
      AddGoesOnIff(r, s, op, step.addPath);
      assert s'.registrations == s.registrations;
    }
  }

  /** An add as one step, by what is registered, pending and in the filesystem. */
  lemma AddDecides(r: bool, s: State, path: Path, exist: bool, outcome: Option<Mode>, t: nat)
    requires Enabled(s, AddAtOnce(path, exist, outcome, t))
    ensures var s' := Apply(r, s, AddAtOnce(path, exist, outcome, t));
            && (TakenCareOf(r, s, path) || (exist && outcome.None?) ==> s' == s)
            && (!TakenCareOf(r, s, path) && !exist ==>
                  s' == s.(pending := s.pending[path := t], tasks := s.tasks[t := Task(path, Sleeping)]))
            && (!TakenCareOf(r, s, path) && exist && outcome.Some? ==>
                  && s'.registrations == s.registrations[path := Reg(s.nextId, outcome.value)]
                  && s' == s.(registrations := s'.registrations, live := s.live + {s.nextId}, nextId := s.nextId + 1))
  {
    CoversIff(r, s, path);
  }
}
