/**
 One watcher's registrations, with its calls, its polling tasks and its destruction running at
 the same time. A step is what happens between two lock operations.
 */
module WatcherProtocol {
  import opened Paths
  import opened Wrappers
  import opened GlobalWatcher

  /** An id in the process-wide registry, and the mode it was made for. */
  datatype Reg = Reg(id: nat, mode: Mode)

  /** Where a polling task is; `Claimed` and `Rejected` are inside the section that holds the pending lock. */
  datatype TaskPc =
    | Sleeping | Woken | Present | AlreadyRegistered | Registering
    | Holding(reg: Reg) | Claimed(reg: Reg) | Rejected(reg: Reg)
    | Finished

  datatype Task = Task(path: Path, pc: TaskPc)

  datatype AddPc =
    | SawUnregistered | SawNotPending | Missing | Found | Made(reg: Reg) | AddDone

  datatype Add = Add(path: Path, pc: AddPc)

  datatype Remove = Taking(path: Path) | Releasing(reg: Reg) | RemoveDone

  datatype Drop = NotDropped | Cleared | Draining(rest: map<Path, Reg>) | Dropped

  /** `pending` holds the handle of the task that polls a path; a task whose handle is gone can be cancelled where it waits. */
  datatype State = State(registrations: map<Path, Reg>,
                         pending: map<Path, nat>,
                         pendingLock: Option<nat>,
                         tasks: map<nat, Task>,
                         adds: map<nat, Add>,
                         removes: map<nat, Remove>,
                         drop: Drop,
                         live: set<nat>,
                         nextId: nat)
  {
    function WithTask(t: nat, pc: TaskPc): State
      requires t in tasks
    {
      this.(tasks := tasks[t := tasks[t].(pc := pc)])
    }

    function WithAdd(op: nat, pc: AddPc): State
      requires op in adds
    {
      this.(adds := adds[op := adds[op].(pc := pc)])
    }

    function WithRemove(op: nat, r: Remove): State {
      this.(removes := removes[op := r])
    }

    /** The registry hands out the next id. */
    function Issued(): State {
      this.(live := live + {nextId}, nextId := nextId + 1)
    }

    /** The registry forgets an id. */
    function Released(id: nat): State {
      this.(live := live - {id})
    }

    /** A registration above `path` that covers it. */
    predicate Covers(path: Path, nativeIsRecursive: bool) {
      exists n :: 0 <= n < |path| && path[..n] in registrations
                  && (registrations[path[..n]].mode.Poll? || nativeIsRecursive)
    }
  }

  /** `outcome` is the mode of a registration that succeeds; none stands for a refusal or an error. */
  datatype Step =
    | AddCheckRegistrations(op: nat, addPath: Path)
    | AddCheckPending(op: nat)
    | AddStat(op: nat, exist: bool)
    | AddInsertPending(op: nat, newTask: nat)
    | AddRegister(op: nat, outcome: Option<Mode>)
    | AddInsert(op: nat)
    | AddAtOnce(addPath: Path, exist: bool, outcome: Option<Mode>, newTask: nat)
    | RemoveForget(op: nat, removePath: Path)
    | RemoveTake(op: nat)
    | RemoveRelease(op: nat)
    | TaskWake(t: nat)
    | TaskStat(t: nat, exist: bool)
    | TaskCheckRegistrations(t: nat)
    | TaskForget(t: nat)
    | TaskRegister(t: nat, outcome: Option<Mode>)
    | TaskClaim(t: nat)
    | TaskReject(t: nat)
    | TaskInsert(t: nat)
    | TaskCancel(t: nat)
    | DropClear
    | DropSwap
    | DropRelease(dropPath: Path)
    | DropFinish

  ghost predicate AddAt(s: State, op: nat, pc: AddPc) {
    op in s.adds && s.adds[op].pc == pc
  }

  ghost predicate TaskAt(s: State, t: nat, pc: TaskPc) {
    t in s.tasks && s.tasks[t].pc == pc
  }

  ghost predicate Enabled(s: State, step: Step) {
    match step
    case AddCheckRegistrations(op, _) => op !in s.adds && s.drop.NotDropped?
    case AddCheckPending(op) => AddAt(s, op, SawUnregistered) && s.pendingLock.None?
    case AddStat(op, _) => AddAt(s, op, SawNotPending)
    case AddInsertPending(op, t) => AddAt(s, op, Missing) && s.pendingLock.None? && t !in s.tasks
    case AddRegister(op, _) => AddAt(s, op, Found)
    case AddInsert(op) => op in s.adds && s.adds[op].pc.Made?
    case AddAtOnce(_, _, _, t) => s.drop.NotDropped? && s.pendingLock.None? && t !in s.tasks
    case RemoveForget(op, _) => op !in s.removes && s.drop.NotDropped? && s.pendingLock.None?
    case RemoveTake(op) => op in s.removes && s.removes[op].Taking?
    case RemoveRelease(op) => op in s.removes && s.removes[op].Releasing?
    case TaskWake(t) => TaskAt(s, t, Sleeping) && s.pendingLock.None?
    case TaskStat(t, _) => TaskAt(s, t, Woken)
    case TaskCheckRegistrations(t) => TaskAt(s, t, Present)
    case TaskForget(t) => TaskAt(s, t, AlreadyRegistered) && s.pendingLock.None?
    case TaskRegister(t, _) => TaskAt(s, t, Registering)
    case TaskClaim(t) => t in s.tasks && s.tasks[t].pc.Holding? && s.pendingLock.None?
    case TaskReject(t) => t in s.tasks && s.tasks[t].pc.Rejected?
    case TaskInsert(t) => t in s.tasks && s.tasks[t].pc.Claimed?
    case TaskCancel(t) =>
      && (TaskAt(s, t, Sleeping) || TaskAt(s, t, Woken))
      && !(s.tasks[t].path in s.pending && s.pending[s.tasks[t].path] == t)
    case DropClear =>
      && s.drop.NotDropped? && s.pendingLock.None?
      && (forall op :: op in s.adds ==> s.adds[op].pc == AddDone)
      && (forall op :: op in s.removes ==> s.removes[op] == RemoveDone)
    case DropSwap => s.drop.Cleared?
    case DropRelease(path) => s.drop.Draining? && path in s.drop.rest
    case DropFinish => s.drop.Draining? && s.drop.rest == map[]
  }

  ghost function Apply(nativeIsRecursive: bool, s: State, step: Step): State
    requires Enabled(s, step)
  {
    match step
    case AddCheckRegistrations(op, path) =>
      var stop := s.Covers(path, nativeIsRecursive) || path in s.registrations;
      s.(adds := s.adds[op := Add(path, if stop then AddDone else SawUnregistered)])
    case AddCheckPending(op) =>
      s.WithAdd(op, if s.adds[op].path in s.pending then AddDone else SawNotPending)
    case AddStat(op, exist) =>
      s.WithAdd(op, if exist then Found else Missing)
    case AddInsertPending(op, t) =>
      var path := s.adds[op].path;
      if path in s.pending then s.WithAdd(op, AddDone)
      else s.WithAdd(op, AddDone).(pending := s.pending[path := t], tasks := s.tasks[t := Task(path, Sleeping)])
    case AddRegister(op, outcome) =>
      if outcome.None? then s.WithAdd(op, AddDone)
      else s.Issued().WithAdd(op, Made(Reg(s.nextId, outcome.value)))
    case AddInsert(op) =>
      s.WithAdd(op, AddDone).(registrations := s.registrations[s.adds[op].path := s.adds[op].pc.reg])
    case AddAtOnce(path, exist, outcome, t) =>
      if s.Covers(path, nativeIsRecursive) || path in s.registrations || path in s.pending then s
      else if !exist then s.(pending := s.pending[path := t], tasks := s.tasks[t := Task(path, Sleeping)])
      else if outcome.None? then s
      else s.Issued().(registrations := s.registrations[path := Reg(s.nextId, outcome.value)])
    case RemoveForget(op, path) =>
      s.WithRemove(op, Taking(path)).(pending := s.pending - {path})
    case RemoveTake(op) =>
      var path := s.removes[op].path;
      if path !in s.registrations then s.WithRemove(op, RemoveDone)
      else s.WithRemove(op, Releasing(s.registrations[path])).(registrations := s.registrations - {path})
    case RemoveRelease(op) =>
      s.Released(s.removes[op].reg.id).WithRemove(op, RemoveDone)
    case TaskWake(t) =>
      s.WithTask(t, if s.tasks[t].path in s.pending then Woken else Finished)
    case TaskStat(t, exist) =>
      s.WithTask(t, if exist then Present else Sleeping)
    case TaskCheckRegistrations(t) =>
      s.WithTask(t, if s.tasks[t].path in s.registrations then AlreadyRegistered else Registering)
    case TaskForget(t) =>
      s.WithTask(t, Finished).(pending := s.pending - {s.tasks[t].path})
    case TaskRegister(t, outcome) =>
      if outcome.None? then s.WithTask(t, Sleeping)
      else s.Issued().WithTask(t, Holding(Reg(s.nextId, outcome.value)))
    case TaskClaim(t) =>
      var path, reg := s.tasks[t].path, s.tasks[t].pc.reg;
      s.WithTask(t, if path in s.pending then Claimed(reg) else Rejected(reg))
       .(pending := s.pending - {path}, pendingLock := Some(t))
    case TaskReject(t) =>
      s.Released(s.tasks[t].pc.reg.id).WithTask(t, Finished).(pendingLock := None)
    case TaskInsert(t) =>
      s.WithTask(t, Finished)
       .(registrations := s.registrations[s.tasks[t].path := s.tasks[t].pc.reg], pendingLock := None)
    case TaskCancel(t) =>
      s.WithTask(t, Finished)
    case DropClear =>
      s.(drop := Cleared, pending := map[])
    case DropSwap =>
      s.(drop := Draining(s.registrations), registrations := map[])
    case DropRelease(path) =>
      s.Released(s.drop.rest[path].id).(drop := Draining(s.drop.rest - {path}))
    case DropFinish =>
      s.(drop := Dropped)
  }

  // ---------- Where the ids are ----------

  datatype Place = InRegistrations(path: Path) | InTask(t: nat) | InAdd(op: nat) | InRemove(op: nat) | InDrop(path: Path)

  ghost function IdAt(s: State, place: Place): Option<nat> {
    match place
    case InRegistrations(path) => if path in s.registrations then Some(s.registrations[path].id) else None
    case InTask(t) =>
      if t in s.tasks && (s.tasks[t].pc.Holding? || s.tasks[t].pc.Claimed? || s.tasks[t].pc.Rejected?)
      then Some(s.tasks[t].pc.reg.id) else None
    case InAdd(op) => if op in s.adds && s.adds[op].pc.Made? then Some(s.adds[op].pc.reg.id) else None
    case InRemove(op) => if op in s.removes && s.removes[op].Releasing? then Some(s.removes[op].reg.id) else None
    case InDrop(path) => if s.drop.Draining? && path in s.drop.rest then Some(s.drop.rest[path].id) else None
  }

  /** Every live id is in exactly one place, and nothing else is in any place. */
  ghost predicate Accounted(s: State) {
    && (forall place :: IdAt(s, place).Some? ==> IdAt(s, place).value in s.live)
    && (forall id :: id in s.live ==> id < s.nextId && Somewhere(s, id))
    && (forall p, q :: IdAt(s, p).Some? && IdAt(s, p) == IdAt(s, q) ==> p == q)
  }

  ghost predicate Somewhere(s: State, id: nat) {
    exists place :: IdAt(s, place) == Some(id)
  }

  // ---------- The kinds of change, in terms of places ----------

  ghost predicate SamePlaces(s: State, s': State) {
    s'.live == s.live && s'.nextId == s.nextId && forall p :: IdAt(s', p) == IdAt(s, p)
  }

  ghost predicate IssuedAt(s: State, s': State, to: Place) {
    && s'.live == s.live + {s.nextId} && s'.nextId == s.nextId + 1
    && IdAt(s, to).None? && IdAt(s', to) == Some(s.nextId)
    && forall p :: p != to ==> IdAt(s', p) == IdAt(s, p)
  }

  ghost predicate Moved(s: State, s': State, from: Place, to: Place) {
    && s'.live == s.live && s'.nextId == s.nextId && from != to
    && IdAt(s, from).Some? && IdAt(s', to) == IdAt(s, from) && IdAt(s', from).None?
    && forall p :: p != from && p != to ==> IdAt(s', p) == IdAt(s, p)
  }

  ghost predicate ReleasedAt(s: State, s': State, from: Place) {
    && IdAt(s, from).Some? && s'.live == s.live - {IdAt(s, from).value} && s'.nextId == s.nextId
    && IdAt(s', from).None?
    && forall p :: p != from ==> IdAt(s', p) == IdAt(s, p)
  }

  lemma SameKeepsAccounts(s: State, s': State)
    requires Accounted(s) && SamePlaces(s, s')
    ensures Accounted(s')
  {
    forall id | id in s'.live
      ensures Somewhere(s', id)
    {
      assert Somewhere(s, id);
      var p :| IdAt(s, p) == Some(id);
      assert IdAt(s', p) == Some(id);
    }
  }

  lemma IssuingKeepsAccounts(s: State, s': State, to: Place)
    requires Accounted(s) && IssuedAt(s, s', to)
    ensures Accounted(s')
  {
    forall id | id in s'.live
      ensures Somewhere(s', id)
    {
      if id == s.nextId {
        assert IdAt(s', to) == Some(id);
      } else {
        assert Somewhere(s, id);
        var p :| IdAt(s, p) == Some(id);
        assert IdAt(s', p) == Some(id);
      }
    }
  }

  /** Handing an id over keeps the accounts exactly when the receiving place was empty. */
  lemma MovingKeepsAccountsIff(s: State, s': State, from: Place, to: Place)
    requires Accounted(s) && Moved(s, s', from, to)
    ensures Accounted(s') <==> IdAt(s, to).None?
  {
    if IdAt(s, to).None? {
      forall id | id in s'.live
        ensures Somewhere(s', id)
      {
        assert Somewhere(s, id);
        var p :| IdAt(s, p) == Some(id);
        assert IdAt(s', if p == from then to else p) == Some(id);
      }
    } else {
      var lost := IdAt(s, to).value;
      assert lost in s'.live;
      forall p
        ensures IdAt(s', p) != Some(lost)
      {
        assert IdAt(s, p) == Some(lost) ==> p == to;
      }
      assert !Somewhere(s', lost);
    }
  }

  lemma ReleasingKeepsAccounts(s: State, s': State, from: Place)
    requires Accounted(s) && ReleasedAt(s, s', from)
    ensures Accounted(s')
  {
    forall id | id in s'.live
      ensures Somewhere(s', id)
    {
      assert Somewhere(s, id);
      var p :| IdAt(s, p) == Some(id);
      assert IdAt(s', p) == Some(id);
    }
  }

  lemma SwappedPlaces(r: bool, s: State)
    requires s.drop.Cleared?
    ensures var s' := Apply(r, s, DropSwap);
            && s'.live == s.live && s'.nextId == s.nextId
            && forall p :: IdAt(s', p) == if p.InRegistrations? then None
                                          else if p.InDrop? then IdAt(s, InRegistrations(p.path)) else IdAt(s, p)
  {
  }

  lemma SwappingKeepsAccounts(r: bool, s: State)
    requires Accounted(s) && s.drop.Cleared?
    ensures Accounted(Apply(r, s, DropSwap))
  {
    var s' := Apply(r, s, DropSwap);
    SwappedPlaces(r, s);
    forall id | id in s'.live
      ensures Somewhere(s', id)
    {
      assert Somewhere(s, id);
      var p :| IdAt(s, p) == Some(id);
      assert IdAt(s', if p.InRegistrations? then InDrop(p.path) else p) == Some(id);
    }
  }

  /** Putting a registration where one already is: the id that was there is known to nobody any more. */
  ghost predicate Overwrites(s: State, step: Step)
    requires Enabled(s, step)
  {
    match step
    case AddInsert(op) => s.adds[op].path in s.registrations
    case TaskInsert(t) => s.tasks[t].path in s.registrations
    case _ => false
  }

  // ---------- One step ----------

  /** The add has nothing to do, or leaves the path to a polling task, or is refused. */
  ghost predicate AddsNothing(r: bool, s: State, path: Path, exist: bool, outcome: Option<Mode>) {
    s.Covers(path, r) || path in s.registrations || path in s.pending || !exist || outcome.None?
  }

  /** Steps that neither issue, hand over nor release an id. */
  ghost predicate Silent(r: bool, s: State, step: Step)
    requires Enabled(s, step)
  {
    match step
    case AddRegister(_, outcome) => outcome.None?
    case AddInsert(_) => false
    case AddAtOnce(path, exist, outcome, _) => AddsNothing(r, s, path, exist, outcome)
    case TaskRegister(_, outcome) => outcome.None?
    case TaskReject(_) => false
    case TaskInsert(_) => false
    case RemoveTake(op) => s.removes[op].path !in s.registrations
    case RemoveRelease(_) => false
    case DropSwap => false
    case DropRelease(_) => false
    case _ => true
  }

  lemma SilentAtomicAddPlaces(r: bool, s: State, step: Step)
    requires Enabled(s, step) && Silent(r, s, step) && step.AddAtOnce?
    ensures SamePlaces(s, Apply(r, s, step))
  {
  }

  lemma SilentAddPlaces(r: bool, s: State, step: Step)
    requires Enabled(s, step) && Silent(r, s, step)
    requires step.AddCheckRegistrations? || step.AddCheckPending? || step.AddStat? || step.AddInsertPending?
          || step.AddRegister?
    ensures SamePlaces(s, Apply(r, s, step))
  {
  }

  lemma SilentTaskPlaces(r: bool, s: State, step: Step)
    requires Enabled(s, step) && Silent(r, s, step)
    requires step.TaskWake? || step.TaskStat? || step.TaskCheckRegistrations? || step.TaskForget? || step.TaskRegister?
          || step.TaskClaim? || step.TaskCancel?
    ensures SamePlaces(s, Apply(r, s, step))
  {
  }

  lemma SilentOtherPlaces(r: bool, s: State, step: Step)
    requires Enabled(s, step) && Silent(r, s, step)
    requires step.RemoveForget? || step.RemoveTake? || step.DropClear? || step.DropFinish?
    ensures SamePlaces(s, Apply(r, s, step))
  {
  }

  lemma SilentPlaces(r: bool, s: State, step: Step)
    requires Enabled(s, step) && Silent(r, s, step)
    ensures SamePlaces(s, Apply(r, s, step))
  {
    if step.AddCheckRegistrations? || step.AddCheckPending? || step.AddStat? || step.AddInsertPending?
       || step.AddRegister? {
      SilentAddPlaces(r, s, step);
    } else if step.AddAtOnce? {
      SilentAtomicAddPlaces(r, s, step);
    } else if step.RemoveForget? || step.RemoveTake? || step.DropClear? || step.DropFinish? {
      SilentOtherPlaces(r, s, step);
    } else {
      SilentTaskPlaces(r, s, step);
    }
  }

  lemma IssuingPlaces(r: bool, s: State, step: Step)
    requires Enabled(s, step) && !Silent(r, s, step)
    requires step.AddRegister? || step.AddAtOnce? || step.TaskRegister?
    ensures IssuedAt(s, Apply(r, s, step),
                     match step
                     case AddRegister(op, _) => InAdd(op)
                     case AddAtOnce(path, _, _, _) => InRegistrations(path)
                     case TaskRegister(t, _) => InTask(t))
  {
  }

  lemma MovingPlaces(r: bool, s: State, step: Step)
    requires Enabled(s, step) && !Silent(r, s, step)
    requires step.AddInsert? || step.TaskInsert? || step.RemoveTake?
    ensures var s' := Apply(r, s, step);
            match step
            case AddInsert(op) => Moved(s, s', InAdd(op), InRegistrations(s.adds[op].path))
            case TaskInsert(t) => Moved(s, s', InTask(t), InRegistrations(s.tasks[t].path))
            case RemoveTake(op) => Moved(s, s', InRegistrations(s.removes[op].path), InRemove(op))
  {
  }

  lemma ReleasingPlaces(r: bool, s: State, step: Step)
    requires Enabled(s, step)
    requires step.TaskReject? || step.RemoveRelease? || step.DropRelease?
    ensures ReleasedAt(s, Apply(r, s, step),
                       match step
                       case TaskReject(t) => InTask(t)
                       case RemoveRelease(op) => InRemove(op)
                       case DropRelease(path) => InDrop(path))
  {
  }

  /**
   Whatever the interleaving, a step keeps every live id accounted for exactly when it does not
   overwrite a registration.
   */
  lemma StepKeepsAccountsIff(r: bool, s: State, step: Step)
    requires Accounted(s) && Enabled(s, step)
    ensures Accounted(Apply(r, s, step)) <==> !Overwrites(s, step)
  {
    var s' := Apply(r, s, step);
    if Silent(r, s, step) {
      SilentPlaces(r, s, step);
      SameKeepsAccounts(s, s');
    } else {
      match step
      case AddRegister(op, _) => IssuingPlaces(r, s, step); IssuingKeepsAccounts(s, s', InAdd(op));
      case AddAtOnce(path, _, _, _) => IssuingPlaces(r, s, step); IssuingKeepsAccounts(s, s', InRegistrations(path));
      case TaskRegister(t, _) => IssuingPlaces(r, s, step); IssuingKeepsAccounts(s, s', InTask(t));
      case AddInsert(op) =>
        MovingPlaces(r, s, step);
        MovingKeepsAccountsIff(s, s', InAdd(op), InRegistrations(s.adds[op].path));
      case TaskInsert(t) =>
        MovingPlaces(r, s, step);
        MovingKeepsAccountsIff(s, s', InTask(t), InRegistrations(s.tasks[t].path));
      case RemoveTake(op) =>
        MovingPlaces(r, s, step);
        MovingKeepsAccountsIff(s, s', InRegistrations(s.removes[op].path), InRemove(op));
      case TaskReject(t) => ReleasingPlaces(r, s, step); ReleasingKeepsAccounts(s, s', InTask(t));
      case RemoveRelease(op) => ReleasingPlaces(r, s, step); ReleasingKeepsAccounts(s, s', InRemove(op));
      case DropRelease(path) => ReleasingPlaces(r, s, step); ReleasingKeepsAccounts(s, s', InDrop(path));
      case DropSwap => SwappingKeepsAccounts(r, s);
    }
  }

  /** An id that is nowhere stays live for ever: nobody can release it. */
  lemma LostStaysLost(r: bool, s: State, step: Step, id: nat)
    requires Enabled(s, step) && id in s.live && id < s.nextId && !Somewhere(s, id)
    ensures var s' := Apply(r, s, step); id in s'.live && id < s'.nextId && !Somewhere(s', id)
  {
    var s' := Apply(r, s, step);
    assert forall p :: IdAt(s, p) != Some(id);
    if Silent(r, s, step) {
      SilentPlaces(r, s, step);
    } else if step.AddRegister? || step.AddAtOnce? || step.TaskRegister? {
      IssuingPlaces(r, s, step);
    } else if step.AddInsert? || step.TaskInsert? || step.RemoveTake? {
      MovingPlaces(r, s, step);
    } else if step.DropSwap? {
      SwappedPlaces(r, s);
    } else {
      ReleasingPlaces(r, s, step);
    }
    assert forall p :: IdAt(s', p) != Some(id);
  }

  // ---------- Runs ----------

  ghost predicate Initial(s: State) {
    s == State(map[], map[], None, map[], map[], map[], NotDropped, {}, 0)
  }

  ghost predicate Next(r: bool, s: State, step: Step, s': State) {
    Enabled(s, step) && s' == Apply(r, s, step)
  }

  ghost predicate IsRun(r: bool, states: seq<State>, steps: seq<Step>) {
    && |states| == |steps| + 1 && Initial(states[0])
    && forall i, j :: 0 <= i < j < |states| && j == i + 1 ==> Next(r, states[i], steps[i], states[j])
  }

  /** No registration is overwritten before step `n`. */
  ghost predicate OverwriteFree(r: bool, states: seq<State>, steps: seq<Step>, n: nat)
    requires IsRun(r, states, steps) && n <= |steps|
  {
    forall i, j :: 0 <= i < j <= n && j == i + 1 ==> CleanStep(r, states[i], steps[i], states[j])
  }

  ghost predicate CleanStep(r: bool, s: State, step: Step, s': State) {
    Next(r, s, step, s') && !Overwrites(s, step)
  }

  /** Exactly the task inside the locked section holds the lock. */
  ghost predicate LockOk(s: State) {
    && (forall t :: t in s.tasks && (s.tasks[t].pc.Claimed? || s.tasks[t].pc.Rejected?) ==> s.pendingLock == Some(t))
    && (s.pendingLock.Some? ==>
          && s.pendingLock.value in s.tasks
          && var pc := s.tasks[s.pendingLock.value].pc; pc.Claimed? || pc.Rejected?)
  }

  /** Once destruction has begun, no call is under way and no task can register anything any more. */
  ghost predicate DropOrder(s: State) {
    && (!s.drop.NotDropped? ==>
          && (forall op :: op in s.adds ==> s.adds[op].pc == AddDone)
          && (forall op :: op in s.removes ==> s.removes[op] == RemoveDone)
          && s.pending == map[]
          && forall t :: t in s.tasks ==> !s.tasks[t].pc.Claimed?)
    && (s.drop.Draining? || s.drop.Dropped? ==> s.registrations == map[])
  }

  predicate OfTask(step: Step) {
    step.TaskWake? || step.TaskStat? || step.TaskCheckRegistrations? || step.TaskForget? || step.TaskRegister?
    || step.TaskClaim? || step.TaskReject? || step.TaskInsert? || step.TaskCancel?
  }

  lemma HandOverKeepsLock(r: bool, s: State, step: Step)
    requires LockOk(s) && Enabled(s, step) && (step.TaskClaim? || step.TaskReject? || step.TaskInsert?)
    ensures LockOk(Apply(r, s, step))
  {
  }

  lemma TaskStepKeepsLock(r: bool, s: State, step: Step)
    requires LockOk(s) && Enabled(s, step) && OfTask(step)
    ensures LockOk(Apply(r, s, step))
  {
    if step.TaskClaim? || step.TaskReject? || step.TaskInsert? {
      HandOverKeepsLock(r, s, step);
    }
  }

  lemma HandOverKeepsDropOrder(r: bool, s: State, step: Step)
    requires DropOrder(s) && Enabled(s, step) && (step.TaskClaim? || step.TaskReject? || step.TaskInsert?)
    ensures DropOrder(Apply(r, s, step))
  {
  }

  lemma TaskStepKeepsDropOrder(r: bool, s: State, step: Step)
    requires DropOrder(s) && Enabled(s, step) && OfTask(step)
    ensures DropOrder(Apply(r, s, step))
  {
    if step.TaskClaim? || step.TaskReject? || step.TaskInsert? {
      HandOverKeepsDropOrder(r, s, step);
    }
  }

  lemma RemoveStepKeepsOrder(r: bool, s: State, step: Step)
    requires LockOk(s) && DropOrder(s) && Enabled(s, step)
    requires step.RemoveForget? || step.RemoveTake? || step.RemoveRelease?
    ensures LockOk(Apply(r, s, step)) && DropOrder(Apply(r, s, step))
  {
  }

  lemma StepKeepsOrder(r: bool, s: State, step: Step)
    requires LockOk(s) && DropOrder(s) && Enabled(s, step)
    ensures LockOk(Apply(r, s, step)) && DropOrder(Apply(r, s, step))
  {
    if OfTask(step) {
      TaskStepKeepsLock(r, s, step);
      TaskStepKeepsDropOrder(r, s, step);
    } else if step.RemoveForget? || step.RemoveTake? || step.RemoveRelease? {
      RemoveStepKeepsOrder(r, s, step);
    }
  }

  lemma {:induction false} RunsKeepOrder(r: bool, states: seq<State>, steps: seq<Step>, n: nat)
    requires IsRun(r, states, steps) && n < |states|
    ensures LockOk(states[n]) && DropOrder(states[n])
  {
    if n > 0 {
      RunsKeepOrder(r, states, steps, n - 1);
      assert Next(r, states[n - 1], steps[n - 1], states[n]);
      StepKeepsOrder(r, states[n - 1], steps[n - 1]);
    }
  }

  lemma {:induction false} AccountedUntilOverwrite(r: bool, states: seq<State>, steps: seq<Step>, n: nat)
    requires IsRun(r, states, steps) && n < |states| && OverwriteFree(r, states, steps, n)
    ensures Accounted(states[n])
  {
    if n > 0 {
      AccountedUntilOverwrite(r, states, steps, n - 1);
      assert CleanStep(r, states[n - 1], steps[n - 1], states[n]);
      StepKeepsAccountsIff(r, states[n - 1], steps[n - 1]);
    }
  }

  /** The id lost to an overwrite is live at every later point of the run. */
  lemma {:induction false} LostForEver(r: bool, states: seq<State>, steps: seq<Step>, m: nat, n: nat, id: nat)
    requires IsRun(r, states, steps) && m <= n < |states|
    requires id in states[m].live && id < states[m].nextId && !Somewhere(states[m], id)
    ensures id in states[n].live && id < states[n].nextId && !Somewhere(states[n], id)
  {
    if m < n {
      LostForEver(r, states, steps, m, n - 1, id);
      assert Next(r, states[n - 1], steps[n - 1], states[n]);
      LostStaysLost(r, states[n - 1], steps[n - 1], id);
    }
  }

  /** The watcher is gone and its polling tasks have finished. */
  ghost predicate Quiet(s: State) {
    s.drop.Dropped? && forall t :: t in s.tasks ==> s.tasks[t].pc == Finished
  }

  /**
   Whatever the interleaving: once the watcher is gone and its tasks have finished, the registry
   holds nothing of it exactly when no registration was overwritten on the way.
   */
  lemma NothingLeaksIff(r: bool, states: seq<State>, steps: seq<Step>)
    requires IsRun(r, states, steps) && Quiet(states[|steps|])
    ensures states[|steps|].live == {} <==> OverwriteFree(r, states, steps, |steps|)
  {
    var last := |steps|;
    var s := states[last];
    if OverwriteFree(r, states, steps, last) {
      AccountedUntilOverwrite(r, states, steps, last);
      RunsKeepOrder(r, states, steps, last);
      assert forall p :: IdAt(s, p).None?;
      assert forall id :: id in s.live ==> Somewhere(s, id);
    } else {
      var m := FirstOverwrite(r, states, steps, last);
      AccountedUntilOverwrite(r, states, steps, m);
      assert Next(r, states[m], steps[m], states[m + 1]);
      var id := OverwritingLoses(r, states[m], steps[m]);
      LostForEver(r, states, steps, m + 1, last, id);
    }
  }

  lemma {:induction false} FirstOverwrite(r: bool, states: seq<State>, steps: seq<Step>, n: nat) returns (m: nat)
    requires IsRun(r, states, steps) && n <= |steps| && !OverwriteFree(r, states, steps, n)
    ensures m < n && OverwriteFree(r, states, steps, m)
    ensures Next(r, states[m], steps[m], states[m + 1]) && Overwrites(states[m], steps[m])
  {
    var i, j :| 0 <= i < j <= n && j == i + 1
                && !CleanStep(r, states[i], steps[i], states[j]);
    assert Next(r, states[i], steps[i], states[j]);
    if OverwriteFree(r, states, steps, i) {
      m := i;
    } else {
      m := FirstOverwrite(r, states, steps, i);
    }
  }

  lemma OverwritingLoses(r: bool, s: State, step: Step) returns (id: nat)
    requires Accounted(s) && Enabled(s, step) && Overwrites(s, step)
    ensures var s' := Apply(r, s, step); id in s'.live && id < s'.nextId && !Somewhere(s', id)
  {
    var s' := Apply(r, s, step);
    MovingPlaces(r, s, step);
    var path := if step.AddInsert? then s.adds[step.op].path else s.tasks[step.t].path;
    id := s.registrations[path].id;
    assert IdAt(s, InRegistrations(path)) == Some(id);
    forall p
      ensures IdAt(s', p) != Some(id)
    {
      assert IdAt(s, p) == Some(id) ==> p == InRegistrations(path);
    }
  }

  // ---------- Runs in which nothing comes between the checks and the insert of an add ----------

  /** No path is both pending and registered, not even while a task hands it over. */
  ghost predicate Exclusive(s: State) {
    && (forall path :: path in s.pending ==> path !in s.registrations)
    && (forall t :: t in s.tasks && s.tasks[t].pc.Claimed? ==>
          s.tasks[t].path !in s.registrations && s.tasks[t].path !in s.pending)
  }

  /** What an add under way has checked still holds. */
  ghost predicate ChecksHold(s: State) {
    forall op :: op in s.adds && s.adds[op].pc != AddDone ==>
      && s.adds[op].path !in s.registrations
      && (s.adds[op].pc != SawUnregistered ==> Unclaimed(s, s.adds[op].path))
  }

  ghost predicate Unclaimed(s: State, path: Path) {
    path !in s.pending && forall t :: t in s.tasks && s.tasks[t].pc.Claimed? ==> s.tasks[t].path != path
  }

  /**
   The step registers no path of an add that stays under way, and makes no such path pending after the
   add has looked for it there.
   */
  ghost predicate Undisturbed(s: State, s': State) {
    forall op :: op in s'.adds && s'.adds[op].pc != AddDone ==>
      && (s'.adds[op].path in s'.registrations ==> s'.adds[op].path in s.registrations)
      && (s'.adds[op].pc != SawUnregistered && s'.adds[op].path in s'.pending ==> s'.adds[op].path in s.pending)
  }

  ghost predicate UndisturbedUntil(states: seq<State>, n: nat)
    requires n < |states|
  {
    forall i, j :: 0 <= i < j <= n && j == i + 1 ==> Undisturbed(states[i], states[j])
  }

  /** The steps of an add that other steps could come between. */
  predicate Interruptible(step: Step) {
    step.AddCheckRegistrations? || step.AddCheckPending? || step.AddStat? || step.AddInsertPending?
    || step.AddRegister? || step.AddInsert?
  }

  lemma HandOverKeepsChecks(r: bool, s: State, step: Step)
    requires LockOk(s) && Exclusive(s) && ChecksHold(s) && Enabled(s, step) && (step.TaskClaim? || step.TaskInsert?)
    requires Undisturbed(s, Apply(r, s, step))
    ensures Exclusive(Apply(r, s, step)) && ChecksHold(Apply(r, s, step)) && !Overwrites(s, step)
  {
  }

  lemma WaitingStepKeepsChecks(r: bool, s: State, step: Step)
    requires LockOk(s) && Exclusive(s) && ChecksHold(s) && Enabled(s, step) && (step.TaskWake? || step.TaskStat? || step.TaskForget? || step.TaskCancel?)
    requires Undisturbed(s, Apply(r, s, step))
    ensures Exclusive(Apply(r, s, step)) && ChecksHold(Apply(r, s, step)) && !Overwrites(s, step)
  {
  }

  lemma PollingStepKeepsChecks(r: bool, s: State, step: Step)
    requires LockOk(s) && Exclusive(s) && ChecksHold(s) && Enabled(s, step) && (step.TaskCheckRegistrations? || step.TaskRegister?)
    requires Undisturbed(s, Apply(r, s, step))
    ensures Exclusive(Apply(r, s, step)) && ChecksHold(Apply(r, s, step)) && !Overwrites(s, step)
  {
  }

  lemma RejectStepKeepsChecks(r: bool, s: State, step: Step)
    requires LockOk(s) && Exclusive(s) && ChecksHold(s) && Enabled(s, step) && step.TaskReject?
    requires Undisturbed(s, Apply(r, s, step))
    ensures Exclusive(Apply(r, s, step)) && ChecksHold(Apply(r, s, step)) && !Overwrites(s, step)
  {
  }

  lemma CheckStepKeepsChecks(r: bool, s: State, step: Step)
    requires LockOk(s) && Exclusive(s) && ChecksHold(s) && Enabled(s, step) && (step.AddCheckRegistrations? || step.AddCheckPending? || step.AddStat?)
    requires Undisturbed(s, Apply(r, s, step))
    ensures Exclusive(Apply(r, s, step)) && ChecksHold(Apply(r, s, step)) && !Overwrites(s, step)
  {
  }

  lemma QueueStepKeepsChecks(r: bool, s: State, step: Step)
    requires LockOk(s) && Exclusive(s) && ChecksHold(s) && Enabled(s, step) && step.AddInsertPending?
    requires Undisturbed(s, Apply(r, s, step))
    ensures Exclusive(Apply(r, s, step)) && ChecksHold(Apply(r, s, step)) && !Overwrites(s, step)
  {
  }

  lemma RegisterStepKeepsChecks(r: bool, s: State, step: Step)
    requires LockOk(s) && Exclusive(s) && ChecksHold(s) && Enabled(s, step) && step.AddRegister?
    requires Undisturbed(s, Apply(r, s, step))
    ensures Exclusive(Apply(r, s, step)) && ChecksHold(Apply(r, s, step)) && !Overwrites(s, step)
  {
  }

  lemma InsertStepKeepsChecks(r: bool, s: State, step: Step)
    requires LockOk(s) && Exclusive(s) && ChecksHold(s) && Enabled(s, step) && step.AddInsert?
    requires Undisturbed(s, Apply(r, s, step))
    ensures Exclusive(Apply(r, s, step)) && ChecksHold(Apply(r, s, step)) && !Overwrites(s, step)
  {
  }

  lemma AtomicAddKeepsChecks(r: bool, s: State, step: Step)
    requires LockOk(s) && Exclusive(s) && ChecksHold(s) && Enabled(s, step) && step.AddAtOnce?
    requires Undisturbed(s, Apply(r, s, step))
    ensures Exclusive(Apply(r, s, step)) && ChecksHold(Apply(r, s, step)) && !Overwrites(s, step)
  {
  }

  lemma RemoveStepKeepsChecks(r: bool, s: State, step: Step)
    requires LockOk(s) && Exclusive(s) && ChecksHold(s) && Enabled(s, step) && (step.RemoveForget? || step.RemoveTake? || step.RemoveRelease?)
    requires Undisturbed(s, Apply(r, s, step))
    ensures Exclusive(Apply(r, s, step)) && ChecksHold(Apply(r, s, step)) && !Overwrites(s, step)
  {
  }

  lemma DropStepKeepsChecks(r: bool, s: State, step: Step)
    requires LockOk(s) && Exclusive(s) && ChecksHold(s) && Enabled(s, step) && (step.DropClear? || step.DropSwap? || step.DropRelease? || step.DropFinish?)
    requires Undisturbed(s, Apply(r, s, step))
    ensures Exclusive(Apply(r, s, step)) && ChecksHold(Apply(r, s, step)) && !Overwrites(s, step)
  {
  }

  lemma StepKeepsChecks(r: bool, s: State, step: Step)
    requires LockOk(s) && Exclusive(s) && ChecksHold(s) && Enabled(s, step)
    requires Undisturbed(s, Apply(r, s, step))
    ensures Exclusive(Apply(r, s, step)) && ChecksHold(Apply(r, s, step)) && !Overwrites(s, step)
  {
    if step.TaskClaim? || step.TaskInsert? {
      HandOverKeepsChecks(r, s, step);
    } else if step.TaskWake? || step.TaskStat? || step.TaskForget? || step.TaskCancel? {
      WaitingStepKeepsChecks(r, s, step);
    } else if step.TaskReject? {
      RejectStepKeepsChecks(r, s, step);
    } else if OfTask(step) {
      PollingStepKeepsChecks(r, s, step);
    } else if step.AddCheckRegistrations? || step.AddCheckPending? || step.AddStat? {
      CheckStepKeepsChecks(r, s, step);
    } else if step.AddInsertPending? {
      QueueStepKeepsChecks(r, s, step);
    } else if step.AddRegister? {
      RegisterStepKeepsChecks(r, s, step);
    } else if step.AddInsert? {
      InsertStepKeepsChecks(r, s, step);
    } else if step.AddAtOnce? {
      AtomicAddKeepsChecks(r, s, step);
    } else if step.RemoveForget? || step.RemoveTake? || step.RemoveRelease? {
      RemoveStepKeepsChecks(r, s, step);
    } else {
      DropStepKeepsChecks(r, s, step);
    }
  }

  /**
   Safety: at every point of every run, with adds, removals, polling tasks and destruction interleaved at
   will, as long as no other step registers the path of an add under way or makes it pending after its check.
   */
  lemma {:induction false} UndisturbedAddsAreSafe(r: bool, states: seq<State>, steps: seq<Step>, n: nat)
    requires IsRun(r, states, steps) && n <= |steps| && UndisturbedUntil(states, n)
    ensures Exclusive(states[n]) && ChecksHold(states[n]) && OverwriteFree(r, states, steps, n) && Accounted(states[n])
  {
    if n > 0 {
      UndisturbedAddsAreSafe(r, states, steps, n - 1);
      RunsKeepOrder(r, states, steps, n - 1);
      assert Next(r, states[n - 1], steps[n - 1], states[n]);
      StepKeepsChecks(r, states[n - 1], steps[n - 1]);
      StepKeepsAccountsIff(r, states[n - 1], steps[n - 1]);
    }
  }

  lemma UndisturbedAddsLeakNothing(r: bool, states: seq<State>, steps: seq<Step>)
    requires IsRun(r, states, steps) && Quiet(states[|steps|]) && UndisturbedUntil(states, |steps|)
    ensures states[|steps|].live == {}
  {
    UndisturbedAddsAreSafe(r, states, steps, |steps|);
    NothingLeaksIff(r, states, steps);
  }

  // ---------- Runs in which each add happens at once ----------

  lemma OthersLeaveAdds(r: bool, s: State, step: Step)
    requires Enabled(s, step) && !Interruptible(step)
    ensures Apply(r, s, step).adds == s.adds
  {
  }

  lemma {:induction false} NoneUnderWay(r: bool, states: seq<State>, steps: seq<Step>, n: nat)
    requires IsRun(r, states, steps) && n <= |steps|
    requires forall i :: 0 <= i < |steps| ==> !Interruptible(steps[i])
    ensures states[n].adds == map[]
  {
    if n > 0 {
      NoneUnderWay(r, states, steps, n - 1);
      assert Next(r, states[n - 1], steps[n - 1], states[n]);
      OthersLeaveAdds(r, states[n - 1], steps[n - 1]);
    }
  }

  /** So with each add as one step nothing can go wrong, with removals, polling tasks and destruction interleaved at will. */
  lemma AtomicAddsAreSafe(r: bool, states: seq<State>, steps: seq<Step>, n: nat)
    requires IsRun(r, states, steps) && n <= |steps|
    requires forall i :: 0 <= i < |steps| ==> !Interruptible(steps[i])
    ensures Exclusive(states[n]) && OverwriteFree(r, states, steps, n) && Accounted(states[n])
  {
    forall i | 0 <= i <= n
      ensures states[i].adds == map[]
    {
      NoneUnderWay(r, states, steps, i);
    }
    UndisturbedAddsAreSafe(r, states, steps, n);
  }

  lemma AtomicAddsLeakNothing(r: bool, states: seq<State>, steps: seq<Step>)
    requires IsRun(r, states, steps) && Quiet(states[|steps|])
    requires forall i :: 0 <= i < |steps| ==> !Interruptible(steps[i])
    ensures states[|steps|].live == {}
  {
    AtomicAddsAreSafe(r, states, steps, |steps|);
    NothingLeaksIff(r, states, steps);
  }

  // ---------- An add is its steps, and what may happen between them ----------

  /** The steps an add takes when nothing comes between them. */
  function StepsOfAdd(r: bool, s: State, op: nat, path: Path, exist: bool, outcome: Option<Mode>, t: nat): seq<Step> {
    if s.Covers(path, r) || path in s.registrations then [AddCheckRegistrations(op, path)]
    else if path in s.pending then [AddCheckRegistrations(op, path), AddCheckPending(op)]
    else if !exist then
      [AddCheckRegistrations(op, path), AddCheckPending(op), AddStat(op, false), AddInsertPending(op, t)]
    else if outcome.None? then
      [AddCheckRegistrations(op, path), AddCheckPending(op), AddStat(op, true), AddRegister(op, None)]
    else
      [AddCheckRegistrations(op, path), AddCheckPending(op), AddStat(op, true), AddRegister(op, outcome), AddInsert(op)]
  }

  ghost predicate LeadsTo(r: bool, s: State, steps: seq<Step>, s': State)
    decreases |steps|
  {
    if steps == [] then s == s'
    else Enabled(s, steps[0]) && LeadsTo(r, Apply(r, s, steps[0]), steps[1..], s')
  }

  lemma LeadsToCons(r: bool, s: State, step: Step, mid: State, rest: seq<Step>, s': State)
    requires Next(r, s, step, mid) && LeadsTo(r, mid, rest, s')
    ensures LeadsTo(r, s, [step] + rest, s')
  {
    assert ([step] + rest)[1..] == rest;
  }

  lemma LeadsTo2(r: bool, s0: State, a: Step, s1: State, b: Step, s2: State)
    requires Next(r, s0, a, s1) && Next(r, s1, b, s2)
    ensures LeadsTo(r, s0, [a, b], s2)
  {
    LeadsToCons(r, s1, b, s2, [], s2);
    LeadsToCons(r, s0, a, s1, [b], s2);
    assert [b] == [b] + [] && [a, b] == [a] + [b];
  }

  lemma {:induction false} LeadsToAppend(r: bool, s: State, a: seq<Step>, mid: State, b: seq<Step>, s': State)
    requires LeadsTo(r, s, a, mid) && LeadsTo(r, mid, b, s')
    ensures LeadsTo(r, s, a + b, s')
    decreases |a|
  {
    if a == [] {
      assert a + b == b;
    } else {
      LeadsToAppend(r, Apply(r, s, a[0]), a[1..], mid, b, s');
      assert (a + b)[1..] == a[1..] + b;
    }
  }

  lemma AddReachesStat(r: bool, s: State, op: nat, path: Path)
    requires op !in s.adds && s.drop.NotDropped? && s.pendingLock.None?
    requires !s.Covers(path, r) && path !in s.registrations && path !in s.pending
    ensures LeadsTo(r, s, [AddCheckRegistrations(op, path), AddCheckPending(op)],
                    s.(adds := s.adds[op := Add(path, SawNotPending)]))
  {
    var s1 := s.(adds := s.adds[op := Add(path, SawUnregistered)]);
    var s2 := s.(adds := s.adds[op := Add(path, SawNotPending)]);
    assert s1.adds[op := Add(path, SawNotPending)] == s2.adds;
    LeadsTo2(r, s, AddCheckRegistrations(op, path), s1, AddCheckPending(op), s2);
  }

  lemma AddWithoutId(r: bool, s: State, op: nat, path: Path, exist: bool, t: nat, s2: State)
    requires Enabled(s, AddAtOnce(path, exist, None, t)) && op !in s.adds
    requires !s.Covers(path, r) && path !in s.registrations && path !in s.pending
    requires s2 == s.(adds := s.adds[op := Add(path, SawNotPending)])
    ensures LeadsTo(r, s2, if !exist then [AddStat(op, false), AddInsertPending(op, t)] else [AddStat(op, true), AddRegister(op, None)],
                    Apply(r, s, AddAtOnce(path, exist, None, t)).(adds := s.adds[op := Add(path, AddDone)]))
  {
    var done := Apply(r, s, AddAtOnce(path, exist, None, t)).(adds := s.adds[op := Add(path, AddDone)]);
    var s3 := s.(adds := s.adds[op := Add(path, if exist then Found else Missing)]);
    assert s3.adds == s2.adds[op := Add(path, if exist then Found else Missing)];
    assert s3.adds[op := Add(path, AddDone)] == done.adds;
    if exist {
      LeadsTo2(r, s2, AddStat(op, true), s3, AddRegister(op, None), done);
    } else {
      LeadsTo2(r, s2, AddStat(op, false), s3, AddInsertPending(op, t), done);
    }
  }

  lemma AddMakesId(r: bool, s: State, op: nat, path: Path, mode: Mode, s2: State, s4: State)
    requires op !in s.adds
    requires s2 == s.(adds := s.adds[op := Add(path, SawNotPending)])
    requires s4 == s.Issued().(adds := s.adds[op := Add(path, Made(Reg(s.nextId, mode)))])
    ensures LeadsTo(r, s2, [AddStat(op, true), AddRegister(op, Some(mode))], s4)
  {
    var s3 := s.(adds := s.adds[op := Add(path, Found)]);
    assert s3.adds == s2.adds[op := Add(path, Found)];
    assert s3.adds[op := Add(path, Made(Reg(s.nextId, mode)))] == s4.adds;
    LeadsTo2(r, s2, AddStat(op, true), s3, AddRegister(op, Some(mode)), s4);
  }

  lemma AddInsertsId(r: bool, s: State, op: nat, path: Path, mode: Mode, t: nat, s4: State, done: State)
    requires Enabled(s, AddAtOnce(path, true, Some(mode), t)) && op !in s.adds
    requires !s.Covers(path, r) && path !in s.registrations && path !in s.pending
    requires s4 == s.Issued().(adds := s.adds[op := Add(path, Made(Reg(s.nextId, mode)))])
    requires done == Apply(r, s, AddAtOnce(path, true, Some(mode), t)).(adds := s.adds[op := Add(path, AddDone)])
    ensures LeadsTo(r, s4, [AddInsert(op)], done)
  {
    assert s4.adds[op := Add(path, AddDone)] == done.adds;
    LeadsToCons(r, s4, AddInsert(op), done, [], done);
    assert [AddInsert(op)] == [AddInsert(op)] + [];
  }

  lemma AddWithId(r: bool, s: State, op: nat, path: Path, mode: Mode, t: nat, s2: State)
    requires Enabled(s, AddAtOnce(path, true, Some(mode), t)) && op !in s.adds
    requires !s.Covers(path, r) && path !in s.registrations && path !in s.pending
    requires s2 == s.(adds := s.adds[op := Add(path, SawNotPending)])
    ensures LeadsTo(r, s2, [AddStat(op, true), AddRegister(op, Some(mode))] + [AddInsert(op)],
                    Apply(r, s, AddAtOnce(path, true, Some(mode), t)).(adds := s.adds[op := Add(path, AddDone)]))
  {
    var done := Apply(r, s, AddAtOnce(path, true, Some(mode), t)).(adds := s.adds[op := Add(path, AddDone)]);
    var s4 := s.Issued().(adds := s.adds[op := Add(path, Made(Reg(s.nextId, mode)))]);
    AddMakesId(r, s, op, path, mode, s2, s4);
    AddInsertsId(r, s, op, path, mode, t, s4, done);
    LeadsToAppend(r, s2, [AddStat(op, true), AddRegister(op, Some(mode))], s4, [AddInsert(op)], done);
  }

  lemma AddStopsAtACheck(r: bool, s: State, op: nat, path: Path, exist: bool, outcome: Option<Mode>, t: nat)
    requires Enabled(s, AddAtOnce(path, exist, outcome, t)) && op !in s.adds
    requires s.Covers(path, r) || path in s.registrations || path in s.pending
    ensures LeadsTo(r, s, StepsOfAdd(r, s, op, path, exist, outcome, t), s.(adds := s.adds[op := Add(path, AddDone)]))
  {
    var done := s.(adds := s.adds[op := Add(path, AddDone)]);
    if s.Covers(path, r) || path in s.registrations {
      LeadsToCons(r, s, AddCheckRegistrations(op, path), done, [], done);
      assert [AddCheckRegistrations(op, path)] == [AddCheckRegistrations(op, path)] + [];
    } else {
      var s1 := s.(adds := s.adds[op := Add(path, SawUnregistered)]);
      assert s1.adds[op := Add(path, AddDone)] == done.adds;
      LeadsTo2(r, s, AddCheckRegistrations(op, path), s1, AddCheckPending(op), done);
    }
  }

  lemma AddPassesChecks(r: bool, s: State, op: nat, path: Path, exist: bool, outcome: Option<Mode>, t: nat)
    requires Enabled(s, AddAtOnce(path, exist, outcome, t)) && op !in s.adds
    requires !s.Covers(path, r) && path !in s.registrations && path !in s.pending
    ensures LeadsTo(r, s.(adds := s.adds[op := Add(path, SawNotPending)]),
                    StepsOfAdd(r, s, op, path, exist, outcome, t)[2..],
                    Apply(r, s, AddAtOnce(path, exist, outcome, t)).(adds := s.adds[op := Add(path, AddDone)]))
  {
    var s2 := s.(adds := s.adds[op := Add(path, SawNotPending)]);
    var rest := StepsOfAdd(r, s, op, path, exist, outcome, t)[2..];
    if exist && outcome.Some? {
      AddWithId(r, s, op, path, outcome.value, t, s2);
      assert rest == [AddStat(op, true), AddRegister(op, outcome)] + [AddInsert(op)];
    } else {
      AddWithoutId(r, s, op, path, exist, t, s2);
      assert rest == if !exist then [AddStat(op, false), AddInsertPending(op, t)] else [AddStat(op, true), AddRegister(op, None)];
    }
  }

  /** `AddAtOnce` is the uninterrupted run of the steps of an add. */
  lemma AddAtOnceIsUninterruptedAdd(r: bool, s: State, op: nat, path: Path, exist: bool, outcome: Option<Mode>, t: nat)
    requires Enabled(s, AddAtOnce(path, exist, outcome, t)) && op !in s.adds
    ensures LeadsTo(r, s, StepsOfAdd(r, s, op, path, exist, outcome, t),
                    Apply(r, s, AddAtOnce(path, exist, outcome, t)).(adds := s.adds[op := Add(path, AddDone)]))
  {
    if s.Covers(path, r) || path in s.registrations || path in s.pending {
      AddStopsAtACheck(r, s, op, path, exist, outcome, t);
    } else {
      var steps := StepsOfAdd(r, s, op, path, exist, outcome, t);
      var s2 := s.(adds := s.adds[op := Add(path, SawNotPending)]);
      var done := Apply(r, s, AddAtOnce(path, exist, outcome, t)).(adds := s.adds[op := Add(path, AddDone)]);
      AddReachesStat(r, s, op, path);
      AddPassesChecks(r, s, op, path, exist, outcome, t);
      LeadsToAppend(r, s, [AddCheckRegistrations(op, path), AddCheckPending(op)], s2, steps[2..], done);
      assert steps == [AddCheckRegistrations(op, path), AddCheckPending(op)] + steps[2..];
    }
  }

  // A run that leaks: the path is pending at the first check of an add and registered at the second.

  function AddMeetsTask(path: Path): seq<Step> {
    [AddAtOnce(path, false, None, 0), AddCheckRegistrations(0, path)]
  }

  function TaskRegisters(path: Path): seq<Step> {
    [TaskWake(0), TaskStat(0, true)] + [TaskCheckRegistrations(0), TaskRegister(0, Some(Native))]
    + [TaskClaim(0), TaskInsert(0)]
  }

  function AddRegistersAgain(path: Path): seq<Step> {
    [AddCheckPending(0), AddStat(0, true)] + [AddRegister(0, Some(Native)), AddInsert(0)]
  }

  function WatcherGoes(path: Path): seq<Step> {
    [DropClear, DropSwap] + [DropRelease(path), DropFinish]
  }

  function Meeting(path: Path): State {
    State(map[], map[path := 0], None, map[0 := Task(path, Sleeping)], map[0 := Add(path, SawUnregistered)], map[],
          NotDropped, {}, 0)
  }

  function Registered(path: Path): State {
    State(map[path := Reg(0, Native)], map[], None, map[0 := Task(path, Finished)], map[0 := Add(path, SawUnregistered)],
          map[], NotDropped, {0}, 1)
  }

  function RegisteredTwice(path: Path): State {
    State(map[path := Reg(1, Native)], map[], None, map[0 := Task(path, Finished)], map[0 := Add(path, AddDone)],
          map[], NotDropped, {0, 1}, 2)
  }

  function AtTask(path: Path, pc: TaskPc): State {
    Meeting(path).(tasks := map[0 := Task(path, pc)])
  }

  function TaskHolds(path: Path): State {
    AtTask(path, Holding(Reg(0, Native))).(live := {0}, nextId := 1)
  }

  lemma TaskFindsPath(r: bool, path: Path)
    ensures LeadsTo(r, Meeting(path), [TaskWake(0), TaskStat(0, true)], AtTask(path, Present))
  {
    LeadsTo2(r, Meeting(path), TaskWake(0), AtTask(path, Woken), TaskStat(0, true), AtTask(path, Present));
  }

  lemma TaskMakesId(r: bool, path: Path)
    ensures LeadsTo(r, AtTask(path, Present), [TaskCheckRegistrations(0), TaskRegister(0, Some(Native))], TaskHolds(path))
  {
    LeadsTo2(r, AtTask(path, Present), TaskCheckRegistrations(0), AtTask(path, Registering),
             TaskRegister(0, Some(Native)), TaskHolds(path));
  }

  lemma TaskHandsOver(r: bool, path: Path)
    ensures LeadsTo(r, TaskHolds(path), [TaskClaim(0), TaskInsert(0)], Registered(path))
  {
    var s := TaskHolds(path).(tasks := map[0 := Task(path, Claimed(Reg(0, Native)))], pending := map[], pendingLock := Some(0));
    assert map[path := 0] - {path} == map[];
    LeadsTo2(r, TaskHolds(path), TaskClaim(0), s, TaskInsert(0), Registered(path));
  }

  lemma TaskRegistersRun(r: bool, path: Path)
    ensures LeadsTo(r, Meeting(path), TaskRegisters(path), Registered(path))
  {
    TaskFindsPath(r, path);
    TaskMakesId(r, path);
    TaskHandsOver(r, path);
    var a, b := [TaskWake(0), TaskStat(0, true)], [TaskCheckRegistrations(0), TaskRegister(0, Some(Native))];
    LeadsToAppend(r, Meeting(path), a, AtTask(path, Present), b, TaskHolds(path));
    LeadsToAppend(r, Meeting(path), a + b, TaskHolds(path), [TaskClaim(0), TaskInsert(0)], Registered(path));
  }

  lemma AddRegistersAgainRun(r: bool, path: Path)
    ensures LeadsTo(r, Registered(path), AddRegistersAgain(path), RegisteredTwice(path))
  {
    var s0 := Registered(path);
    var s1 := s0.(adds := map[0 := Add(path, SawNotPending)]);
    var s2 := s0.(adds := map[0 := Add(path, Found)]);
    LeadsTo2(r, s0, AddCheckPending(0), s1, AddStat(0, true), s2);
    var s3 := s0.(adds := map[0 := Add(path, Made(Reg(1, Native)))], live := {0, 1}, nextId := 2);
    LeadsTo2(r, s2, AddRegister(0, Some(Native)), s3, AddInsert(0), RegisteredTwice(path));
    LeadsToAppend(r, s0, [AddCheckPending(0), AddStat(0, true)], s2,
                  [AddRegister(0, Some(Native)), AddInsert(0)], RegisteredTwice(path));
  }

  function Swapped(path: Path): State {
    RegisteredTwice(path).(drop := Draining(map[path := Reg(1, Native)]), registrations := map[])
  }

  function Leaked(path: Path): State {
    RegisteredTwice(path).(drop := Dropped, registrations := map[], live := {0})
  }

  lemma WatcherSwaps(r: bool, path: Path)
    ensures LeadsTo(r, RegisteredTwice(path), [DropClear, DropSwap], Swapped(path))
  {
    LeadsTo2(r, RegisteredTwice(path), DropClear, RegisteredTwice(path).(drop := Cleared), DropSwap, Swapped(path));
  }

  lemma WatcherDrains(r: bool, path: Path)
    ensures LeadsTo(r, Swapped(path), [DropRelease(path), DropFinish], Leaked(path))
  {
    assert {0, 1} - {1} == {0};
    LeadsTo2(r, Swapped(path), DropRelease(path), Swapped(path).(drop := Draining(map[]), live := {0}), DropFinish, Leaked(path));
  }

  lemma WatcherGoesRun(r: bool, path: Path)
    ensures LeadsTo(r, RegisteredTwice(path), WatcherGoes(path), Leaked(path))
  {
    WatcherSwaps(r, path);
    WatcherDrains(r, path);
    LeadsToAppend(r, RegisteredTwice(path), [DropClear, DropSwap], Swapped(path), [DropRelease(path), DropFinish], Leaked(path));
  }

  lemma AddMeetsTaskRun(r: bool, s: State, path: Path)
    requires Initial(s)
    ensures LeadsTo(r, s, AddMeetsTask(path), Meeting(path))
  {
    var s1 := s.(pending := map[path := 0], tasks := map[0 := Task(path, Sleeping)]);
    LeadsTo2(r, s, AddAtOnce(path, false, None, 0), s1, AddCheckRegistrations(0, path), Meeting(path));
  }

  /** An add interrupted between its two checks by a polling task for the same path leaks an id. */
  lemma InterruptedAddCanLeak(r: bool, s: State, path: Path) returns (steps: seq<Step>, last: State)
    requires Initial(s)
    ensures LeadsTo(r, s, steps, last) && Quiet(last) && last.live == {0}
  {
    AddMeetsTaskRun(r, s, path);
    TaskRegistersRun(r, path);
    AddRegistersAgainRun(r, path);
    WatcherGoesRun(r, path);
    var a, b, c, d := AddMeetsTask(path), TaskRegisters(path), AddRegistersAgain(path), WatcherGoes(path);
    steps, last := a + b + c + d, Leaked(path);
    LeadsToAppend(r, s, a, Meeting(path), b, Registered(path));
    LeadsToAppend(r, s, a + b, Registered(path), c, RegisteredTwice(path));
    LeadsToAppend(r, s, a + b + c, RegisteredTwice(path), d, last);
  }
}
