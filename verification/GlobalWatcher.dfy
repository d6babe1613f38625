/**
 The process-wide registry of watched paths. Several registrations of one path share a
 counted entry, and only the paths that need it are watched by the operating system, here an
 abstract set of paths per mode. Each lock-protected section is a method of its own.
 */
module GlobalWatcher {
  import opened Paths
  import opened Wrappers

  datatype Mode = Native | Poll

  datatype Registration = Registration(path: Path, mode: Mode)

  datatype PathState = PathState(count: nat, hasOsWatcher: bool)

  /** One more registration of `path`. */
  function CountedIn(paths: map<Path, PathState>, path: Path, covered: bool): map<Path, PathState> {
    paths[path := if path in paths then paths[path].(count := paths[path].count + 1) else PathState(1, !covered)]
  }

  /** One registration of `path` fewer. */
  function CountedOut(paths: map<Path, PathState>, path: Path): map<Path, PathState>
    requires path in paths
  {
    var state := paths[path];
    if state.count > 1 then paths[path := state.(count := state.count - 1)] else paths - {path}
  }

  /** The state behind the state lock. */
  datatype Registry = Registry(watchers: map<nat, Registration>,
                               nativePaths: map<Path, PathState>,
                               pollPaths: map<Path, PathState>,
                               nextId: nat)
  {
    function PathsOf(mode: Mode): map<Path, PathState> {
      if mode.Native? then nativePaths else pollPaths
    }

    function WithPaths(mode: Mode, paths: map<Path, PathState>): Registry {
      if mode.Native? then this.(nativePaths := paths) else this.(pollPaths := paths)
    }

    /** A further registration of `path`, under the next id. */
    function Registered(path: Path, mode: Mode, covered: bool): Registry {
      WithPaths(mode, CountedIn(PathsOf(mode), path, covered)).(watchers := watchers[nextId := Registration(path, mode)], nextId := nextId + 1)
    }

    /** The ids that share an entry. */
    ghost function Ids(path: Path, mode: Mode): set<nat> {
      set id | id in watchers && watchers[id] == Registration(path, mode)
    }

    ghost function StateAt(mode: Mode, path: Path): Option<PathState> {
      if path in PathsOf(mode) then Some(PathsOf(mode)[path]) else None
    }

    /** Each entry counts the live ids for its path and mode, and there is none without ids. */
    ghost predicate CountsOk() {
      && (forall id :: id in watchers ==> id < nextId)
      && (forall mode: Mode, path: Path :: CountOk(mode, path))
    }

    ghost predicate CountOk(mode: Mode, path: Path) {
      if path in PathsOf(mode) then PathsOf(mode)[path].count == |Ids(path, mode)| > 0 else Ids(path, mode) == {}
    }
  }

  lemma RegisteredKeepsCounts(r: Registry, path: Path, mode: Mode, covered: bool)
    requires r.CountsOk()
    ensures r.Registered(path, mode, covered).CountsOk()
  {
    var after := r.Registered(path, mode, covered);
    forall m: Mode, p: Path
      ensures after.CountOk(m, p)
    {
      assert r.CountOk(m, p);
      if m == mode && p == path {
        assert after.Ids(p, m) == r.Ids(p, m) + {r.nextId};
      } else {
        assert after.Ids(p, m) == r.Ids(p, m);
      }
    }
  }

  /** Taking an id out: the new registry, and the path to unwatch, if this was the last id of a path the system watches. */
  function Unregistered(r: Registry, id: nat): (Registry, Option<Registration>) {
    if id !in r.watchers then (r, None)
    else
      var reg := r.watchers[id];
      var rest := r.(watchers := r.watchers - {id});
      var paths := r.PathsOf(reg.mode);
      if reg.path !in paths then (rest, None)
      else
        (rest.WithPaths(reg.mode, CountedOut(paths, reg.path)),
         if paths[reg.path].count <= 1 && paths[reg.path].hasOsWatcher then Some(reg) else None)
  }

  /** With right counts the entry of a live id exists and its count can be decremented. */
  lemma LiveIdHasCount(r: Registry, id: nat)
    requires r.CountsOk() && id in r.watchers
    ensures var reg := r.watchers[id];
            reg.path in r.PathsOf(reg.mode) && r.PathsOf(reg.mode)[reg.path].count >= 1
  {
    var reg := r.watchers[id];
    assert r.CountOk(reg.mode, reg.path);
    assert id in r.Ids(reg.path, reg.mode);
  }

  lemma UnregisteredKeepsCounts(r: Registry, id: nat)
    requires r.CountsOk()
    ensures Unregistered(r, id).0.CountsOk()
  {
    if id in r.watchers {
      LiveIdHasCount(r, id);
      var reg := r.watchers[id];
      var after := Unregistered(r, id).0;
      forall m: Mode, p: Path
        ensures after.CountOk(m, p)
      {
        assert r.CountOk(m, p);
        if m == reg.mode && p == reg.path {
          assert after.Ids(p, m) == r.Ids(p, m) - {id};
          assert id in r.Ids(p, m);
        } else {
          assert after.Ids(p, m) == r.Ids(p, m);
        }
      }
    }
  }

  /** Exactly the id goes; its path is to be unwatched if that was the last id of a path with a system watch. */
  lemma UnregisteredTakesOne(r: Registry, id: nat)
    requires r.CountsOk()
    ensures var (after, unwatch) := Unregistered(r, id);
            && after.watchers == r.watchers - {id} && after.nextId == r.nextId
            && (id !in r.watchers ==> after == r && unwatch.None?)
            && (id in r.watchers ==>
                  var reg := r.watchers[id];
                  && (forall m: Mode, p: Path :: Registration(p, m) != reg ==> after.StateAt(m, p) == r.StateAt(m, p))
                  && (unwatch == Some(reg) <==>
                        r.Ids(reg.path, reg.mode) == {id} && reg.path in OsPaths(r.PathsOf(reg.mode)))
                  && (unwatch.None? || unwatch == Some(reg)))
  {
    if id in r.watchers {
      LiveIdHasCount(r, id);
      var reg := r.watchers[id];
      assert r.CountOk(reg.mode, reg.path) && id in r.Ids(reg.path, reg.mode);
      assert r.Ids(reg.path, reg.mode) == {id} <==> |r.Ids(reg.path, reg.mode)| == 1 by {
        OnlyOne(r.Ids(reg.path, reg.mode), id);
      }
    }
  }

  lemma OnlyOne(ids: set<nat>, id: nat)
    requires id in ids
    ensures ids == {id} <==> |ids| == 1
  {
    var rest := ids - {id};
    assert ids == rest + {id};
  }

  /** Removing what was just added restores the registry, up to the id counter. */
  lemma RemoveUndoesAdd(r: Registry, path: Path, mode: Mode, covered: bool)
    requires r.CountsOk()
    ensures var (after, unwatch) := Unregistered(r.Registered(path, mode, covered), r.nextId);
            && after == r.(nextId := r.nextId + 1)
            && (unwatch.Some? <==> path !in r.PathsOf(mode) && !covered)
  {
    assert r.CountOk(mode, path);
    var (after, unwatch) := Unregistered(r.Registered(path, mode, covered), r.nextId);
    assert r.nextId !in r.watchers;
    assert r.watchers[r.nextId := Registration(path, mode)] - {r.nextId} == r.watchers;
    assert after.PathsOf(mode) == r.PathsOf(mode);
  }

  /** A section under the state lock that changes the registry; the sections of different calls may interleave. */
  datatype Section = Register(path: Path, mode: Mode, covered: bool) | Unregister(id: nat)

  function AfterSections(r: Registry, sections: seq<Section>): Registry {
    if sections == [] then r
    else
      var before := AfterSections(r, sections[..|sections| - 1]);
      match sections[|sections| - 1]
      case Register(path, mode, covered) => before.Registered(path, mode, covered)
      case Unregister(id) => Unregistered(before, id).0
  }

  /** Whatever the order of the sections, counts are right, and the count of a live id can be decremented. */
  lemma {:induction false} InterleavingsKeepCounts(r: Registry, sections: seq<Section>, id: nat)
    requires r.CountsOk()
    ensures var after := AfterSections(r, sections);
            && after.CountsOk()
            && (id in after.watchers ==>
                  var reg := after.watchers[id];
                  reg.path in after.PathsOf(reg.mode) && after.PathsOf(reg.mode)[reg.path].count >= 1)
  {
    if sections != [] {
      var prefix := sections[..|sections| - 1];
      InterleavingsKeepCounts(r, prefix, id);
      match sections[|sections| - 1] {
        case Register(path, mode, covered) => RegisteredKeepsCounts(AfterSections(r, prefix), path, mode, covered);
        case Unregister(i) => UnregisteredKeepsCounts(AfterSections(r, prefix), i);
      }
    }
    if id in AfterSections(r, sections).watchers {
      LiveIdHasCount(AfterSections(r, sections), id);
    }
  }

  // ---------- Which paths the operating system watches ----------

  /** The paths that should be watched: those whose entry says so. */
  ghost function OsPaths(paths: map<Path, PathState>): set<Path> {
    set p | p in paths && paths[p].hasOsWatcher
  }

  /** A strict ancestor of `path` is registered. */
  predicate HasRegisteredAncestor(path: Path, paths: map<Path, PathState>) {
    exists n :: 0 <= n < |path| && path[..n] in paths
  }

  lemma AncestorIff(path: Path, paths: map<Path, PathState>)
    ensures HasRegisteredAncestor(path, paths) <==> exists a :: a in paths && a < path
  {
    if a :| a in paths && a < path {
      assert path[..|a|] == a;
    }
  }

  /** The system watch on `a` reports what happens to `p`. */
  ghost predicate WatchedBy(paths: map<Path, PathState>, a: Path, p: Path) {
    a in paths && a <= p && paths[a].hasOsWatcher
  }

  ghost predicate IsWatched(paths: map<Path, PathState>, p: Path) {
    exists a :: WatchedBy(paths, a, p)
  }

  /** The system watches every registered path or an ancestor of it. */
  ghost predicate AllWatched(paths: map<Path, PathState>) {
    forall p {:trigger IsWatched(paths, p)} :: p in paths ==> IsWatched(paths, p)
  }

  lemma RegisteringKeepsAllWatched(paths: map<Path, PathState>, path: Path, covered: bool)
    requires AllWatched(paths)
    requires covered ==> HasRegisteredAncestor(path, paths)
    ensures AllWatched(CountedIn(paths, path, covered))
  {
    var after := CountedIn(paths, path, covered);
    forall p | p in after
      ensures IsWatched(after, p)
    {
      if p in paths {
        assert IsWatched(paths, p);
        var a :| WatchedBy(paths, a, p);
        assert WatchedBy(after, a, p);
      } else if covered {
        var n :| 0 <= n < |path| && path[..n] in paths;
        assert IsWatched(paths, path[..n]);
        var a :| WatchedBy(paths, a, path[..n]);
        assert a <= path;
        assert WatchedBy(after, a, path);
      } else {
        assert WatchedBy(after, path, path);
      }
    }
  }

  /**
   `p` is below `path` and not watched itself, and `path` is the only registered path above it that is:
   what a caller can read off the entries.
   */
  predicate LeansOn(paths: map<Path, PathState>, p: Path, path: Path) {
    && path < p && p in paths && !paths[p].hasOsWatcher
    && forall n :: 0 <= n < |p| && n != |path| && p[..n] in paths ==> !paths[p[..n]].hasOsWatcher
  }

  lemma WatchedByPrefix(paths: map<Path, PathState>, p: Path, path: Path)
    requires p in paths && path in paths && paths[path].hasOsWatcher && p != path
    ensures LeansOn(paths, p, path) <==> path <= p && forall a :: a != path ==> !WatchedBy(paths, a, p)
  {
    if LeansOn(paths, p, path) {
      forall a | a != path
        ensures !WatchedBy(paths, a, p)
      {
        if a <= p {
          assert a == p[..|a|] && path == p[..|path|];
          assert a == p || |a| < |p|;
        }
      }
    }
    if path <= p && forall a :: a != path ==> !WatchedBy(paths, a, p) {
      assert !WatchedBy(paths, p, p);
      forall n | 0 <= n < |p| && n != |path| && p[..n] in paths
        ensures !paths[p[..n]].hasOsWatcher
      {
        assert !WatchedBy(paths, p[..n], p);
      }
    }
  }

  /** Without `path` exactly what leans on it is unwatched. */
  lemma DroppingUnwatches(paths: map<Path, PathState>, path: Path, p: Path)
    requires AllWatched(paths) && path in paths && p in paths && p != path
    ensures IsWatched(paths - {path}, p) <==> !(paths[path].hasOsWatcher && LeansOn(paths, p, path))
  {
    var rest := paths - {path};
    assert IsWatched(paths, p);
    if a :| WatchedBy(paths, a, p) && a != path {
      assert WatchedBy(rest, a, p);
    } else {
      var b :| WatchedBy(paths, b, p);
      assert b == path;
    }
    if paths[path].hasOsWatcher {
      WatchedByPrefix(paths, p, path);
    }
    if b :| WatchedBy(rest, b, p) {
      assert WatchedBy(paths, b, p);
    }
  }

  /** Taking an id away keeps all paths of its mode watched exactly when nothing to be unwatched has another path leaning on it. */
  lemma RemovalKeepsAllWatchedIff(r: Registry, id: nat)
    requires r.CountsOk() && id in r.watchers && AllWatched(r.PathsOf(r.watchers[id].mode))
    ensures var reg := r.watchers[id]; var (after, unwatch) := Unregistered(r, id);
            AllWatched(after.PathsOf(reg.mode)) <==>
            unwatch.None? || forall p :: p in r.PathsOf(reg.mode) ==> !LeansOn(r.PathsOf(reg.mode), p, reg.path)
  {
    LiveIdHasCount(r, id);
    var reg := r.watchers[id];
    var paths := r.PathsOf(reg.mode);
    var after := CountedOut(paths, reg.path);
    assert Unregistered(r, id).0.PathsOf(reg.mode) == after;
    if paths[reg.path].count > 1 {
      FewerKeepsAllWatched(paths, reg.path);
    } else {
      forall p | p in after
        ensures IsWatched(after, p) <==> !(paths[reg.path].hasOsWatcher && LeansOn(paths, p, reg.path))
      {
        DroppingUnwatches(paths, reg.path, p);
      }
    }
  }

  lemma FewerKeepsAllWatched(paths: map<Path, PathState>, path: Path)
    requires AllWatched(paths) && path in paths && paths[path].count > 1
    ensures AllWatched(CountedOut(paths, path))
  {
    var after := CountedOut(paths, path);
    forall p | p in after
      ensures IsWatched(after, p)
    {
      assert IsWatched(paths, p);
      var a :| WatchedBy(paths, a, p);
      assert WatchedBy(after, a, p);
    }
  }

  /** Every registered path has its own watch. */
  ghost predicate Direct(paths: map<Path, PathState>) {
    forall p :: p in paths ==> paths[p].hasOsWatcher
  }

  lemma DirectIsWatched(paths: map<Path, PathState>)
    requires Direct(paths)
    ensures AllWatched(paths)
  {
    forall p | p in paths
      ensures IsWatched(paths, p)
    {
      assert WatchedBy(paths, p, p);
    }
  }

  /** Registering adds to the paths that should be watched just a new path that nothing covers. */
  lemma RegisteredOsPaths(r: Registry, path: Path, mode: Mode, covered: bool)
    ensures var after, isNew := r.Registered(path, mode, covered), path !in r.PathsOf(mode) && !covered;
            && OsPaths(after.nativePaths) ==
               (if mode.Native? && isNew then OsPaths(r.nativePaths) + {path} else OsPaths(r.nativePaths))
            && OsPaths(after.pollPaths) ==
               (if mode.Poll? && isNew then OsPaths(r.pollPaths) + {path} else OsPaths(r.pollPaths))
  {
  }

  // ---------- The watcher ----------

  /** What the first section of `add` decides. */
  datatype AddPlan = CoolingDown | NeedsWatch | Known(covered: bool)

  /** What the backend makes of a watch request. */
  datatype WatchOutcome = Watching | LimitReached | Failed

  /** What a caller of `add` gets: an id, nothing for now, or the backend's error. */
  datatype AddResult = Added(id: nat) | NotNow | Error

  class Watcher {
    /** Whether native watches cover whole subtrees, as on Windows and macOS. */
    const nativeIsRecursive: bool
    var registry: Registry
    var cooldownUntil: Option<nat>
    var nativeWatched: set<Path>
    var pollWatched: set<Path>

    constructor (nativeIsRecursive: bool)
      ensures registry == Registry(map[], map[], map[], 0) && registry.CountsOk()
      ensures OsOk() && DirectOk() && this.nativeIsRecursive == nativeIsRecursive && cooldownUntil == None
    {
      this.nativeIsRecursive := nativeIsRecursive;
      registry, cooldownUntil, nativeWatched, pollWatched := Registry(map[], map[], map[], 0), None, {}, {};
      new;
      forall m: Mode, p: Path
        ensures registry.CountOk(m, p)
      {
        assert registry.Ids(p, m) == {};
      }
    }

    /** In each mode, the system watches exactly the paths whose entries say so. */
    ghost predicate OsOk()
      reads this
    {
      nativeWatched == OsPaths(registry.nativePaths) && pollWatched == OsPaths(registry.pollPaths)
    }

    /** Where native watches do not cover subtrees, every native path has its own. */
    ghost predicate DirectOk()
      reads this
    {
      !nativeIsRecursive ==> Direct(registry.nativePaths)
    }

    predicate Covered(path: Path, mode: Mode)
      reads this
    {
      (mode.Poll? || nativeIsRecursive) && HasRegisteredAncestor(path, registry.PathsOf(mode))
    }

    /** Nothing needs watching: the path is registered, or an ancestor is whose watch covers it. */
    ghost predicate NeedsNoWatch(path: Path, mode: Mode)
      reads this
    {
      var paths := registry.PathsOf(mode);
      path in paths || ((mode.Poll? || nativeIsRecursive) && exists a :: a in paths && a < path)
    }

    predicate CoolingDownAt(now: nat)
      reads this
    {
      cooldownUntil.Some? && cooldownUntil.value > now
    }

    /** First section of `add`: is a new watch needed? */
    method PlanAdd(path: Path, mode: Mode, now: nat) returns (plan: AddPlan)
      ensures plan == if Covered(path, mode) || path in registry.PathsOf(mode) then Known(Covered(path, mode))
                      else if mode.Native? && CoolingDownAt(now) then CoolingDown
                      else NeedsWatch
    {
      var covered := Covered(path, mode);
      var known := path in registry.PathsOf(mode);
      if !covered && !known {
        if mode == Native && CoolingDownAt(now) {
          return CoolingDown;
        }
        return NeedsWatch;
      }
      plan := Known(covered);
    }

    /** The backend call, made without the state lock. */
    method Watch(path: Path, mode: Mode, outcome: WatchOutcome)
      modifies this`nativeWatched, this`pollWatched
      ensures nativeWatched == if mode.Native? && outcome.Watching? then old(nativeWatched) + {path} else old(nativeWatched)
      ensures pollWatched == if mode.Poll? && outcome.Watching? then old(pollWatched) + {path} else old(pollWatched)
    {
      if outcome.Watching? {
        match mode
        case Native => nativeWatched := nativeWatched + {path};
        case Poll => pollWatched := pollWatched + {path};
      }
    }

    /** Last section of `add`; other sections may have run since the plan was made. */
    method Register(path: Path, mode: Mode, covered: bool) returns (id: nat)
      requires registry.CountsOk()
      modifies this`registry
      ensures registry == old(registry).Registered(path, mode, covered) && id == old(registry).nextId
      ensures registry.CountsOk() && id !in old(registry).watchers
    {
      RegisteredKeepsCounts(registry, path, mode, covered);
      id := registry.nextId;
      registry := registry.Registered(path, mode, covered);
    }

    method StartCooldown(now: nat, period: nat)
      modifies this`cooldownUntil
      ensures cooldownUntil == Some(now + period)
    {
      cooldownUntil := Some(now + period);
    }

    /** `add` without interference: what is registered stays watched, and the system watches what it should. */
    method Add(path: Path, mode: Mode, now: nat, period: nat, outcome: WatchOutcome) returns (r: AddResult)
      requires registry.CountsOk() && OsOk()
      modifies this`registry, this`cooldownUntil, this`nativeWatched, this`pollWatched
      ensures registry.CountsOk() && OsOk()
      ensures old(AllWatched(registry.PathsOf(mode))) ==> AllWatched(registry.PathsOf(mode))
      ensures old(DirectOk()) ==> DirectOk()
      ensures old(NeedsNoWatch(path, mode)) ==> r.Added?
      ensures r.NotNow? <==> old(!NeedsNoWatch(path, mode) && mode.Native? && (CoolingDownAt(now) || outcome.LimitReached?))
      ensures r.Error? <==> old(!NeedsNoWatch(path, mode) && !(mode.Native? && CoolingDownAt(now)))
                            && (outcome.Failed? || (outcome.LimitReached? && mode.Poll?))
      ensures r.Added? ==> r.id !in old(registry).watchers
                           && registry.watchers == old(registry).watchers[r.id := Registration(path, mode)]
      ensures registry == if r.Added? then old(registry).Registered(path, mode, old(Covered(path, mode))) else old(registry)
      ensures cooldownUntil ==
              if old(!NeedsNoWatch(path, mode) && mode.Native? && !CoolingDownAt(now)) && outcome.LimitReached?
              then Some(now + period) else old(cooldownUntil)
    {
      AncestorIff(path, registry.PathsOf(mode));
      var plan := PlanAdd(path, mode, now);
      if plan == CoolingDown {
        return NotNow;
      }
      if plan == NeedsWatch {
        Watch(path, mode, outcome);
        if outcome == LimitReached && mode == Native {
          StartCooldown(now, period);
          return NotNow;
        }
        if outcome != Watching {
          return Error;
        }
      }
      var covered := plan.Known? && plan.covered;
      if AllWatched(registry.PathsOf(mode)) {
        RegisteringKeepsAllWatched(registry.PathsOf(mode), path, covered);
      }
      RegisteredOsPaths(registry, path, mode, covered);
      var id := Register(path, mode, covered);
      r := Added(id);
    }

    /** The section of `remove` under the state lock; the decrement cannot underflow. */
    method RemoveRegistration(id: nat) returns (unwatch: Option<Registration>)
      requires registry.CountsOk()
      modifies this`registry
      ensures (registry, unwatch) == Unregistered(old(registry), id)
      ensures registry.CountsOk()
    {
      UnregisteredKeepsCounts(registry, id);
      if id !in registry.watchers {
        return None;
      }
      LiveIdHasCount(registry, id);
      var reg := registry.watchers[id];
      registry := registry.(watchers := registry.watchers - {id});
      var paths := registry.PathsOf(reg.mode);
      var state := paths[reg.path].(count := paths[reg.path].count - 1);
      if state.count != 0 {
        registry := registry.WithPaths(reg.mode, paths[reg.path := state]);
        return None;
      }
      registry := registry.WithPaths(reg.mode, paths - {reg.path});
      unwatch := if state.hasOsWatcher then Some(reg) else None;
    }

    /** `remove` without interference; `ok` says whether the backend's unwatch succeeds. */
    method Remove(id: nat, ok: bool)
      requires registry.CountsOk()
      modifies this`registry, this`nativeWatched, this`pollWatched
      ensures registry == Unregistered(old(registry), id).0 && registry.CountsOk()
      ensures old(OsOk()) && ok ==> OsOk()
      ensures old(DirectOk()) ==> DirectOk()
      ensures old(DirectOk()) && !nativeIsRecursive ==> AllWatched(registry.nativePaths)
    {
      ghost var before := registry;
      var unwatch := RemoveRegistration(id);
      if unwatch.Some? && ok {
        match unwatch.value.mode
        case Native => nativeWatched := nativeWatched - {unwatch.value.path};
        case Poll => pollWatched := pollWatched - {unwatch.value.path};
      }
      UnregisteredOsPaths(before, id);
      if old(DirectOk()) && !nativeIsRecursive {
        DirectIsWatched(registry.nativePaths);
      }
    }
  }

  /** After the limit was reached at `now`, a new native path is refused until the period is over, and no longer. */
  method LimitRefusesUntil(w: Watcher, first: Path, now: nat, period: nat, second: Path, later: nat) returns (r: AddResult)
    requires w.registry.CountsOk() && w.OsOk() && !w.CoolingDownAt(now)
    requires !w.NeedsNoWatch(first, Native) && !w.NeedsNoWatch(second, Native)
    modifies w
    ensures r.NotNow? <==> later < now + period
    ensures r.Added? <==> later >= now + period
  {
    var refused := w.Add(first, Native, now, period, LimitReached);
    r := w.Add(second, Native, later, period, Watching);
  }

  /** A child added under its parent has no watch of its own: when the parent goes, nothing watches the child. */
  method RemovingACoveringParentUnwatches(parent: Path, child: Path, recursive: bool) returns (w: Watcher)
    requires parent < child
    ensures w.registry.CountsOk() && w.OsOk()
    ensures child in w.registry.pollPaths && w.pollWatched == {} && !AllWatched(w.registry.pollPaths)
  {
    w := new Watcher(recursive);
    var first := w.Add(parent, Poll, 0, 0, Watching);
    assert parent == child[..|parent|];
    var second := w.Add(child, Poll, 0, 0, Watching);
    assert w.registry.pollPaths == map[parent := PathState(1, true), child := PathState(1, false)];
    w.Remove(0, true);
    assert w.registry.pollPaths == map[child := PathState(1, false)];
    assert !IsWatched(w.registry.pollPaths, child);
  }

  /** The paths that should be watched lose exactly the one to unwatch. */
  lemma UnregisteredOsPaths(r: Registry, id: nat)
    requires r.CountsOk()
    ensures var (after, unwatch) := Unregistered(r, id);
            && OsPaths(after.nativePaths) ==
               (if unwatch.Some? && unwatch.value.mode.Native? then OsPaths(r.nativePaths) - {unwatch.value.path}
                else OsPaths(r.nativePaths))
            && OsPaths(after.pollPaths) ==
               (if unwatch.Some? && unwatch.value.mode.Poll? then OsPaths(r.pollPaths) - {unwatch.value.path}
                else OsPaths(r.pollPaths))
  {
    if id in r.watchers {
      LiveIdHasCount(r, id);
    }
  }
}
