/**
 The update and effect cycle of the application. Application code appears as scripts of actions:
 the script of an update is given, and `future` holds the scripts that handlers will run, in the
 order in which they will be called, whatever they are.
 */
module AppCycle {
  import opened Wrappers
  import opened EffectQueue
  import opened WindowIndex
  import opened AppCode
  import opened AppHistory

  /** Effects whose handlers run as one script. */
  predicate HasOneHandler(effect: Effect) {
    effect.Notify? || effect.NotifyGlobalObservers? || effect.Emit? || effect.Defer?
  }

  /** The last effect applied asked for a window that is gone. */
  ghost predicate MissesItsWindow(applied: seq<Effect>, open: set<Window>) {
    && applied != []
    && var effect := applied[|applied| - 1];
       effect.EntityCreated? && effect.window.Some? && effect.window.value !in open
  }

  function Top(stack: seq<Window>): Option<Window> {
    if stack == [] then None else Some(stack[|stack| - 1])
  }

  ghost function OutOfSlot(windows: map<Window, bool>): set<Window> {
    set w | w in windows && !windows[w]
  }

  lemma TakingOut(windows: map<Window, bool>, w: Window)
    ensures OutOfSlot(windows[w := false]) == OutOfSlot(windows) + {w}
    ensures w in OutOfSlot(windows) ==> OutOfSlot(windows) + {w} == OutOfSlot(windows)
    ensures windows[w := false].Keys == windows.Keys + {w} && (w in windows ==> windows.Keys + {w} == windows.Keys)
  {
  }

  lemma PuttingBack(windows: map<Window, bool>, w: Window)
    ensures OutOfSlot(windows[w := true]) == OutOfSlot(windows) - {w}
    ensures OutOfSlot(windows - {w}) == OutOfSlot(windows) - {w}
    ensures w !in OutOfSlot(windows) ==> OutOfSlot(windows) + {w} - {w} == OutOfSlot(windows)
    ensures (windows - {w}).Keys == windows.Keys - {w}
    ensures windows[w := true].Keys == windows.Keys + {w} && (w in windows ==> windows.Keys + {w} == windows.Keys)
  {
  }

  /** The release of an entity, and the script that its observers ran. */
  datatype Release = Release(entity: Entity, script: seq<Action>)

  /** What was released, what is being released, and each release so far. */
  datatype Fates = Fates(released: set<Entity>, releasing: set<Entity>, releases: seq<Release>)

  /** All that the observers were sure to do in the releases after the first `from`. */
  ghost function SureTold(releases: seq<Release>, from: nat): multiset<Action> {
    if |releases| <= from then multiset{}
    else SureTold(releases[..|releases| - 1], from) + Sure(releases[|releases| - 1].script)
  }

  lemma OneMoreTold(releases: seq<Release>, from: nat, release: Release)
    requires from <= |releases|
    ensures SureTold(releases + [release], from) == SureTold(releases, from) + Sure(release.script)
  {
    assert (releases + [release])[..|releases|] == releases;
  }

  class App {
    var pendingEffects: seq<Effect>
    var pendingNotifications: set<Entity>
    var pendingGlobalNotifications: set<TypeId>
    var flushingEffects: bool
    var pendingUpdates: nat
    var arenaGeneration: nat
    var invalidators: map<Entity, set<Window>>
    var tracked: map<Window, set<Entity>>
    var currentWindow: map<Entity, Window>
    /** Whether a window is in its slot; it is not while code runs in it. */
    var windows: map<Window, bool>
    var windowUpdateStack: seq<Window>
    var nextWindow: Window
    var removed: set<Window>
    var drawing: set<Window>
    var dirty: set<Window>
    var newEntityObservers: map<TypeId, seq<nat>>
    var nextSubscriber: nat
    var dropped: set<Entity>
    var future: seq<seq<Action>>
    /** Entities that a frame, or their creation, has recorded after they were released. */
    ghost var revived: set<Entity>
    /** What has become of the entities that were dropped. */
    ghost var fates: Fates
    ghost var pushed: seq<Effect>
    ghost var applied: seq<Effect>
    /** Every action that application code has taken. */
    ghost var trace: multiset<Action>
    /** Every change to the windows and to the observers of new entities. */
    ghost var log: seq<Change>
    /** Actions that no code to come takes. */
    ghost var spared: set<Action>
    /** The turns of observers of new entities so far. */
    ghost var turns: seq<Turn>

    ghost function EffectsQueue(): Queue
      reads `pendingEffects, `pendingNotifications, `pendingGlobalNotifications, `arenaGeneration, `pushed, `applied
    {
      Queue(pendingEffects, pendingNotifications, pendingGlobalNotifications, arenaGeneration, pushed, applied)
    }

    ghost function EntityIndex(): Index
      reads `invalidators, `tracked, `currentWindow
    {
      Index(invalidators, tracked, currentWindow)
    }

    /** The windows that code is running in. */
    ghost function Taken(): set<Window>
      reads `windows
    {
      OutOfSlot(windows)
    }

    ghost function Current(): State
      reads `windows, `nextWindow, `removed, `newEntityObservers, `nextSubscriber
    {
      State(windows.Keys, nextWindow, removed, newEntityObservers, nextSubscriber)
    }

    /** What holds of the windows, and of their index, whenever application code runs. */
    ghost predicate WindowsOk()
      reads `invalidators, `tracked, `fates, `revived, `currentWindow, `windows
    {
      && Linked(invalidators, tracked, fates.released)
      && tracked.Keys <= windows.Keys
      && StaysForgotten(EntityIndex(), fates.released - revived)
    }

    ghost predicate Valid()
      reads this
    {
      QueueOk(EffectsQueue()) && WindowsOk() && HistoryOk() && DropsOk()
    }

    /** What was dropped is released, or waits for it. */
    ghost predicate DropsOk()
      reads `fates, `dropped, `trace
    {
      forall e :: DropEntity(e) in trace <==> e in fates.released || e in fates.releasing || e in dropped
    }

    ghost predicate HistoryOk()
      reads `windows, `nextWindow, `removed, `newEntityObservers, `nextSubscriber, `log, `future, `spared
    {
      Legal(log) && Replay(log) == Current() && SparedOk(future, log, spared)
    }

    ghost function Observers(tid: TypeId): seq<nat>
      reads this
    {
      Subscribers(newEntityObservers, tid)
    }

    /** What holds when no window is being updated. */
    ghost predicate AllInPlace()
      reads this
    {
      Taken() == {} && windowUpdateStack == []
    }

    ghost predicate Idle()
      reads this
    {
      Valid() && AllInPlace() && pendingUpdates == 0 && !flushingEffects && pendingEffects == [] && fates.releasing == {}
    }

    // ---------- What an update relies on ----------

    /** What code running inside an update must leave as it was, or may only add to. */
    twostate predicate Within()
      reads this
    {
      WithinAs(old(windowUpdateStack), old(Taken()))
    }

    twostate predicate WithinAs(stack: seq<Window>, taken: set<Window>)
      reads this
    {
      && windowUpdateStack == stack && Taken() == taken
      && pendingUpdates == old(pendingUpdates) && flushingEffects == old(flushingEffects)
      && arenaGeneration == old(arenaGeneration) && spared == old(spared)
      && applied == old(applied) && turns == old(turns) && fates == old(fates) && Grown()
    }

    /** What a pass over the queue leaves as it was between two effects. */
    twostate predicate WithinFlush()
      reads this
    {
      && windowUpdateStack == old(windowUpdateStack) && Taken() == old(Taken())
      && pendingUpdates == old(pendingUpdates) && flushingEffects == old(flushingEffects)
      && arenaGeneration == old(arenaGeneration) && spared == old(spared)
      && applied == old(applied) && old(turns) <= turns
      && FatesGrow() && Grown()
    }

    /** Entities are released for good. */
    twostate predicate FatesGrow()
      reads this
    {
      old(fates).released <= fates.released && fates.releasing == old(fates).releasing && old(fates).releases <= fates.releases
    }

    /** What only grows while code runs, and the scripts of handlers to come, which only get fewer. */
    twostate predicate Grown()
      reads this
    {
      old(log) <= log && old(pushed) <= pushed && old(trace) <= trace && |future| <= |old(future)|
    }

    /** No window that is being drawn becomes dirty. */
    twostate predicate DrawnStayClean()
      reads this
    {
      drawing == old(drawing) && dirty * drawing <= old(dirty)
    }

    /** What a whole flush leaves, and what it may add to. */
    twostate predicate Passed()
      reads this
    {
      && windowUpdateStack == old(windowUpdateStack) && Taken() == old(Taken())
      && pendingUpdates == old(pendingUpdates) && flushingEffects == old(flushingEffects)
      && spared == old(spared) && Flushed()
    }

    /** What the outermost update may add to. */
    twostate predicate Flushed()
      reads this
    {
      old(applied) <= applied && old(turns) <= turns && FatesGrow() && Grown()
    }

    /** What the outermost update leaves when it succeeds. */
    twostate predicate Settled()
      reads this
    {
      Idle() && dropped == {} && (forall e :: DropEntity(e) in trace <==> e in fates.released) && applied == pushed && arenaGeneration == old(arenaGeneration) + 1
    }

    /** The end of a nested update changes nothing but the counter. */
    twostate predicate NestedDone()
      reads this
    {
      && pendingUpdates == old(pendingUpdates) - 1
      && unchanged(this`flushingEffects, this`arenaGeneration, this`windowUpdateStack, this`windows, this`spared,
                   this`applied, this`turns, this`log, this`pushed, this`trace, this`future,
                   this`pendingEffects, this`dropped, this`fates)
    }

    /** The only failure is that of an observer of a new entity that misses its window. */
    twostate predicate FailsJustWhenMissing(ok: bool)
      reads this
    {
      && (NoneMissing(old(turns)) ==> (ok <==> NoneMissing(turns)))
      && (!ok ==> MissesItsWindow(applied, windows.Keys))
    }

    constructor (callbacks: seq<seq<Action>>)
      ensures Idle() && future == callbacks && pushed == [] && fates == Fates({}, {}, []) && trace == multiset{} && turns == []
      ensures Current() == State({}, 0, {}, map[], 0) && spared == {}
    {
      pendingEffects, pendingNotifications, pendingGlobalNotifications := [], {}, {};
      flushingEffects, pendingUpdates, arenaGeneration := false, 0, 0;
      invalidators, tracked, currentWindow := map[], map[], map[];
      windows, windowUpdateStack, nextWindow := map[], [], 0;
      removed, drawing, dirty, newEntityObservers, dropped, nextSubscriber := {}, {}, {}, map[], {}, 0;
      future := callbacks;
      revived, fates := {}, Fates({}, {}, []);
      pushed, applied, trace, turns := [], [], multiset{}, [];
      log, spared := [], {};
    }

    // ---------- Queueing ----------

    method PushEffect(effect: Effect)
      modifies `pendingEffects, `pendingNotifications, `pendingGlobalNotifications, `pushed
      ensures EffectsQueue() == Pushed(old(EffectsQueue()), effect)
    {
      match effect {
        case Notify(e) =>
          if e in pendingNotifications { return; }
          pendingNotifications := pendingNotifications + {e};
        case NotifyGlobalObservers(g) =>
          if g in pendingGlobalNotifications { return; }
          pendingGlobalNotifications := pendingGlobalNotifications + {g};
        case _ =>
      }
      pendingEffects := pendingEffects + [effect];
      pushed := pushed + [effect];
    }

    method InvalidateView(w: Window, e: Entity)
      modifies `pendingEffects, `pendingNotifications, `pendingGlobalNotifications, `pushed, `dirty
      ensures EffectsQueue() == if w in drawing then old(EffectsQueue()) else Pushed(old(EffectsQueue()), Notify(e))
      ensures dirty == if w in drawing then old(dirty) else old(dirty) + {w}
    {
      if w !in drawing {
        dirty := dirty + {w};
        PushEffect(Notify(e));
      }
    }

    /** Observers are told unless every window showing the entity is being drawn. */
    method NotifyChanged(e: Entity)
      modifies `pendingEffects, `pendingNotifications, `pendingGlobalNotifications, `pushed, `dirty, `invalidators
      ensures var live := LiveInvalidators(old(EntityIndex()), e);
              && dirty == old(dirty) + (live - drawing)
              && EffectsQueue() == if live != {} && live <= drawing then old(EffectsQueue())
                                   else Pushed(old(EffectsQueue()), Notify(e))
      ensures invalidators == old(invalidators)[e := At(old(invalidators), e)]
    {
      ghost var q0 := EffectsQueue();
      var windowInvalidators := if e in invalidators then invalidators[e] else {};
      invalidators := invalidators[e := {}];
      var live := set w | w in windowInvalidators && w in tracked && e in tracked[w];
      if live == {} {
        PushEffect(Notify(e));
      } else {
        var todo := live;
        while todo != {}
          invariant todo <= live && invalidators == old(invalidators)[e := {}]
          invariant dirty == old(dirty) + ((live - todo) - drawing)
          invariant EffectsQueue() == if live - todo <= drawing then q0 else Pushed(q0, Notify(e))
        {
          var w :| w in todo;
          InvalidateView(w, e);
          todo := todo - {w};
        }
      }
      invalidators := invalidators[e := windowInvalidators];
      assert live - {} == live;
    }

    // ---------- The index ----------

    method Detach(entities: set<Entity>, w: Window)
      modifies `invalidators
      ensures invalidators == Detached(old(invalidators), entities, w)
    {
      var todo, done := entities, {};
      NoEntities(invalidators, map[], w);
      while todo != {}
        invariant todo !! done && entities == todo + done
        invariant invalidators == Detached(old(invalidators), done, w)
      {
        var e :| e in todo;
        DetachOne(old(invalidators), done, e, w);
        if e in invalidators {
          invalidators := invalidators[e := invalidators[e] - {w}];
        }
        todo, done := todo - {e}, done + {e};
      }
    }

    method Attach(entities: set<Entity>, w: Window)
      modifies `invalidators, `currentWindow
      ensures invalidators == Attached(old(invalidators), entities, w)
      ensures currentWindow == Redirected(old(currentWindow), entities, w)
    {
      var todo, done := entities, {};
      NoEntities(invalidators, currentWindow, w);
      while todo != {}
        invariant todo !! done && entities == todo + done
        invariant invalidators == Attached(old(invalidators), done, w)
        invariant currentWindow == Redirected(old(currentWindow), done, w)
      {
        var e :| e in todo;
        AttachOne(old(invalidators), done, e, w);
        RedirectOne(old(currentWindow), done, e, w);
        invalidators := invalidators[e := (if e in invalidators then invalidators[e] else {}) + {w}];
        currentWindow := currentWindow[e := w];
        todo, done := todo - {e}, done + {e};
      }
    }

    method Abandon(entities: set<Entity>, w: Window)
      modifies `currentWindow
      ensures currentWindow == Abandoned(old(currentWindow), entities, w)
    {
      var todo, done := entities, {};
      NoEntities(map[], currentWindow, w);
      while todo != {}
        invariant todo !! done && entities == todo + done
        invariant currentWindow == Abandoned(old(currentWindow), done, w)
      {
        var e :| e in todo;
        AbandonOne(old(currentWindow), done, e, w);
        if e in currentWindow && currentWindow[e] == w {
          currentWindow := currentWindow - {e};
        }
        todo, done := todo - {e}, done + {e};
      }
    }

    method RecordEntitiesAccessed(w: Window, entities: set<Entity>)
      modifies `invalidators, `tracked, `currentWindow
      ensures EntityIndex() == Recorded(old(EntityIndex()), w, entities)
    {
      Detach(if w in tracked then tracked[w] else {}, w);
      Attach(entities, w);
      tracked := tracked[w := entities];
    }

    method ForgetWindow(w: Window)
      modifies `invalidators, `tracked, `currentWindow
      ensures EntityIndex() == Closed(old(EntityIndex()), w)
    {
      if w in tracked {
        var entities := tracked[w];
        tracked := tracked - {w};
        Detach(entities, w);
        Abandon(entities, w);
      } else {
        NoEntities(invalidators, currentWindow, w);
        assert tracked == tracked - {w};
      }
    }

    // ---------- Application code ----------

    /** Runs the next handlers, whatever they do. */
    method Callback()
      requires Valid() && pendingUpdates > 0
      modifies this
      ensures Valid() && Within()
      ensures old(future) == [] ==> unchanged(this)
      ensures old(future) != [] ==> |future| < old(|future|) && old(trace) + Sure(old(future)[0]) <= trace
      decreases if flushingEffects then 0 else 1, |future|, 0, 2
    {
      if future != [] {
        var script := future[0];
        future := future[1..];
        RunScript(script);
      }
    }

    /** Runs all of a script; what it creates belongs to the window on top, and what it removes is marked. */
    method RunScript(script: seq<Action>)
      requires Valid() && pendingUpdates > 0
      requires Code(script) !! spared
      modifies this
      ensures Valid() && Within()
      ensures script == [] ==> unchanged(this)
      ensures old(trace) + Sure(script) <= trace
      ensures AllQueued(script, pendingEffects, Top(windowUpdateStack)) && AllMarked(script, removed, Taken())
      ensures IsSimple(script) ==> DrawnStayClean()
      decreases if flushingEffects then 0 else 1, |future|, ScriptSize(script), 4, 0
    {
      if script != [] {
        CodeSplits(script, spared);
        RunAction(script[0]);
        ghost var q, was := EffectsQueue(), log;
        RunScript(script[1..]);
        EffectsGrow(q, EffectsQueue());
        MarksStay(was, log);
        AllOf(script, pendingEffects, Top(windowUpdateStack), removed, Taken());
      }
    }

    method RunAction(action: Action)
      requires Valid() && pendingUpdates > 0
      requires CodeOf(action) !! spared
      modifies this
      ensures Valid() && Within()
      ensures old(trace) + SureOf(action) <= trace
      ensures RunsBody(action, old(windows)) ==> old(trace) + multiset{action} + Sure(action.body) <= trace
      ensures action.CreateEntity? ==> EntityCreated(action.entity, action.tid, Top(windowUpdateStack)) in pendingEffects
      ensures action.RemoveWindow? && action.window in Taken() ==> action.window in removed
      ensures action.ObserveNew? ==> old(nextSubscriber) in Observers(action.tid)
      ensures Opened(action, old(nextWindow), windows, pendingEffects)
      ensures SelfClosed(action, old(windows), windows)
      ensures !RunsCode(action) ==> DrawnStayClean()
      decreases if flushingEffects then 0 else 1, |future|, ActionSize(action), 3
    {
      Note(action);
      Perform(action);
    }

    /** Every action is noted; an entity whose last handle is dropped waits to be released. */
    method Note(action: Action)
      requires Valid()
      modifies `dropped, `trace
      ensures Valid() && Within() && trace == old(trace) + multiset{action}
      ensures dropped == if action.DropEntity? then old(dropped) + {action.entity} else old(dropped)
    {
      trace := trace + multiset{action};
      if action.DropEntity? {
        dropped := dropped + {action.entity};
      }
    }

    method Perform(action: Action)
      requires Valid() && pendingUpdates > 0
      requires CodeOf(action) !! spared
      modifies this
      ensures Valid() && Within()
      ensures old(trace) + SureInside(action) <= trace
      ensures RunsBody(action, old(windows)) ==> old(trace) + Sure(action.body) <= trace
      ensures action.CreateEntity? ==> EntityCreated(action.entity, action.tid, Top(windowUpdateStack)) in pendingEffects
      ensures action.RemoveWindow? && action.window in Taken() ==> action.window in removed
      ensures action.ObserveNew? ==> old(nextSubscriber) in Observers(action.tid)
      ensures Opened(action, old(nextWindow), windows, pendingEffects)
      ensures SelfClosed(action, old(windows), windows)
      ensures !RunsCode(action) ==> DrawnStayClean()
      decreases if flushingEffects then 0 else 1, |future|, ActionSize(action), 2
    {
      if RunsCode(action) {
        RunNested(action);
      } else {
        RunSimple(action);
      }
    }

    method RunSimple(action: Action)
      requires Valid() && !RunsCode(action) && action !in spared
      modifies `pendingEffects, `pendingNotifications, `pendingGlobalNotifications, `pushed, `dirty, `invalidators,
               `newEntityObservers, `nextSubscriber, `removed, `log
      ensures Valid() && Within()
      ensures Asked(action, pendingEffects, arenaGeneration)
      ensures action.NotifyEntity? && !(LiveInvalidators(old(EntityIndex()), action.entity) <= drawing) ==>
                Notify(action.entity) in pendingEffects
      ensures Current() == if Changes(action, Taken(), old(nextSubscriber)) then After(old(Current()), Did(action))
                           else old(Current())
      ensures DrawnStayClean()
    {
      if Asks(action) {
        Ask(action);
      } else if !action.DropEntity? {
        Change(action);
      }
    }

    /**
     A window is marked only while code runs in it. A new subscription goes to the end of its list;
     a cancelled one is gone at once.
     */
    method Change(action: Action)
      requires HistoryOk() && action !in spared && (action.RemoveWindow? || action.ObserveNew? || action.StopObserving?)
      modifies `newEntityObservers, `nextSubscriber, `removed, `log
      ensures HistoryOk() && old(log) <= log
      ensures Current() == if Changes(action, Taken(), old(nextSubscriber)) then After(old(Current()), Did(action))
                           else old(Current())
    {
      if Changes(action, Taken(), nextSubscriber) {
        Logged(log, Did(action));
        log := log + [Did(action)];
      }
      match action {
        case RemoveWindow(w) =>
          if w in windows && !windows[w] {
            removed := removed + {w};
          }
        case ObserveNew(tid) =>
          newEntityObservers := newEntityObservers[tid :=
            (if tid in newEntityObservers then newEntityObservers[tid] else []) + [nextSubscriber]];
          nextSubscriber := nextSubscriber + 1;
        case StopObserving(id) =>
          if id < nextSubscriber {
            newEntityObservers := map tid | tid in newEntityObservers :: Cancelled(newEntityObservers[tid], id);
          }
      }
    }

    /** Code asks for an effect. */
    method Ask(action: Action)
      requires Valid() && Asks(action)
      modifies `pendingEffects, `pendingNotifications, `pendingGlobalNotifications, `pushed, `dirty, `invalidators
      ensures Valid() && Within()
      ensures Asked(action, pendingEffects, arenaGeneration)
      ensures action.NotifyEntity? && !(LiveInvalidators(old(EntityIndex()), action.entity) <= drawing) ==>
                Notify(action.entity) in pendingEffects
      ensures DrawnStayClean()
    {
      match action {
        case NotifyEntity(e) => Notified(e);
        case SetGlobal(g) => Queued(NotifyGlobalObservers(g));
        case EmitEvent(e, t) => Queued(Emit(e, t, arenaGeneration));
        case DeferCallback => Queued(Defer);
        case Refresh => Queued(RefreshWindows);
      }
    }

    /** Runs the code of an action, unless the window that it needs is not at hand. */
    method RunNested(action: Action)
      requires Valid() && pendingUpdates > 0 && RunsCode(action)
      requires CodeOf(action) !! spared
      modifies this
      ensures Valid() && Within()
      ensures old(trace) + SureInside(action) <= trace
      ensures RunsBody(action, old(windows)) ==> old(trace) + Sure(action.body) <= trace
      ensures action.CreateEntity? ==> EntityCreated(action.entity, action.tid, Top(windowUpdateStack)) in pendingEffects
      ensures Opened(action, old(nextWindow), windows, pendingEffects)
      ensures SelfClosed(action, old(windows), windows)
      decreases if flushingEffects then 0 else 1, |future|, ActionSize(action), 1
    {
      match action {
        case CreateEntity(e, tid, build) => New(e, tid, build);
        case InUpdate(body) => var _ := Update(body);
        case InWindow(w, body) => var _, _ := UpdateWindowId(w, body);
        case DrawWindow(w, body, accessed) =>
          if w in windows && !windows[w] {
            Draw(w, body, accessed);
          }
        case OpenWindow(succeeds, build, body, accessed) => Open(succeeds, build, body, accessed);
      }
    }

    method Queued(effect: Effect)
      requires Valid() && (effect.Emit? ==> effect.generation == arenaGeneration)
      modifies `pendingEffects, `pendingNotifications, `pendingGlobalNotifications, `pushed
      ensures Valid() && Within() && effect in pendingEffects
    {
      PushKeepsQueue(EffectsQueue(), effect);
      PushEffect(effect);
    }

    method Notified(e: Entity)
      requires Valid()
      modifies `pendingEffects, `pendingNotifications, `pendingGlobalNotifications, `pushed, `dirty, `invalidators
      ensures Valid() && Within()
      ensures var live := LiveInvalidators(old(EntityIndex()), e);
              && (live == {} || !(live <= drawing) ==> Notify(e) in pendingEffects)
              && (e !in fates.released ==> live == Showing(old(EntityIndex()), e))
      ensures DrawnStayClean()
    {
      PushKeepsQueue(EffectsQueue(), Notify(e));
      TellWindows(e);
    }

    /** The invalidators are the windows that show the entity, and stay what they are. */
    method TellWindows(e: Entity)
      requires WindowsOk()
      modifies `pendingEffects, `pendingNotifications, `pendingGlobalNotifications, `pushed, `dirty, `invalidators
      ensures WindowsOk()
      ensures var live := LiveInvalidators(old(EntityIndex()), e);
              && EffectsQueue() == (if live != {} && live <= drawing then old(EffectsQueue()) else Pushed(old(EffectsQueue()), Notify(e)))
              && (e !in fates.released ==> live == Showing(old(EntityIndex()), e))
      ensures DrawnStayClean()
    {
      PuttingBackKeepsIndex(EntityIndex(), e, fates.released);
      ForgottenUntilRecorded(EntityIndex(), fates.released - revived, e, 0, {});
      FilterKeepsShowing(EntityIndex(), e, fates.released);
      NotifyChanged(e);
    }

    // ---------- Updates ----------

    /** Whatever was said about code to come is forgotten when an outermost update brings its own. */
    method StartUpdate()
      requires Valid()
      modifies `pendingUpdates, `spared
      ensures Valid() && pendingUpdates == old(pendingUpdates) + 1
      ensures spared == if old(pendingUpdates) == 0 then {} else old(spared)
    {
      if pendingUpdates == 0 {
        spared := {};
      }
      pendingUpdates := pendingUpdates + 1;
    }

    /** Only the outermost update flushes, and it leaves nothing queued. */
    method FinishUpdate() returns (ok: bool)
      requires Valid() && pendingUpdates > 0
      requires flushingEffects ==> pendingUpdates > 1
      requires pendingUpdates == 1 ==> AllInPlace() && fates.releasing == {}
      modifies this
      ensures Valid()
      ensures old(pendingUpdates) > 1 ==> ok && NestedDone()
      ensures old(pendingUpdates) == 1 ==> spared == old(spared) && Flushed()
      ensures old(pendingUpdates) == 1 && ok ==> Settled() && DoomSettled(old(pendingEffects), old(Current()), [], Current())
      ensures FailsJustWhenMissing(ok)
      decreases if flushingEffects then 0 else 1, |future|, 0, 1
    {
      ok := true;
      if !flushingEffects && pendingUpdates == 1 {
        flushingEffects := true;
        ok := FlushEffects();
        if !ok { return; }
        flushingEffects := false;
      }
      pendingUpdates := pendingUpdates - 1;
    }

    /** An update runs all its code, and the outermost one all that follows from it; it fails just when an observer misses its window. */
    method Update(body: seq<Action>) returns (ok: bool)
      requires Valid() && (pendingUpdates == 0 ==> Idle())
      requires pendingUpdates > 0 ==> Code(body) !! spared
      modifies this
      ensures Valid() && old(trace) + Sure(body) <= trace
      ensures old(pendingUpdates) > 0 ==> ok && Within()
      ensures old(pendingUpdates) == 0 ==> Flushed()
      ensures old(pendingUpdates) == 0 && ok ==> Settled()
      ensures FailsJustWhenMissing(ok)
      decreases if flushingEffects then 0 else 1, |future|, ScriptSize(body), 5
    {
      StartUpdate();
      RunScript(body);
      ok := FinishUpdate();
    }

    /**
     Code runs in a window only while the window is in its slot, and the slot is empty meanwhile. An update
     in which code removes its window and leaves an entity there succeeds only if all who observe it are cancelled.
     */
    method UpdateWindowId(w: Window, body: seq<Action>) returns (found: bool, ok: bool)
      requires Valid() && (pendingUpdates == 0 ==> Idle())
      requires pendingUpdates > 0 ==> Code(body) !! spared
      modifies this
      ensures Valid() && (found <==> w in old(windows) && old(windows)[w])
      ensures old(pendingUpdates) > 0 && !found ==> unchanged(this`windows)
      ensures old(pendingUpdates) > 0 ==> ok && Within()
      ensures old(pendingUpdates) > 0 && body == [] ==> |future| < old(|future|) || unchanged(this`pendingEffects, this`dropped)
      ensures old(pendingUpdates) == 0 ==> Flushed()
      ensures old(pendingUpdates) == 0 && ok ==> Settled()
      ensures found ==> old(trace) + Sure(body) <= trace
      ensures old(pendingUpdates) > 0 ==> SelfClosed(InWindow(w, body), old(windows), windows)
      ensures FailsJustWhenMissing(ok)
      ensures old(pendingUpdates) == 0 && found && RemoveWindow(w) in body && ok ==>
                ObserversGone(body, old(newEntityObservers), newEntityObservers)
      decreases if flushingEffects then 0 else 1, |future|, ScriptSize(body), 5
    {
      StartUpdate();
      found := EnterWindow(w, body);
      ok := FinishWindow(w, body, old(log));
    }

    /** An update that leaves new entities in a window that closed meanwhile. */
    method FinishWindow(ghost w: Window, ghost body: seq<Action>, ghost start: seq<Change>) returns (ok: bool)
      requires Valid() && pendingUpdates > 0
      requires flushingEffects ==> pendingUpdates > 1
      requires pendingUpdates == 1 ==> AllInPlace() && fates.releasing == {}
      requires Legal(start) && start <= log
      modifies this
      ensures Valid()
      ensures old(pendingUpdates) > 1 ==> ok && NestedDone()
      ensures old(pendingUpdates) == 1 ==> Flushed()
      ensures old(pendingUpdates) == 1 && ok ==> Settled()
      ensures FailsJustWhenMissing(ok)
      ensures old(pendingUpdates) == 1 && w in Replay(start).open && w !in old(windows)
              && AllQueued(body, old(pendingEffects), Some(w)) && ok ==>
                ObserversGone(body, Replay(start).observers, newEntityObservers)
      decreases if flushingEffects then 0 else 1, |future|, 0, 2
    {
      ghost var mid, effects := log, pendingEffects;
      ok := FinishUpdate();
      if old(pendingUpdates) == 1 && w in Replay(start).open && w !in old(windows) && AllQueued(body, effects, Some(w)) && ok {
        BodyDooms(body, effects, w, start, mid, log);
      }
    }

    method EnterWindow(w: Window, body: seq<Action>) returns (found: bool)
      requires Valid() && pendingUpdates > 0
      requires Code(body) !! spared
      modifies this
      ensures Valid() && Within() && (found <==> w in old(windows) && old(windows)[w])
      ensures !found ==> unchanged(this`windows)
      ensures body == [] ==> |future| < old(|future|) || unchanged(this`pendingEffects, this`dropped)
      ensures found ==> old(trace) + Sure(body) <= trace
      ensures SelfClosed(InWindow(w, body), old(windows), windows)
      ensures found ==> AllQueued(body, pendingEffects, Some(w))
      decreases if flushingEffects then 0 else 1, |future|, ScriptSize(body), 5, 1
    {
      found := w in windows && windows[w];
      if found {
        RunInWindow(w, body);
      }
    }

    method RunInWindow(w: Window, body: seq<Action>)
      requires Valid() && pendingUpdates > 0 && w in windows && windows[w]
      requires Code(body) !! spared
      modifies this
      ensures Valid() && Within()
      ensures body == [] ==> |future| < old(|future|) || unchanged(this`pendingEffects, this`dropped)
      ensures old(trace) + Sure(body) <= trace
      ensures AllQueued(body, pendingEffects, Some(w)) && (RemoveWindow(w) in body ==> w !in windows)
      decreases if flushingEffects then 0 else 1, |future|, ScriptSize(body), 5, 0
    {
      RunTakenOut(w, body);
      ghost var q := EffectsQueue();
      Trail(w);
      EffectsGrow(q, EffectsQueue());
    }

    method RunTakenOut(w: Window, body: seq<Action>)
      requires Valid() && pendingUpdates > 0 && w in windows && windows[w]
      requires Code(body) !! spared
      modifies this
      ensures Valid() && WithinAs(old(windowUpdateStack) + [w], Taken()) && w in Taken() && Taken() - {w} == old(Taken())
      ensures body == [] ==> unchanged(this`future, this`pendingEffects, this`dropped)
      ensures old(trace) + Sure(body) <= trace
      ensures AllQueued(body, pendingEffects, Some(w)) && (RemoveWindow(w) in body ==> w in removed)
      decreases if flushingEffects then 0 else 1, |future|, ScriptSize(body), 4, 1
    {
      TakeOut(w);
      RunScript(body);
    }

    /** The slot of the window is empty, and the window is on top of the update stack. */
    method TakeOut(w: Window)
      requires Valid() && w in windows && windows[w]
      modifies `windows, `windowUpdateStack
      ensures Valid() && windows.Keys == old(windows).Keys && windowUpdateStack == old(windowUpdateStack) + [w]
      ensures w in Taken() && Taken() - {w} == old(Taken())
    {
      TakingOut(windows, w);
      PuttingBack(windows, w);
      windows := windows[w := false];
      windowUpdateStack := windowUpdateStack + [w];
    }

    /** No invalidator mentions a window that has closed. */
    method CloseWindow(w: Window)
      requires Valid() && w in Taken() && w in removed
      modifies `windows, `invalidators, `tracked, `currentWindow, `log
      ensures Valid() && windows == old(windows) - {w} && tracked == old(tracked) - {w} && old(log) <= log
      ensures forall e :: At(invalidators, e) == At(old(invalidators), e) - {w}
    {
      Unshow(w);
      Unlist(w);
    }

    /** The window shows nothing any more. */
    method Unshow(w: Window)
      requires WindowsOk()
      modifies `invalidators, `tracked, `currentWindow
      ensures WindowsOk() && EntityIndex() == Closed(old(EntityIndex()), w)
      ensures tracked == old(tracked) - {w} && forall e :: At(invalidators, e) == At(old(invalidators), e) - {w}
    {
      CloseKeepsIndex(EntityIndex(), w, fates.released);
      ForgottenUntilRecorded(EntityIndex(), fates.released - revived, 0, w, {});
      ForgetWindow(w);
    }

    /** A window is given up only when it is marked. */
    method Unlist(w: Window)
      requires HistoryOk() && w in windows && w in removed
      modifies `windows, `log
      ensures HistoryOk() && windows == old(windows) - {w} && log == old(log) + [Gone(w)]
    {
      Logged(log, Gone(w));
      PuttingBack(windows, w);
      log := log + [Gone(w)];
      windows := windows - {w};
    }

    /** The window goes back to its slot, or closes and is forgotten everywhere. */
    method Trail(w: Window)
      requires Valid() && pendingUpdates > 0
      requires w in Taken() && windowUpdateStack != [] && windowUpdateStack[|windowUpdateStack| - 1] == w
      modifies this
      ensures Valid()
      ensures WithinAs(old(windowUpdateStack[..|windowUpdateStack| - 1]), old(Taken()) - {w})
      ensures w in old(removed) ==> w !in windows && forall e :: w !in At(invalidators, e)
      ensures w in old(removed) && old(future) != [] ==> old(trace) + Sure(old(future)[0]) <= trace
      ensures |future| < old(|future|) || unchanged(this`pendingEffects, this`dropped)
      decreases if flushingEffects then 0 else 1, |future|, 0, 4
    {
      var closed := PutBack(w);
      if closed {
        TellClosed(w, old(log));
      }
    }

    /** The window has closed for good when the observers of its closing run. */
    method TellClosed(w: Window, ghost start: seq<Change>)
      requires Valid() && pendingUpdates > 0
      requires Legal(start) && start <= log && w in Replay(start).open && w !in windows
      modifies this
      ensures Valid() && Within()
      ensures w !in windows && forall e :: w !in At(invalidators, e)
      ensures old(future) != [] ==> old(trace) + Sure(old(future)[0]) <= trace
      ensures |future| < old(|future|) || unchanged(this`pendingEffects, this`dropped)
      decreases if flushingEffects then 0 else 1, |future|, 0, 3
    {
      ghost var was := log;
      Callback();
      ClosedForGood(start, was, log, w);
      OnlyOpenWindowsAreInvalidated(EntityIndex(), fates.released, windows.Keys, w);
    }

    method PutBack(w: Window) returns (closed: bool)
      requires Valid() && w in Taken() && windowUpdateStack != []
      modifies `windows, `windowUpdateStack, `invalidators, `tracked, `currentWindow, `log
      ensures Valid() && closed == (w in removed) && old(log) <= log
      ensures windows == if closed then old(windows) - {w} else old(windows)[w := true]
      ensures windowUpdateStack == old(windowUpdateStack)[..|old(windowUpdateStack)| - 1] && Taken() == old(Taken()) - {w}
    {
      windowUpdateStack := windowUpdateStack[..|windowUpdateStack| - 1];
      PuttingBack(windows, w);
      closed := w in removed;
      if closed {
        CloseWindow(w);
      } else {
        windows := windows[w := true];
      }
    }

    /** The new entity belongs to the window being updated, if there is one. */
    method New(e: Entity, tid: TypeId, build: seq<Action>)
      requires Valid() && pendingUpdates > 0
      requires Code(build) !! spared
      modifies this
      ensures Valid() && Within()
      ensures EntityCreated(e, tid, Top(windowUpdateStack)) in pendingEffects
      ensures old(trace) + Sure(build) <= trace
      decreases if flushingEffects then 0 else 1, |future|, ScriptSize(build), 5
    {
      StartUpdate();
      RunScript(build);
      Queued(EntityCreated(e, tid, Top(windowUpdateStack)));
      var _ := FinishUpdate();
    }

    /** A frame ends by recording what it used; its window is not being drawn any more. */
    method EndFrame(w: Window, accessed: set<Entity>)
      requires Valid() && w in Taken()
      modifies `invalidators, `tracked, `currentWindow, `drawing, `revived
      ensures Valid() && Within() && tracked == old(tracked)[w := accessed] && drawing == old(drawing) - {w}
      ensures forall e :: e in accessed ==> e in currentWindow && currentWindow[e] == w
    {
      RecordFrame(w, accessed);
      drawing := drawing - {w};
    }

    method RecordFrame(w: Window, accessed: set<Entity>)
      requires WindowsOk() && w in windows
      modifies `invalidators, `tracked, `currentWindow, `revived
      ensures WindowsOk() && tracked == old(tracked)[w := accessed] && revived == old(revived) + accessed
      ensures forall e :: e in accessed ==> e in currentWindow && currentWindow[e] == w
    {
      RecordKeepsIndex(EntityIndex(), w, accessed, fates.released);
      ForgottenUntilRecorded(EntityIndex(), fates.released - revived, 0, w, accessed);
      RecordEntitiesAccessed(w, accessed);
      revived := revived + accessed;
      assert fates.released - revived == fates.released - old(revived) - accessed;
    }

    /** A frame runs with its window marked as drawing. */
    method Draw(w: Window, body: seq<Action>, accessed: set<Entity>)
      requires Valid() && pendingUpdates > 0 && w in Taken()
      requires Code(body) !! spared
      modifies this
      ensures Valid() && Within()
      ensures w in tracked && tracked[w] == accessed && w !in drawing
      ensures forall e :: e in accessed ==> e in currentWindow && currentWindow[e] == w
      ensures old(trace) + Sure(body) <= trace
      ensures IsSimple(body) ==> w !in dirty
      decreases if flushingEffects then 0 else 1, |future|, ScriptSize(body), 5
    {
      StartFrame(w);
      RunScript(body);
      EndFrame(w, accessed);
    }

    method StartFrame(w: Window)
      modifies `dirty, `drawing
      ensures dirty == old(dirty) - {w} && drawing == old(drawing) + {w}
    {
      dirty, drawing := dirty - {w}, drawing + {w};
    }

    method Open(succeeds: bool, build: seq<Action>, body: seq<Action>, accessed: set<Entity>)
      requires Valid() && pendingUpdates > 0
      requires Code(build) !! spared && Code(body) !! spared
      modifies this
      ensures Valid() && Within()
      ensures Opened(OpenWindow(succeeds, build, body, accessed), old(nextWindow), windows, pendingEffects)
      ensures succeeds ==> old(trace) + Sure(build) + Sure(body) <= trace
      decreases if flushingEffects then 0 else 1, |future|, 1 + ScriptSize(build) + ScriptSize(body), 6
    {
      StartUpdate();
      FillSlot(succeeds, build, body, accessed);
      var _ := FinishUpdate();
    }

    method FillSlot(succeeds: bool, build: seq<Action>, body: seq<Action>, accessed: set<Entity>)
      requires Valid() && pendingUpdates > 0
      requires Code(build) !! spared && Code(body) !! spared
      modifies this
      ensures Valid() && Within()
      ensures Opened(OpenWindow(succeeds, build, body, accessed), old(nextWindow), windows, pendingEffects)
      ensures succeeds ==> old(trace) + Sure(build) + Sure(body) <= trace
      decreases if flushingEffects then 0 else 1, |future|, 1 + ScriptSize(build) + ScriptSize(body), 5
    {
      var id := ReserveWindow(succeeds);
      if succeeds {
        FirstFrame(id, build, body, accessed);
      }
    }

    /** Ids are not used again, even if the window cannot be opened. */
    method ReserveWindow(succeeds: bool) returns (id: Window)
      requires Valid()
      modifies `windows, `nextWindow, `log
      ensures Valid() && id == old(nextWindow) && nextWindow == id + 1 && old(log) <= log
      ensures id !in old(windows) && windows == if succeeds then old(windows)[id := false] else old(windows)
      ensures Taken() - {id} == old(Taken()) && Taken() == if succeeds then old(Taken()) + {id} else old(Taken())
    {
      TakingOut(windows, nextWindow);
      id := TakeId(succeeds);
    }

    method TakeId(succeeds: bool) returns (id: Window)
      requires HistoryOk()
      modifies `windows, `nextWindow, `log
      ensures HistoryOk() && id == old(nextWindow) && nextWindow == id + 1 && log == old(log) + [Reserved(succeeds)]
      ensures id !in old(windows) && windows == if succeeds then old(windows)[id := false] else old(windows)
    {
      IdsAreBelow(log);
      Logged(log, Reserved(succeeds));
      log := log + [Reserved(succeeds)];
      id := nextWindow;
      nextWindow := nextWindow + 1;
      windows := windows[id := false];
      if !succeeds {
        windows := windows - {id};
        assert windows == old(windows);
      }
    }

    /** A window is built, and drawn once, before it goes to its slot. */
    method FirstFrame(id: Window, build: seq<Action>, body: seq<Action>, accessed: set<Entity>)
      requires Valid() && pendingUpdates > 0 && id in Taken()
      requires Code(build) !! spared && Code(body) !! spared
      modifies this
      ensures Valid() && WithinAs(old(windowUpdateStack), old(Taken()) - {id})
      ensures id in tracked && tracked[id] == accessed && id in windows && windows[id]
      ensures AllQueued(build, pendingEffects, Some(id)) && Defer in pendingEffects
      ensures old(trace) + Sure(build) + Sure(body) <= trace
      decreases if flushingEffects then 0 else 1, |future|, 1 + ScriptSize(build) + ScriptSize(body), 4
    {
      Prepare(id, build);
      ghost var q := EffectsQueue();
      Draw(id, body, accessed);
      EffectsGrow(q, EffectsQueue());
      FillIn(id);
    }

    /** The root view is there, and is to be told how it looks. */
    method Prepare(id: Window, build: seq<Action>)
      requires Valid() && pendingUpdates > 0 && id in Taken()
      requires Code(build) !! spared
      modifies this
      ensures Valid() && Within()
      ensures old(trace) + Sure(build) <= trace && AllQueued(build, pendingEffects, Some(id)) && Defer in pendingEffects
      decreases if flushingEffects then 0 else 1, |future|, ScriptSize(build), 6
    {
      BuildRoot(id, build);
      ghost var q := EffectsQueue();
      Queued(Defer);
      EffectsGrow(q, EffectsQueue());
    }

    /** The window goes to its slot. */
    method FillIn(id: Window)
      requires Valid() && id in Taken()
      modifies `windows
      ensures Valid() && windows == old(windows)[id := true] && Taken() == old(Taken()) - {id}
    {
      PuttingBack(windows, id);
      windows := windows[id := true];
    }

    /** The root view is built with its window on the update stack. */
    method BuildRoot(id: Window, build: seq<Action>)
      requires Valid() && pendingUpdates > 0 && id in Taken()
      requires Code(build) !! spared
      modifies this
      ensures Valid() && Within()
      ensures old(trace) + Sure(build) <= trace && AllQueued(build, pendingEffects, Some(id))
      decreases if flushingEffects then 0 else 1, |future|, ScriptSize(build), 5
    {
      windowUpdateStack := windowUpdateStack + [id];
      RunScript(build);
      assert old(windowUpdateStack) + [id] == windowUpdateStack;
      windowUpdateStack := windowUpdateStack[..|windowUpdateStack| - 1];
    }

    // ---------- The flush ----------

    /** Applies every effect, those that effects cause included, in the order in which they were queued. */
    method FlushEffects() returns (ok: bool)
      requires Valid() && AllInPlace() && flushingEffects && pendingUpdates == 1 && fates.releasing == {}
      modifies this
      ensures Valid() && Passed()
      ensures ok ==> pendingEffects == [] && dropped == {}
      ensures arenaGeneration == old(arenaGeneration) + if ok then 1 else 0
      ensures NoneMissing(old(turns)) ==> (ok <==> NoneMissing(turns))
      ensures ok ==> DoomSettled(old(pendingEffects), old(Current()), [], Current())
      ensures !ok ==> MissesItsWindow(applied, windows.Keys)
      decreases 0, |future|, 0, 12
    {
      ok := true;
      while true
        invariant ok && Valid() && Passed() && arenaGeneration == old(arenaGeneration)
        invariant NoneMissing(old(turns)) ==> NoneMissing(turns)
        invariant DoomSettled(old(pendingEffects), old(Current()), pendingEffects, Current())
        decreases |future|, |pendingEffects|
      {
        ReleaseFirst(old(pendingEffects), old(log));
        if pendingEffects != [] {
          ok := ApplyOldest(old(pendingEffects), old(log));
          if !ok { return; }
        } else {
          ClearArena();
          break;
        }
      }
    }

    /** Nothing queued is in the arena any more. */
    method ClearArena()
      requires Valid() && pendingEffects == []
      modifies `arenaGeneration
      ensures Valid() && arenaGeneration == old(arenaGeneration) + 1
    {
      ClearKeepsQueueIff(EffectsQueue());
      arenaGeneration := arenaGeneration + 1;
    }

    /** What was doomed at the start stays settled while dropped entities are released. */
    method ReleaseFirst(ghost effects: seq<Effect>, ghost start: seq<Change>)
      requires Valid() && pendingUpdates > 0 && flushingEffects && fates.releasing == {}
      requires Legal(start) && start <= log && DoomSettled(effects, Replay(start), pendingEffects, Current())
      modifies this
      ensures Valid() && WithinFlush() && dropped == {} && turns == old(turns)
      ensures |future| < old(|future|) || unchanged(this`pendingEffects)
      ensures DoomSettled(effects, Replay(start), pendingEffects, Current())
      decreases 0, |future|, 0, 10
    {
      ghost var was, queued := log, pendingEffects;
      ReleaseDroppedEntities();
      DoomSettles(effects, start, queued, was, pendingEffects, log);
    }

    /** And while the oldest effect is applied, if that does not fail. */
    method ApplyOldest(ghost effects: seq<Effect>, ghost start: seq<Change>) returns (ok: bool)
      requires Valid() && AllInPlace() && flushingEffects && pendingUpdates == 1 && pendingEffects != []
      requires Legal(start) && start <= log && DoomSettled(effects, Replay(start), pendingEffects, Current())
      modifies this
      ensures Valid() && Passed() && arenaGeneration == old(arenaGeneration)
      ensures ok ==> |future| < old(|future|) || pendingEffects == old(pendingEffects)[1..]
      ensures NoneMissing(old(turns)) ==> (ok <==> NoneMissing(turns))
      ensures ok ==> DoomSettled(effects, Replay(start), pendingEffects, Current())
      ensures !ok ==> MissesItsWindow(applied, windows.Keys)
      decreases 0, |future|, 0, 11
    {
      ghost var was, queued := log, pendingEffects;
      ok := ApplyNext();
      if ok {
        DoomOutlasts(effects, start, queued, was);
        DoomSettles(effects, start, queued[1..], was, pendingEffects, log);
      }
    }

    /** The entity is forgotten, and then its release observers run. */
    method ReleaseEntity(e: Entity)
      requires Valid() && pendingUpdates > 0 && e in fates.releasing
      modifies this
      ensures Valid() && WithinFlush() && fates.released == old(fates).released + {e} && turns == old(turns)
      ensures |future| < old(|future|) || unchanged(this`pendingEffects, this`dropped)
      ensures var script := if old(future) == [] then [] else old(future)[0];
              fates.releases == old(fates).releases + [Release(e, script)] && old(trace) + Sure(script) <= trace
      decreases if flushingEffects then 0 else 1, |future|, 0, 6
    {
      ForgetEntity(e, if future == [] then [] else future[0]);
      Callback();
    }

    method ForgetEntity(e: Entity, ghost script: seq<Action>)
      requires Valid() && e in fates.releasing
      modifies `invalidators, `currentWindow, `fates, `revived
      ensures Valid() && WithinFlush() && At(invalidators, e) == {} && e !in currentWindow && e !in revived
      ensures fates == Fates(old(fates).released + {e}, old(fates).releasing, old(fates).releases + [Release(e, script)])
    {
      Forget(e, Fates(fates.released + {e}, fates.releasing, fates.releases + [Release(e, script)]));
    }

    method Forget(e: Entity, ghost fates': Fates)
      requires WindowsOk() && fates'.released == fates.released + {e}
      modifies `invalidators, `currentWindow, `fates, `revived
      ensures WindowsOk() && fates == fates' && EntityIndex() == Forgotten(old(EntityIndex()), e) && revived == old(revived) - {e}
    {
      ForgettingKeepsIndex(EntityIndex(), e, fates.released);
      ForgottenUntilRecorded(EntityIndex(), fates.released - revived, e, 0, {});
      invalidators, currentWindow := invalidators - {e}, currentWindow - {e};
      fates, revived := fates', revived - {e};
      assert fates.released - revived <= old(fates.released - revived) + {e};
    }

    /** From some point on, the observers of all releases after the first `from` have run. */
    ghost predicate Told(base: multiset<Action>, from: nat)
      reads `fates, `trace
    {
      base + SureTold(fates.releases, from) <= trace
    }

    /** Whatever was dropped is released, and what the releases drop too; all their observers run. */
    method ReleaseDroppedEntities()
      requires Valid() && pendingUpdates > 0 && flushingEffects && fates.releasing == {}
      modifies this
      ensures Valid() && WithinFlush() && dropped == {} && turns == old(turns)
      ensures old(dropped) <= fates.released
      ensures Told(old(trace), |old(fates).releases|)
      ensures |future| < old(|future|) || unchanged(this`pendingEffects)
      ensures old(pendingEffects) <= pendingEffects
      decreases 0, |future|, 0, 9
    {
      ghost var q := EffectsQueue();
      while dropped != {}
        invariant Valid() && WithinFlush() && turns == old(turns) && old(dropped) <= fates.released + dropped
        invariant Told(old(trace), |old(fates).releases|)
        invariant |future| < old(|future|) || unchanged(this`pendingEffects)
        decreases |future|, |dropped|
      {
        ReleaseBatch(old(trace), |old(fates).releases|);
      }
      EffectsGrow(q, EffectsQueue());
    }

    /** Takes all that was dropped and releases it. */
    method ReleaseBatch(ghost base: multiset<Action>, ghost from: nat)
      requires Valid() && pendingUpdates > 0 && flushingEffects && fates.releasing == {}
      requires Told(base, from) && from <= |fates.releases| && dropped != {}
      modifies this
      ensures Valid() && WithinFlush() && fates.released == old(fates).released + old(dropped) && turns == old(turns)
      ensures Told(base, from)
      ensures |future| < old(|future|) || (unchanged(this`pendingEffects) && dropped == {})
      decreases 0, |future|, 0, 8
    {
      var entities := dropped;
      fates, dropped := Fates(fates.released, entities, fates.releases), {};
      ReleaseEntities(entities, base, from);
      fates := Fates(fates.released, {}, fates.releases);
    }

    /** The observers of a release may drop other entities. */
    method ReleaseEntities(entities: set<Entity>, ghost base: multiset<Action>, ghost from: nat)
      requires Valid() && pendingUpdates > 0 && flushingEffects && entities == fates.releasing
      requires Told(base, from) && from <= |fates.releases|
      modifies this
      ensures Valid() && WithinFlush() && fates.released == old(fates).released + entities && turns == old(turns)
      ensures Told(base, from)
      ensures |future| < old(|future|) || unchanged(this`pendingEffects, this`dropped)
      decreases 0, |future|, 0, 7, 1
    {
      var todo := entities;
      while todo != {}
        invariant Valid() && WithinFlush() && turns == old(turns) && Told(base, from)
        invariant todo <= entities && fates.released == old(fates).released + (entities - todo)
        invariant |future| < old(|future|) || unchanged(this`pendingEffects, this`dropped)
        decreases |todo|
      {
        var e :| e in todo;
        ReleaseNext(e, base, from);
        todo := todo - {e};
      }
      assert entities - {} == entities;
    }

    method ReleaseNext(e: Entity, ghost base: multiset<Action>, ghost from: nat)
      requires Valid() && pendingUpdates > 0 && flushingEffects && e in fates.releasing
      requires Told(base, from) && from <= |fates.releases|
      modifies this
      ensures Valid() && WithinFlush() && fates.released == old(fates).released + {e} && turns == old(turns)
      ensures Told(base, from)
      ensures |future| < old(|future|) || unchanged(this`pendingEffects, this`dropped)
      decreases 0, |future|, 0, 7, 0
    {
      ghost var before := fates.releases;
      ReleaseEntity(e);
      OneMoreTold(before, from, fates.releases[|before|]);
    }

    /** Takes the oldest effect off the queue and applies it. */
    method ApplyNext() returns (ok: bool)
      requires Valid() && AllInPlace() && flushingEffects && pendingUpdates == 1 && pendingEffects != []
      modifies this
      ensures Valid() && Passed() && arenaGeneration == old(arenaGeneration)
      ensures applied == old(applied) + [old(pendingEffects)[0]]
      ensures ok ==> |future| < old(|future|) || pendingEffects == old(pendingEffects)[1..]
      ensures old(future) != [] && HasOneHandler(old(pendingEffects)[0]) ==> old(trace) + Sure(old(future)[0]) <= trace
      ensures NoneMissing(old(turns)) ==> (ok <==> NoneMissing(turns))
      ensures old(pendingEffects)[1..] <= pendingEffects
      ensures ok ==> forall id :: !Doomed(old(pendingEffects)[0], id, old(Current()))
      ensures old(pendingEffects)[0].RefreshWindows? ==> windows.Keys <= dirty
      ensures !ok ==> MissesItsWindow(applied, windows.Keys)
      decreases 0, |future|, 0, 9
    {
      PopKeepsQueue(EffectsQueue());
      ghost var q := Popped(EffectsQueue());
      var effect := pendingEffects[0];
      pendingEffects := pendingEffects[1..];
      applied := applied + [effect];
      ok := Apply(effect);
      EffectsGrow(q, EffectsQueue());
    }

    method Apply(effect: Effect) returns (ok: bool)
      requires QueueOk(Unmarked(EffectsQueue(), effect)) && WindowsOk() && HistoryOk() && DropsOk()
      requires AllInPlace() && flushingEffects && pendingUpdates == 1
      requires effect.Emit? ==> effect.generation == arenaGeneration
      modifies this
      ensures Valid() && WithinFlush()
      ensures ok ==> |future| < old(|future|) || unchanged(this`pendingEffects)
      ensures old(future) != [] && HasOneHandler(effect) ==> old(trace) + Sure(old(future)[0]) <= trace
      ensures NoneMissing(old(turns)) ==> (ok <==> NoneMissing(turns))
      ensures ok ==> forall id :: !Doomed(effect, id, old(Current()))
      ensures effect.RefreshWindows? ==> windows.Keys <= dirty
      ensures !ok ==> effect.EntityCreated? && effect.window.Some? && effect.window.value !in windows
      decreases 0, |future|, 0, 8
    {
      ok := true;
      match effect {
        case Notify(e) => ApplyNotifyEffect(e);
        case Emit(e, t, g) => ApplyEmitEffect(e, t, g);
        case RefreshWindows => ApplyRefreshEffect();
        case NotifyGlobalObservers(g) => ApplyNotifyGlobalObserversEffect(g);
        case Defer => Callback();
        case EntityCreated(e, tid, w) => ok := ApplyEntityCreatedEffect(e, tid, w);
      }
    }

    /** The entity stops being pending before its observers run, so they can notify again. */
    method ApplyNotifyEffect(emitter: Entity)
      requires QueueOk(Unmarked(EffectsQueue(), Notify(emitter))) && WindowsOk() && HistoryOk() && DropsOk() && pendingUpdates > 0
      modifies this
      ensures Valid() && Within()
      ensures |future| < old(|future|) || unchanged(this`pendingEffects)
      ensures old(future) != [] ==> old(trace) + Sure(old(future)[0]) <= trace
      decreases if flushingEffects then 0 else 1, |future|, 0, 6
    {
      pendingNotifications := pendingNotifications - {emitter};
      Callback();
    }

    method ApplyNotifyGlobalObserversEffect(globalType: TypeId)
      requires QueueOk(Unmarked(EffectsQueue(), NotifyGlobalObservers(globalType))) && WindowsOk() && HistoryOk() && DropsOk() && pendingUpdates > 0
      modifies this
      ensures Valid() && Within()
      ensures |future| < old(|future|) || unchanged(this`pendingEffects)
      ensures old(future) != [] ==> old(trace) + Sure(old(future)[0]) <= trace
      decreases if flushingEffects then 0 else 1, |future|, 0, 6
    {
      pendingGlobalNotifications := pendingGlobalNotifications - {globalType};
      Callback();
    }

    /** The event is read from the arena, which has not been cleared since it was allocated. */
    method ApplyEmitEffect(emitter: Entity, eventType: TypeId, generation: nat)
      requires Valid() && pendingUpdates > 0
      requires generation == arenaGeneration
      modifies this
      ensures Valid() && Within()
      ensures |future| < old(|future|) || unchanged(this`pendingEffects)
      ensures old(future) != [] ==> old(trace) + Sure(old(future)[0]) <= trace
      decreases if flushingEffects then 0 else 1, |future|, 0, 6
    {
      Callback();
    }

    /** Every open window is in its slot while effects are applied, so every one becomes dirty. */
    method ApplyRefreshEffect()
      requires Valid() && AllInPlace()
      modifies `dirty
      ensures windows.Keys <= dirty
    {
      dirty := dirty + set w | w in windows && windows[w];
      assert forall w :: w in windows ==> windows[w] || w in Taken();
    }

    /**
     Every observer has its turn unless it is cancelled before, until one misses its window; the call fails
     exactly then. It does not fail if the window is open and nothing to come removes it.
     */
    method ApplyEntityCreatedEffect(e: Entity, tid: TypeId, window: Option<Window>) returns (ok: bool)
      requires Valid() && AllInPlace() && flushingEffects && pendingUpdates > 0
      modifies this
      ensures Valid() && WithinFlush()
      ensures ok ==> |future| < old(|future|) || unchanged(this`pendingEffects)
      ensures TurnsTaken(old(turns), turns, window, old(Observers(tid)), |old(Observers(tid))|, Observers(tid), old(windows).Keys, ok)
      ensures NoneMissing(old(turns)) ==> (ok <==> NoneMissing(turns))
      ensures ok ==> forall id :: !Doomed(EntityCreated(e, tid, window), id, old(Current()))
      ensures !ok ==> window.Some? && window.value !in windows
      ensures window.Some? && StaysOpen(window.value, old(Current()), old(future)) ==> ok
      ensures old(Observers(tid)) == [] ==>
                currentWindow == if window.Some? then old(currentWindow)[e := window.value] else old(currentWindow)
      decreases 0, |future|, 0, 7, 3
    {
      if window.Some? {
        currentWindow, revived := currentWindow[e := window.value], revived + {e};
      }
      ok := TakeTurns(tid, window);
      TurnsDecide(old(turns), turns, window, old(Observers(tid)), Observers(tid), old(windows).Keys, ok);
    }

    /** The observers have their turns, in a window that may be one that stays open. */
    method TakeTurns(tid: TypeId, window: Option<Window>) returns (ok: bool)
      requires Valid() && AllInPlace() && flushingEffects && pendingUpdates > 0
      modifies this
      ensures Valid() && WithinFlush()
      ensures ok ==> |future| < old(|future|) || unchanged(this`pendingEffects)
      ensures TurnsTaken(old(turns), turns, window, old(Observers(tid)), |old(Observers(tid))|, Observers(tid), old(windows).Keys, ok)
      ensures !ok ==> window.Some? && window.value !in windows
      ensures window.Some? && StaysOpen(window.value, old(Current()), old(future)) ==> ok
      ensures old(Observers(tid)) == [] ==> unchanged(this)
      decreases 0, |future|, 0, 7, 2
    {
      Spare(window);
      ok := AllTurns(tid, window);
      SpareOnly(old(spared));
    }

    /** A window that nothing has marked, and nothing to come marks. */
    ghost method Spare(window: Option<Window>)
      requires Valid()
      modifies `spared
      ensures Valid() && old(spared) <= spared
      ensures window.Some? && StaysOpen(window.value, Current(), future) ==> RemoveWindow(window.value) in spared
    {
      if window.Some? && StaysOpen(window.value, Current(), future) {
        IdsAreBelow(log);
        spared := spared + {RemoveWindow(window.value)};
      }
    }

    ghost method SpareOnly(actions: set<Action>)
      requires HistoryOk() && actions <= spared
      modifies `spared
      ensures HistoryOk() && spared == actions
    {
      spared := actions;
    }

    method AllTurns(tid: TypeId, window: Option<Window>) returns (ok: bool)
      requires Valid() && AllInPlace() && flushingEffects && pendingUpdates > 0
      modifies this
      ensures Valid() && WithinFlush()
      ensures ok ==> |future| < old(|future|) || unchanged(this`pendingEffects)
      ensures TurnsTaken(old(turns), turns, window, old(Observers(tid)), |old(Observers(tid))|, Observers(tid), old(windows).Keys, ok)
      ensures !ok ==> window.Some? && window.value !in windows
      ensures window.Some? && window.value in old(windows) && RemoveWindow(window.value) in spared ==> ok
      ensures old(Observers(tid)) == [] ==> unchanged(this)
      decreases 0, |future|, 0, 7, 1
    {
      ok := true;
      var subscribers := if tid in newEntityObservers then newEntityObservers[tid] else [];
      for i := 0 to |subscribers|
        invariant ok && Valid() && WithinFlush()
        invariant |future| < old(|future|) || unchanged(this`pendingEffects)
        invariant i == 0 ==> unchanged(this)
        invariant TurnsTaken(old(turns), turns, window, subscribers, i, Observers(tid), old(windows).Keys, true)
      {
        ok := TakeTurn(tid, window, subscribers, i, old(turns), old(log));
        if !ok {
          StoppedEarly(old(turns), turns, window, subscribers, i + 1, Observers(tid), old(windows).Keys);
          return;
        }
      }
    }

    /** The turn of the observer at position `i`, unless it has been cancelled since the start. */
    method TakeTurn(tid: TypeId, window: Option<Window>, subscribers: seq<nat>, i: nat, ghost first: seq<Turn>, ghost start: seq<Change>)
      returns (ok: bool)
      requires Valid() && AllInPlace() && flushingEffects && pendingUpdates > 0
      requires Legal(start) && start <= log && i < |subscribers| && subscribers == Subscribers(Replay(start).observers, tid)
      requires i == 0 ==> start == log
      requires TurnsTaken(first, turns, window, subscribers, i, Observers(tid), Replay(start).open, true)
      modifies this
      ensures Valid() && WithinFlush()
      ensures ok ==> |future| < old(|future|) || unchanged(this`pendingEffects)
      ensures TurnsTaken(first, turns, window, subscribers, i + 1, Observers(tid), Replay(start).open, ok)
      ensures !ok ==> window.Some? && window.value !in windows
      ensures window.Some? && window.value in Replay(start).open && RemoveWindow(window.value) in spared ==> ok
      decreases 0, |future|, 0, 7, 0
    {
      ok := true;
      if tid in newEntityObservers && subscribers[i] in newEntityObservers[tid] {
        if window.Some? && window.value in Replay(start).open && RemoveWindow(window.value) in spared {
          SparedStaysOpen(start, log, window.value);
        }
        ghost var turn, left, was := Turn(i, window, windows.Keys, Observers(tid)), Observers(tid), log;
        ok := ObserveCreation(i, window, tid);
        StillListed(start, was, log, tid);
        NextTurn(first, old(turns), turn, window, subscribers, i, left, Observers(tid), Replay(start).open);
      } else {
        SkippedTurn(first, turns, window, subscribers, i, Observers(tid), Replay(start).open);
      }
    }

    /** One observer of new entities has its turn, in the window of the entity if it has one. */
    method ObserveCreation(position: nat, window: Option<Window>, ghost tid: TypeId) returns (ok: bool)
      requires Valid() && AllInPlace() && flushingEffects && pendingUpdates > 0
      modifies this
      ensures Valid() && WithinFlush()
      ensures turns == old(turns) + [Turn(position, window, old(windows).Keys, old(Observers(tid)))]
      ensures ok <==> !Misses(Turn(position, window, old(windows).Keys, old(Observers(tid))))
      ensures ok && old(future) != [] ==> old(trace) + Sure(old(future)[0]) <= trace
      ensures |future| < old(|future|) || unchanged(this`pendingEffects)
      ensures !ok ==> windows == old(windows)
      decreases 0, |future|, 0, 6, 1
    {
      turns := turns + [Turn(position, window, windows.Keys, Observers(tid))];
      ok := true;
      if window.Some? {
        ok := ObserveIn(window.value);
      } else {
        Callback();
      }
    }

    /** The observer runs in the window, if that is open. */
    method ObserveIn(w: Window) returns (found: bool)
      requires Valid() && AllInPlace() && flushingEffects && pendingUpdates > 0
      modifies this
      ensures Valid() && Within() && (found <==> w in old(windows)) && (!found ==> windows == old(windows))
      ensures found && old(future) != [] ==> old(trace) + Sure(old(future)[0]) <= trace
      ensures |future| < old(|future|) || unchanged(this`pendingEffects)
      decreases 0, |future|, 0, 6, 0
    {
      assert w in windows ==> windows[w] || w in Taken();
      var script := [];
      if future != [] {
        script, future := future[0], future[1..];
      }
      var inPlace, _ := UpdateWindowId(w, script);
      found := inPlace;
    }
  }

  /** Subscribes an observer, and opens a window with a new entity that it waits for. */
  method OpenObserved(app: App, e: Entity, tid: TypeId) returns (id: nat, w: Window)
    requires app.Valid() && app.pendingUpdates > 0
    requires forall action :: action in app.spared ==> action.StopObserving?
    modifies app
    ensures app.Valid() && app.Within()
    ensures id == old(app.nextSubscriber) && w in app.windows && app.windows[w]
    ensures EntityCreated(e, tid, Some(w)) in app.pendingEffects
    ensures id < app.nextSubscriber && (StopObserving(id) in app.spared ==> id in app.Observers(tid))
  {
    id := app.nextSubscriber;
    app.RunAction(ObserveNew(tid));
    ghost var was := app.log;
    w := app.nextWindow;
    var create := CreateEntity(e, tid, []);
    CodeOfOne(create);
    app.RunAction(OpenWindow(true, [create], [], {}));
    assert create in [create];
    ObserversLater(was, app.log);
    IdsAreBelow(was);
  }

  /** The window is closed again. */
  method OpenThenClose(app: App, e: Entity, tid: TypeId) returns (id: nat, w: Window)
    requires app.Valid() && app.pendingUpdates > 0
    requires forall action :: action in app.spared ==> action.StopObserving?
    modifies app
    ensures app.Valid() && app.Within()
    ensures id == old(app.nextSubscriber) < app.nextSubscriber
    ensures StopObserving(id) in app.spared ==> id in app.Observers(tid)
    ensures EntityCreated(e, tid, Some(w)) in app.pendingEffects && w !in app.windows && w < app.nextWindow
  {
    id, w := OpenObserved(app, e, tid);
    ghost var q, was := app.EffectsQueue(), app.log;
    CodeOfOne(RemoveWindow(w));
    app.RunAction(InWindow(w, [RemoveWindow(w)]));
    EffectsGrow(q, app.EffectsQueue());
    IdsAreBelow(was);
    WindowsLater(was, app.log);
    ObserversLater(was, app.log);
  }

  /** If nothing to come cancels the next subscription, that is noted. */
  ghost method SpareNext(app: App)
    requires app.HistoryOk() && app.spared == {}
    modifies app`spared
    ensures app.HistoryOk() && app.spared <= {StopObserving(app.nextSubscriber)}
    ensures NeverTaken(StopObserving(app.nextSubscriber), app.future) ==> StopObserving(app.nextSubscriber) in app.spared
  {
    IdsAreBelow(app.log);
    if NeverTaken(StopObserving(app.nextSubscriber), app.future) {
      app.spared := {StopObserving(app.nextSubscriber)};
    }
  }

  /**
   An update that opens a window with an observed new entity and closes it again succeeds only if the
   observer is cancelled before its turn, and so never if nothing to come cancels it.
   */
  method CloseObserved(app: App, e: Entity, tid: TypeId) returns (id: nat, ok: bool)
    requires app.Idle()
    modifies app
    ensures id == old(app.nextSubscriber)
    ensures ok ==> id !in app.Observers(tid)
    ensures NeverTaken(StopObserving(id), old(app.future)) ==> !ok
    ensures !ok ==> MissesItsWindow(app.applied, app.windows.Keys)
  {
    app.StartUpdate();
    SpareNext(app);
    var w;
    id, w := OpenThenClose(app, e, tid);
    ghost var was := app.log;
    assert id in app.Observers(tid) ==> Doomed(EntityCreated(e, tid, Some(w)), id, app.Current());
    ok := app.FinishUpdate();
    ObserversLater(was, app.log);
  }

  /** A run from the start that fails. */
  method FailingRun(e: Entity, tid: TypeId) returns (ok: bool)
    ensures !ok
  {
    var app := new App([]);
    var _, succeeded := CloseObserved(app, e, tid);
    ok := succeeded;
  }
}
