/**
 What changes for good while application code runs: which windows exist and who observes new entities,
 as a log of changes; the turns that observers had; and the effects that can only fail.
 */
module AppHistory {
  import opened Wrappers
  import opened EffectQueue
  import opened AppCode

  /** `next` and `nextSubscriber` are the ids given out next; `removed` are the windows marked for removal. */
  datatype State = State(open: set<Window>, next: Window, removed: set<Window>,
                         observers: map<TypeId, seq<nat>>, nextSubscriber: nat)

  /** A window that cannot be opened still takes an id. */
  datatype Change = Did(action: Action) | Reserved(succeeds: bool) | Gone(window: Window)

  /** The subscriptions to the creation of entities of a type, oldest first. */
  function Subscribers(observers: map<TypeId, seq<nat>>, tid: TypeId): seq<nat> {
    if tid in observers then observers[tid] else []
  }

  function Cancelled(subscribers: seq<nat>, id: nat): (r: seq<nat>)
    ensures forall x :: x in r <==> x in subscribers && x != id
  {
    if subscribers == [] then []
    else
      assert subscribers == [subscribers[0]] + subscribers[1..];
      (if subscribers[0] == id then [] else [subscribers[0]]) + Cancelled(subscribers[1..], id)
  }

  function After(s: State, change: Change): State {
    match change
    case Reserved(succeeds) => s.(open := if succeeds then s.open + {s.next} else s.open, next := s.next + 1)
    case Gone(w) => s.(open := s.open - {w})
    case Did(action) =>
      if action.RemoveWindow? then s.(removed := s.removed + {action.window})
      else if action.StopObserving? then
        s.(observers := map tid | tid in s.observers :: Cancelled(s.observers[tid], action.subscriber))
      else if action.ObserveNew? then
        s.(observers := s.observers[action.tid := Subscribers(s.observers, action.tid) + [s.nextSubscriber]],
           nextSubscriber := s.nextSubscriber + 1)
      else s
  }

  /** A new subscription is the one with the id given out next; cancelling takes out exactly one id. */
  lemma ListedAfter(s: State, change: Change, tid: TypeId, id: nat)
    ensures id in Subscribers(After(s, change).observers, tid) <==>
              || (id in Subscribers(s.observers, tid) && change != Did(StopObserving(id)))
              || (change == Did(ObserveNew(tid)) && id == s.nextSubscriber)
  {
  }

  /** A window closes only when it is marked, and only what was subscribed can be cancelled. */
  predicate CanHappen(s: State, change: Change) {
    match change
    case Reserved(_) => true
    case Gone(w) => w in s.removed
    case Did(action) => action.StopObserving? ==> action.subscriber < s.nextSubscriber
  }

  /** Whether an action changes anything: removing needs a window that code runs in, cancelling a subscription. */
  predicate Changes(action: Action, taken: set<Window>, nextSubscriber: nat) {
    || action.ObserveNew?
    || (action.StopObserving? && action.subscriber < nextSubscriber)
    || (action.RemoveWindow? && action.window in taken)
  }

  ghost function Replay(log: seq<Change>): State {
    if log == [] then State({}, 0, {}, map[], 0) else After(Replay(log[..|log| - 1]), log[|log| - 1])
  }

  ghost predicate Legal(log: seq<Change>) {
    log == [] || (Legal(log[..|log| - 1]) && CanHappen(Replay(log[..|log| - 1]), log[|log| - 1]))
  }

  lemma Logged(log: seq<Change>, change: Change)
    requires Legal(log) && CanHappen(Replay(log), change)
    ensures Legal(log + [change]) && Replay(log + [change]) == After(Replay(log), change)
  {
    assert (log + [change])[..|log|] == log;
  }

  /** Window ids are not used again, so a window that has closed stays closed; open ones close only when marked. */
  lemma {:induction false} WindowsLater(log: seq<Change>, log': seq<Change>)
    requires log <= log' && Legal(log')
    ensures Replay(log).next <= Replay(log').next
    ensures forall w :: w in Replay(log').open && w < Replay(log).next ==> w in Replay(log).open
    ensures forall w :: w in Replay(log).open ==> w in Replay(log').open || w in Replay(log').removed
    ensures forall w :: w in Replay(log).removed ==> w in Replay(log').removed
    ensures forall w :: w in Replay(log').removed ==> w in Replay(log).removed || Did(RemoveWindow(w)) in log'
  {
    if |log'| > |log| {
      WindowsLater(log, log'[..|log'| - 1]);
    } else {
      assert log == log';
    }
  }

  lemma MarksStay(log: seq<Change>, log': seq<Change>)
    requires log <= log' && Legal(log')
    ensures Replay(log).removed <= Replay(log').removed
  {
    WindowsLater(log, log');
  }

  lemma ClosedForGood(log: seq<Change>, log1: seq<Change>, log2: seq<Change>, w: Window)
    requires log <= log1 <= log2 && Legal(log) && Legal(log1) && Legal(log2)
    requires w in Replay(log).open && w !in Replay(log1).open
    ensures w !in Replay(log2).open
  {
    IdsAreBelow(log);
    WindowsLater(log, log1);
    WindowsLater(log1, log2);
  }

  lemma {:induction false} IdsAreBelow(log: seq<Change>)
    requires Legal(log)
    ensures forall w :: w in Replay(log).open ==> w < Replay(log).next
    ensures forall tid, id :: id in Subscribers(Replay(log).observers, tid) ==> id < Replay(log).nextSubscriber
    ensures forall id: nat :: Did(StopObserving(id)) in log ==> id < Replay(log).nextSubscriber
    ensures forall w: Window :: Did(RemoveWindow(w)) in log ==> w in Replay(log).removed
  {
    if log != [] {
      var before, change := log[..|log| - 1], log[|log| - 1];
      IdsAreBelow(before);
      assert forall c :: c in log ==> c in before || c == change;
      forall tid, id | id in Subscribers(Replay(log).observers, tid)
        ensures id < Replay(log).nextSubscriber
      {
        ListedAfter(Replay(before), change, tid, id);
      }
    }
  }

  /** Subscriptions are only lost by cancelling them, and what was cancelled does not come back. */
  lemma {:induction false} ObserversLater(log: seq<Change>, log': seq<Change>)
    requires log <= log' && Legal(log')
    ensures Replay(log).nextSubscriber <= Replay(log').nextSubscriber
    ensures forall tid, id :: id in Subscribers(Replay(log').observers, tid) && id < Replay(log).nextSubscriber ==>
                                id in Subscribers(Replay(log).observers, tid)
    ensures forall tid, id :: id in Subscribers(Replay(log).observers, tid) ==>
                                id in Subscribers(Replay(log').observers, tid) || Did(StopObserving(id)) in log'
  {
    if |log'| > |log| {
      ObserversLater(log, log'[..|log'| - 1]);
    } else {
      assert log == log';
    }
  }

  /** Nobody who was listed at the start comes back. */
  lemma StillListed(log: seq<Change>, log1: seq<Change>, log2: seq<Change>, tid: TypeId)
    requires log <= log1 <= log2 && Legal(log) && Legal(log1) && Legal(log2)
    ensures forall id :: id in Subscribers(Replay(log).observers, tid) && id in Subscribers(Replay(log2).observers, tid) ==>
                           id in Subscribers(Replay(log1).observers, tid)
  {
    IdsAreBelow(log);
    ObserversLater(log, log1);
    ObserversLater(log1, log2);
  }

  // ---------- Actions that are not taken ----------

  /** No code to come takes one of these actions, and none was taken before. */
  ghost predicate SparedOk(future: seq<seq<Action>>, log: seq<Change>, spared: set<Action>) {
    && (forall script :: script in future ==> Code(script) !! spared)
    && (forall action :: Did(action) in log ==> action !in spared)
  }

  ghost predicate NeverTaken(action: Action, future: seq<seq<Action>>) {
    forall script :: script in future ==> action !in Code(script)
  }

  /** A window that is open, that nothing has marked, and that nothing to come removes. */
  ghost predicate StaysOpen(w: Window, s: State, future: seq<seq<Action>>) {
    w in s.open && w !in s.removed && NeverTaken(RemoveWindow(w), future)
  }

  lemma SparedStaysOpen(log: seq<Change>, log': seq<Change>, w: Window)
    requires log <= log' && Legal(log') && Legal(log)
    requires w in Replay(log).open && Did(RemoveWindow(w)) !in log'
    ensures w in Replay(log').open
  {
    WindowsLater([], log');
    WindowsLater(log, log');
  }

  // ---------- The turns of the observers of new entities ----------

  /** The position of the observer, the window that it is to run in, and what is open and subscribed when its turn comes. */
  datatype Turn = Turn(position: nat, window: Option<Window>, open: set<Window>, subscribed: seq<nat>)

  predicate Misses(turn: Turn) {
    turn.window.Some? && turn.window.value !in turn.open
  }

  ghost predicate NoneMissing(turns: seq<Turn>) {
    forall turn :: turn in turns ==> !Misses(turn)
  }

  /** One of the turns was that of the observer at position `k`. */
  ghost predicate HadTurn(turns: seq<Turn>, from: nat, k: nat) {
    exists i :: from <= i < |turns| && turns[i].position == k
  }

  /**
   The turns of the first `n` of the subscribers there were at the start, in order: each has its turn unless
   it was cancelled (`left` are those who were not), and only then; none comes after one that misses its
   window, and the first comes with the windows that are open at the start.
   */
  ghost predicate TurnsTaken(before: seq<Turn>, after: seq<Turn>, window: Option<Window>, subscribers: seq<nat>, n: nat,
                             left: seq<nat>, open: set<Window>, ok: bool)
    requires n <= |subscribers|
  {
    && before <= after
    && (forall i :: |before| <= i < |after| ==> after[i].window == window && after[i].position < n)
    && (forall i :: |before| <= i < |after| ==> subscribers[after[i].position] in after[i].subscribed)
    && (forall i, j :: |before| <= i < j < |after| ==> after[i].position < after[j].position)
    && (n > 0 ==> |after| > |before| && after[|before|].position == 0 && after[|before|].open == open)
    && (forall i :: |before| <= i < |after| - 1 ==> !Misses(after[i]))
    && (|after| > |before| ==> (ok <==> !Misses(after[|after| - 1])))
    && (|after| == |before| ==> ok)
    && (ok ==> forall k :: 0 <= k < n ==> HadTurn(after, |before|, k) || subscribers[k] !in left)
  }

  /** Those who had no turn yet may be cancelled meanwhile; nobody comes back. */
  lemma NextTurn(before: seq<Turn>, mid: seq<Turn>, turn: Turn, window: Option<Window>, subscribers: seq<nat>, n: nat,
                 left: seq<nat>, left': seq<nat>, open: set<Window>)
    requires n < |subscribers| && turn.position == n && turn.window == window && (n == 0 ==> turn.open == open)
    requires subscribers[n] in turn.subscribed
    requires TurnsTaken(before, mid, window, subscribers, n, left, open, true)
    requires forall k :: 0 <= k < n && subscribers[k] in left' ==> subscribers[k] in left
    ensures TurnsTaken(before, mid + [turn], window, subscribers, n + 1, left', open, !Misses(turn))
  {
    var after := mid + [turn];
    forall k | 0 <= k < n + 1
      ensures HadTurn(after, |before|, k) || subscribers[k] !in left'
    {
      if k == n {
        assert after[|mid|].position == n;
      } else if HadTurn(mid, |before|, k) {
        var i :| |before| <= i < |mid| && mid[i].position == k;
        assert after[i].position == k;
      }
    }
  }

  lemma SkippedTurn(before: seq<Turn>, turns: seq<Turn>, window: Option<Window>, subscribers: seq<nat>, n: nat,
                    left: seq<nat>, open: set<Window>)
    requires 0 < n < |subscribers| && subscribers[n] !in left
    requires TurnsTaken(before, turns, window, subscribers, n, left, open, true)
    ensures TurnsTaken(before, turns, window, subscribers, n + 1, left, open, true)
  {
  }

  lemma StoppedEarly(before: seq<Turn>, after: seq<Turn>, window: Option<Window>, subscribers: seq<nat>, n: nat,
                     left: seq<nat>, open: set<Window>)
    requires 0 < n <= |subscribers| && TurnsTaken(before, after, window, subscribers, n, left, open, false)
    ensures TurnsTaken(before, after, window, subscribers, |subscribers|, left, open, false)
  {
  }

  /** The turns decide: the call fails exactly if one of them misses its window. */
  lemma TurnsDecide(before: seq<Turn>, after: seq<Turn>, window: Option<Window>, subscribers: seq<nat>,
                    left: seq<nat>, open: set<Window>, ok: bool)
    requires TurnsTaken(before, after, window, subscribers, |subscribers|, left, open, ok)
    ensures NoneMissing(before) ==> (ok <==> NoneMissing(after))
    ensures ok && subscribers != [] && window.Some? ==> window.value in open
  {
    forall turn | turn in after
      ensures turn in before || exists i :: |before| <= i < |after| && after[i] == turn
    {
      var i :| 0 <= i < |after| && after[i] == turn;
      if i < |before| {
        assert before[i] == turn;
      }
    }
    if |after| > |before| {
      assert !ok ==> after[|after| - 1] in after;
      assert ok ==> !Misses(after[|before|]);
    }
  }

  // ---------- Doomed effects ----------

  /** A new entity that observer `id` waits for, and whose window is gone for good. */
  ghost predicate Doomed(effect: Effect, id: nat, s: State) {
    && effect.EntityCreated? && effect.window.Some?
    && effect.window.value !in s.open && effect.window.value < s.next
    && id in Subscribers(s.observers, effect.tid)
  }

  /** What was doomed at the start is still queued, or its observer was cancelled. */
  ghost predicate DoomSettled(effects: seq<Effect>, start: State, effects': seq<Effect>, s: State) {
    forall effect, id :: effect in effects && Doomed(effect, id, start) ==>
                           effect in effects' || id !in Subscribers(s.observers, effect.tid)
  }

  lemma DoomSettles(effects: seq<Effect>, log: seq<Change>, effects1: seq<Effect>, log1: seq<Change>,
                    effects2: seq<Effect>, log2: seq<Change>)
    requires log <= log1 <= log2 && Legal(log) && Legal(log1) && Legal(log2) && effects1 <= effects2
    requires DoomSettled(effects, Replay(log), effects1, Replay(log1))
    ensures DoomSettled(effects, Replay(log), effects2, Replay(log2))
  {
    IdsAreBelow(log);
    ObserversLater(log, log1);
    ObserversLater(log1, log2);
  }

  /** When the oldest effect is applied and does not fail, it was not doomed then. */
  lemma DoomOutlasts(effects: seq<Effect>, log: seq<Change>, effects1: seq<Effect>, log1: seq<Change>)
    requires log <= log1 && Legal(log1) && effects1 != []
    requires DoomSettled(effects, Replay(log), effects1, Replay(log1))
    requires forall id :: !Doomed(effects1[0], id, Replay(log1))
    ensures DoomSettled(effects, Replay(log), effects1[1..], Replay(log1))
  {
    WindowsLater(log, log1);
    forall effect, id | effect in effects && Doomed(effect, id, Replay(log))
      ensures effect in effects1[1..] || id !in Subscribers(Replay(log1).observers, effect.tid)
    {
      assert !Doomed(effects1[0], id, Replay(log1));
    }
  }

  /** Every observer of an entity that the script creates has been cancelled. */
  ghost predicate ObserversGone(script: seq<Action>, before: map<TypeId, seq<nat>>, after: map<TypeId, seq<nat>>) {
    forall a, id :: a in script && a.CreateEntity? && id in Subscribers(before, a.tid) ==> id !in Subscribers(after, a.tid)
  }

  /** What is created in a window that has closed is doomed for the observers that are not cancelled. */
  lemma BodyDooms(body: seq<Action>, effects: seq<Effect>, w: Window, log: seq<Change>, log1: seq<Change>, log2: seq<Change>)
    requires log <= log1 <= log2 && Legal(log) && Legal(log1) && Legal(log2)
    requires AllQueued(body, effects, Some(w)) && w in Replay(log).open && w !in Replay(log1).open
    requires DoomSettled(effects, Replay(log1), [], Replay(log2))
    ensures ObserversGone(body, Replay(log).observers, Replay(log2).observers)
  {
    IdsAreBelow(log);
    WindowsLater(log, log1);
    ObserversLater(log, log1);
    ObserversLater(log1, log2);
    forall a, id | a in body && a.CreateEntity? && id in Subscribers(Replay(log).observers, a.tid)
      ensures id !in Subscribers(Replay(log2).observers, a.tid)
    {
      if id in Subscribers(Replay(log1).observers, a.tid) {
        assert Doomed(EntityCreated(a.entity, a.tid, Some(w)), id, Replay(log1));
      }
    }
  }
}
