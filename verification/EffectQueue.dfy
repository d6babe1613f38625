/**
 The queue of effects that an update leaves behind, with the sets that keep a notification from
 being queued twice.
 */
module EffectQueue {
  import opened Wrappers

  type Entity = nat
  type Window = nat
  type TypeId = nat

  /** `generation` counts the clears of the event arena before the event was allocated. */
  datatype Effect =
    | Notify(emitter: Entity)
    | Emit(emitter: Entity, eventType: TypeId, generation: nat)
    | RefreshWindows
    | NotifyGlobalObservers(globalType: TypeId)
    | Defer
    | EntityCreated(entity: Entity, tid: TypeId, window: Option<Window>)

  /** `pushed` and `applied` record every effect ever queued and every effect taken off the queue. */
  datatype Queue = Queue(effects: seq<Effect>,
                         notifying: set<Entity>,
                         globals: set<TypeId>,
                         generation: nat,
                         pushed: seq<Effect>,
                         applied: seq<Effect>)

  predicate IsPending(q: Queue, effect: Effect) {
    match effect
    case Notify(e) => e in q.notifying
    case NotifyGlobalObservers(g) => g in q.globals
    case _ => false
  }

  function Pushed(q: Queue, effect: Effect): Queue {
    if IsPending(q, effect) then q
    else q.(effects := q.effects + [effect],
            notifying := if effect.Notify? then q.notifying + {effect.emitter} else q.notifying,
            globals := if effect.NotifyGlobalObservers? then q.globals + {effect.globalType} else q.globals,
            pushed := q.pushed + [effect])
  }

  /** The queue when the mark of an effect taken off it is gone. */
  function Unmarked(q: Queue, effect: Effect): Queue {
    q.(notifying := if effect.Notify? then q.notifying - {effect.emitter} else q.notifying,
       globals := if effect.NotifyGlobalObservers? then q.globals - {effect.globalType} else q.globals)
  }

  function Popped(q: Queue): Queue
    requires q.effects != []
  {
    Unmarked(q.(effects := q.effects[1..], applied := q.applied + [q.effects[0]]), q.effects[0])
  }

  /** An effect that is deduplicated is queued once while it is pending and not at all otherwise. */
  ghost predicate Deduplicated(q: Queue) {
    && (forall e :: multiset(q.effects)[Notify(e)] == if e in q.notifying then 1 else 0)
    && (forall g :: multiset(q.effects)[NotifyGlobalObservers(g)] == if g in q.globals then 1 else 0)
  }

  /** No queued event was allocated before the last clear of the arena. */
  ghost predicate EventsLive(q: Queue) {
    forall effect :: effect in q.effects && effect.Emit? ==> effect.generation == q.generation
  }

  /** Nothing that was queued is lost, repeated or reordered. */
  ghost predicate Conserved(q: Queue) {
    q.pushed == q.applied + q.effects
  }

  ghost predicate QueueOk(q: Queue) {
    Deduplicated(q) && EventsLive(q) && Conserved(q)
  }

  /** A pushed effect is in the queue afterwards, whether it was there before or not. */
  lemma PushKeepsQueue(q: Queue, effect: Effect)
    requires QueueOk(q) && (effect.Emit? ==> effect.generation == q.generation)
    ensures QueueOk(Pushed(q, effect))
    ensures effect in Pushed(q, effect).effects
    ensures IsPending(q, effect) <==> effect in q.effects && (effect.Notify? || effect.NotifyGlobalObservers?)
  {
    var q' := Pushed(q, effect);
    if !IsPending(q, effect) {
      assert multiset(q'.effects) == multiset(q.effects) + multiset{effect};
      assert q'.pushed == q'.applied + q'.effects;
    }
    if effect.Notify? {
      assert multiset(q.effects)[Notify(effect.emitter)] == if effect.emitter in q.notifying then 1 else 0;
    }
    if effect.NotifyGlobalObservers? {
      assert multiset(q.effects)[NotifyGlobalObservers(effect.globalType)] == if effect.globalType in q.globals then 1 else 0;
    }
  }

  /** Once a deduplicated effect is taken off it can be queued again: it is neither queued nor pending. */
  lemma PopKeepsQueue(q: Queue)
    requires QueueOk(q) && q.effects != []
    ensures QueueOk(Popped(q)) && !IsPending(Popped(q), q.effects[0])
    ensures q.effects[0].Notify? || q.effects[0].NotifyGlobalObservers? ==> q.effects[0] !in Popped(q).effects
    ensures q.effects[0].Emit? ==> q.effects[0].generation == q.generation
  {
    var effect, q' := q.effects[0], Popped(q);
    assert q.effects == [effect] + q'.effects;
    assert multiset(q.effects) == multiset{effect} + multiset(q'.effects);
    assert effect in q.effects;
    if effect.Notify? {
      assert multiset(q.effects)[Notify(effect.emitter)] == if effect.emitter in q.notifying then 1 else 0;
    }
    if effect.NotifyGlobalObservers? {
      assert multiset(q.effects)[NotifyGlobalObservers(effect.globalType)] == if effect.globalType in q.globals then 1 else 0;
    }
    assert q'.pushed == q'.applied + q'.effects;
  }

  /** While nothing is applied the queue only grows at its end. */
  lemma EffectsGrow(q: Queue, q': Queue)
    requires Conserved(q) && Conserved(q') && q.applied == q'.applied && q.pushed <= q'.pushed
    ensures q.effects <= q'.effects
  {
    assert q.effects == q.pushed[|q.applied|..] && q'.effects == q'.pushed[|q.applied|..];
  }

  /** The arena may be cleared only over an empty queue. */
  lemma ClearKeepsQueueIff(q: Queue)
    requires QueueOk(q)
    ensures QueueOk(q.(generation := q.generation + 1)) <==> !(exists effect :: effect in q.effects && effect.Emit?)
  {
  }
}
