/**
 What application code does: scripts of actions, and what a script is sure to leave behind.
 */
module AppCode {
  import opened Wrappers
  import opened EffectQueue

  /** `RemoveWindow` and `DrawWindow` need the window itself, so they do nothing unless code runs in it. */
  datatype Action =
    | NotifyEntity(entity: Entity)
    | SetGlobal(globalType: TypeId)
    | EmitEvent(entity: Entity, eventType: TypeId)
    | DeferCallback
    | Refresh
    | ObserveNew(tid: TypeId)
    | StopObserving(subscriber: nat)
    | CreateEntity(entity: Entity, tid: TypeId, build: seq<Action>)
    | DropEntity(entity: Entity)
    | InUpdate(body: seq<Action>)
    | InWindow(window: Window, body: seq<Action>)
    | RemoveWindow(window: Window)
    | DrawWindow(window: Window, body: seq<Action>, accessed: set<Entity>)
    | OpenWindow(succeeds: bool, build: seq<Action>, body: seq<Action>, accessed: set<Entity>)

  predicate RunsCode(action: Action) {
    action.CreateEntity? || action.InUpdate? || action.InWindow? || action.DrawWindow? || action.OpenWindow?
  }

  /** The script runs no code of its own accord. */
  predicate IsSimple(script: seq<Action>) {
    forall i :: 0 <= i < |script| ==> !RunsCode(script[i])
  }

  function ScriptSize(script: seq<Action>): nat
    decreases script
  {
    if script == [] then 0 else ActionSize(script[0]) + ScriptSize(script[1..])
  }

  function ActionSize(action: Action): (n: nat)
    ensures n > 0
    decreases action
  {
    match action
    case CreateEntity(_, _, build) => 1 + ScriptSize(build)
    case InUpdate(body) => 1 + ScriptSize(body)
    case InWindow(_, body) => 1 + ScriptSize(body)
    case DrawWindow(_, body, _) => 1 + ScriptSize(body)
    case OpenWindow(_, build, body, _) => 2 + ScriptSize(build) + ScriptSize(body)
    case _ => 1
  }

  /** The actions that a script is sure to take: all but those that need a window at hand. */
  ghost function Sure(script: seq<Action>): multiset<Action>
    decreases script, 0
  {
    if script == [] then multiset{} else SureOf(script[0]) + Sure(script[1..])
  }

  ghost function SureOf(action: Action): multiset<Action>
    decreases action, 1
  {
    multiset{action} + SureInside(action)
  }

  ghost function SureInside(action: Action): multiset<Action>
    decreases action, 0
  {
    match action
    case CreateEntity(_, _, build) => Sure(build)
    case InUpdate(body) => Sure(body)
    case OpenWindow(succeeds, build, body, _) => if succeeds then Sure(build) + Sure(body) else multiset{}
    case _ => multiset{}
  }

  /** Every action that a script may take. */
  ghost function Code(script: seq<Action>): set<Action>
    decreases script
  {
    if script == [] then {} else CodeOf(script[0]) + Code(script[1..])
  }

  ghost function CodeOf(action: Action): set<Action>
    decreases action
  {
    {action} + match action
               case CreateEntity(_, _, build) => Code(build)
               case InUpdate(body) => Code(body)
               case InWindow(_, body) => Code(body)
               case DrawWindow(_, body, _) => Code(body)
               case OpenWindow(_, build, body, _) => Code(build) + Code(body)
               case _ => {}
  }

  lemma CodeSplits(script: seq<Action>, spared: set<Action>)
    requires script != [] && Code(script) !! spared
    ensures CodeOf(script[0]) !! spared && Code(script[1..]) !! spared
  {
    assert CodeOf(script[0]) <= Code(script) && Code(script[1..]) <= Code(script);
  }

  lemma CodeOfOne(action: Action)
    ensures Code([action]) == CodeOf(action)
  {
    assert [action][1..] == [];
  }

  /** Every entity that a script creates outside nested code is queued with its window. */
  ghost predicate AllQueued(script: seq<Action>, effects: seq<Effect>, window: Option<Window>) {
    forall a :: a in script && a.CreateEntity? ==> EntityCreated(a.entity, a.tid, window) in effects
  }

  predicate Asks(action: Action) {
    action.NotifyEntity? || action.SetGlobal? || action.EmitEvent? || action.DeferCallback? || action.Refresh?
  }

  /** The effect that an action asks for is queued; whether a notification is depends on the windows. */
  ghost predicate Asked(action: Action, effects: seq<Effect>, generation: nat) {
    match action
    case SetGlobal(g) => NotifyGlobalObservers(g) in effects
    case EmitEvent(e, t) => Emit(e, t, generation) in effects
    case DeferCallback => Defer in effects
    case Refresh => RefreshWindows in effects
    case _ => true
  }

  /** Whether an action that needs a window has it at hand, and so runs its code. */
  predicate RunsBody(action: Action, windows: map<Window, bool>) {
    || (action.InWindow? && action.window in windows && windows[action.window])
    || (action.DrawWindow? && action.window in windows && !windows[action.window])
  }

  /** A window opened by the action is in its slot, and what its root view created is queued with it. */
  ghost predicate Opened(action: Action, id: Window, windows: map<Window, bool>, effects: seq<Effect>) {
    action.OpenWindow? ==>
      && (action.succeeds <==> id in windows)
      && (action.succeeds ==> windows[id] && AllQueued(action.build, effects, Some(id)))
  }

  /** A window that removes itself is closed when its code ends. */
  ghost predicate SelfClosed(action: Action, before: map<Window, bool>, after: map<Window, bool>) {
    action.InWindow? && action.window in before && before[action.window] && RemoveWindow(action.window) in action.body ==>
      action.window !in after
  }

  /** Every window that a script removes while code runs in it is marked. */
  ghost predicate AllMarked(script: seq<Action>, removed: set<Window>, taken: set<Window>) {
    forall w :: RemoveWindow(w) in script && w in taken ==> w in removed
  }

  lemma AllOf(script: seq<Action>, effects: seq<Effect>, window: Option<Window>, removed: set<Window>, taken: set<Window>)
    requires script != []
    requires AllQueued(script[1..], effects, window) && AllMarked(script[1..], removed, taken)
    requires script[0].CreateEntity? ==> EntityCreated(script[0].entity, script[0].tid, window) in effects
    requires script[0].RemoveWindow? && script[0].window in taken ==> script[0].window in removed
    ensures AllQueued(script, effects, window) && AllMarked(script, removed, taken)
  {
    assert script == [script[0]] + script[1..];
  }
}
