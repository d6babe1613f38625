# Models and proofs of stateful parts of gpui, fs and clock

This project models eight components of the repository whose correctness rests on an invariant or a
refinement over all inputs and all runs, and proves those properties.

- **Draw order** (`Geometry`, `Layering`, `BoundsTree`). `BoundsTree` keeps an R-tree in a flat vector
  and gives each new rectangle an order above all earlier ones it meets. The methods of `Tree` follow
  the source statement by statement; the tree is compared with a list of all inserted rectangles. Child
  indices may be larger or smaller than their parent's, so the rank is a ghost depth per node.
- **File watcher** (`GlobalWatcher`, `WatcherProtocol`, `WatcherEffects`, `Rescan`, `Sublists`, `Paths`). The process-wide registry is a
  class; one watcher with its calls, polling tasks and destruction is a state machine whose steps are
  what happens between two lock operations; the rescan filter is a method on two sequences.
- **Update and effect cycle** (`EffectQueue`, `WindowIndex`, `AppCode`, `AppHistory`, `AppCycle`).
  Application code is a script of actions, and handlers run scripts from an arbitrary supply in the order in
  which they are called, so what is proved holds whatever observers do. `Valid()` is a precondition of every
  callback; a ghost multiset of all actions taken shows that no code is skipped, and a ghost log of changes
  determines which windows exist and who observes new entities.
- **Arena** (`Arena`). Addresses are numbers; the chunk size and the address of each new chunk are
  arbitrary.
- **In-memory filesystem** (`FakeTree`, `Resolution`, `Inodes`, `FakeFs`, `FakeFsRuns`, `FakeFsEffects`,
  `FakeFsExample`, `FakeFsState`). Each operation is a function from store to outcome and store, about which
  the laws are stated, and a method on the mutable state proved equal to it.
- **Clocks** (`VersionVector`, `LamportRuns`), **image cache** (`LruCache`), **text offsets** (`TextInput`,
  `TextEncoding`).

Where the code and what is said about it differ, the model follows the code:

- `rename` looks its old path up again after writing the new one. If it overwrites a link that the old
  path goes through, it removes something else, and two entries share an inode
  (`FakeFsExample.RenameCanRepeatInodes`); `FakeFsRuns.RenameKeepsUniqueIff` says exactly when a completed
  rename is harmless.
- The two membership checks of `FsWatcher::add` are under different locks. It is safe as long as nothing
  else registers its path before its own insert, or makes it pending after its check
  (`WatcherProtocol.UndisturbedAddsAreSafe`); interrupted by a polling task for the same path it can leave
  an id for ever (`WatcherProtocol.InterruptedAddCanLeak`), and `WatcherProtocol.NothingLeaksIff` says
  exactly which runs do.
- The comment in `App::notify` calls the invalidators monotonic. They are not: recording a frame removes
  them, and the filter never removes anything (`WindowIndex.FilterKeepsShowing`).
- The message of the `expect` in `apply_entity_created_effect` says that all windows are off the stack. They
  are, but a window may have closed since the entity was created in it, and then the call fails. It fails
  exactly when the window is not open at the turn of some observer that is not cancelled by then
  (`AppCycle.App.ApplyEntityCreatedEffect`), and `AppCycle.FailingRun` is a run that ends so.
- A link or a file put over an entry that its own path goes through need not be found by that path
  (`FakeFsExample.LinkCanVanish`). `FakeFsRuns.PutIsFoundIff` says exactly when it is; for a created file
  without `..` in links that is unless it overwrites an entry on its own way (`FakeFsRuns.OverwriteIsFoundIff`),
  and for a link also when the way goes on from its target to the same place (`FakeFsRuns.LinkIsFoundIff`).
- An OS watch that covers a registered path goes away with the registration that made it
  (`GlobalWatcher.RemovalKeepsAllWatchedIff`).
- A rename of an entry to itself, with `overwrite` or `ignore_if_exists`, removes it, and so does a rename to a place
  below it (`FakeFsEffects.MoveToItself`, `FakeFsEffects.MoveBelowItself`).
- `copy_file` with `overwrite` leaves an existing target as it is, and `SimpleLruCache` with `max_items` 0 panics
  on the first miss; both are modelled so.

## Model

| member | source | states |
|---|---|---|
| Geometry.UnionIsLeast | crates/gpui/src/geometry.rs:1182-1186 | the union of two rectangles is the least rectangle that contains both |
| Geometry.PruningIsSound | crates/gpui/src/geometry.rs:962-970 | a query that meets a rectangle meets every rectangle that contains it, so skipping a subtree by its bounds skips no hit |
| Geometry.IntersectsIff | crates/gpui/src/geometry.rs:962-970 | rectangles with an area intersect exactly if some point lies strictly inside both; those that only touch do not |
| Geometry.GrowthIsCost | crates/gpui/src/bounds_tree.rs:248-262 | the cost of a child is by how much its half perimeter has to grow: never negative, and nothing exactly if the child contains the rectangle already |
| Layering.MaxIntersectingIsMax | crates/gpui/src/bounds_tree.rs:120-136 | the reference scan is the largest order among the inserted bounds that the query meets, and 0 if it meets none |
| Layering.OrderByInterior | crates/gpui/src/bounds_tree.rs:120-136 | among rectangles with an area an order is above those of all earlier ones that share an interior point, and next to one of them, or 1 if there are none |
| Layering.LaterIsAbove | crates/gpui/src/bounds_tree.rs:120-136 | of two inserted bounds that meet, the later one has the larger order |
| Layering.HasSupport | crates/gpui/src/bounds_tree.rs:120-136 | every order above 1 rests on an earlier intersecting bound whose order is one less |
| Layering.PileBelow | crates/gpui/src/bounds_tree.rs:120-136 | an order k stands on a pile of k bounds inserted one after the other, each meeting the one below, so it is at most the number of inserts |
| Layering.OrdersAreDetermined | crates/gpui/src/bounds_tree.rs:120-136 | the inserted bounds and their order of insertion determine every order |
| Layering.OrdersAreMinimal | crates/gpui/src/bounds_tree.rs:120-136 | no assignment of positive orders that puts later intersecting bounds above earlier ones gives any bound a smaller order |
| BoundsTree.DescentExists | crates/gpui/src/bounds_tree.rs:197-327 | every node is reached from the root by following child indices |
| BoundsTree.DescentIsUnique | crates/gpui/src/bounds_tree.rs:197-327 | by exactly one path: there are no cycles and no shared children |
| BoundsTree.LabelsCoverDescendants | crates/gpui/src/bounds_tree.rs:280-333 | a node contains the bounds and dominates the orders of everything below it |
| BoundsTree.LastChildrenReachMax | crates/gpui/src/bounds_tree.rs:272-353 | the path of last children from any node ends at a leaf whose order is the max_order of the node |
| BoundsTree.MaxOrderIsSubtreeMax | crates/gpui/src/bounds_tree.rs:280-336 | no leaf below a node has a larger order than the max_order of the node |
| BoundsTree.SearchIsScan | crates/gpui/src/bounds_tree.rs:139-193 | a search that has explored, or rightly skipped, everything has the answer of the linear scan |
| BoundsTree.ShapeAfterLink | crates/gpui/src/bounds_tree.rs:267-282 | adding a leaf to a node with room keeps every node reachable once and keeps 2 to 12 children |
| BoundsTree.ShapeAfterSplit | crates/gpui/src/bounds_tree.rs:283-322 | pairing a leaf with a new one under a fresh internal node keeps the shape, although the fresh index is larger than its children |
| BoundsTree.ClimbOne | crates/gpui/src/bounds_tree.rs:329-353 | one step of the upward pass restores the labels of one node and hands the rest of the work to its parent |
| BoundsTree.Tree.LinkLeaf | crates/gpui/src/bounds_tree.rs:267-282 | a leaf joins a node with room: the shape is right and every label is, but for those the upward pass still has to raise |
| BoundsTree.Tree.SplitLeaf | crates/gpui/src/bounds_tree.rs:283-322 | a full node gets a pair of the chosen leaf and the new one in its place: again all is right but for what the upward pass still has to raise |
| BoundsTree.Tree.Clear | crates/gpui/src/bounds_tree.rs:108-114 | clearing leaves a well-formed tree with no contents |
| BoundsTree.Tree.FindMaxOrdering | crates/gpui/src/bounds_tree.rs:139-193 | the pruned stack search, with its fast path on the topmost leaf, returns what the linear scan over the contents returns |
| BoundsTree.Tree.BestChild | crates/gpui/src/bounds_tree.rs:248-262 | the first child of least enlargement cost is chosen |
| BoundsTree.Tree.Descend | crates/gpui/src/bounds_tree.rs:236-327 | the descent ends at an internal node and one of its leaves, and records the path it took |
| BoundsTree.Tree.Propagate | crates/gpui/src/bounds_tree.rs:329-353 | the upward pass ends with exact maxima, covering bounds and the maximum child last at every node, and changes no leaf |
| BoundsTree.Tree.InsertLeaf | crates/gpui/src/bounds_tree.rs:197-356 | one more leaf, a well-formed tree, and at most two more nodes |
| BoundsTree.Tree.Insert | crates/gpui/src/bounds_tree.rs:120-136 | returns 1 + the largest order among earlier bounds that meet the new one, and 1 if it shares no interior point with any; appends exactly that bound and order to the contents |
| BoundsTree.Tree.UpdateMaxLeaf | crates/gpui/src/bounds_tree.rs:120-136 | the remembered leaf is one of the highest order |
| GlobalWatcher.RegisteredKeepsCounts | crates/fs/src/fs_watcher.rs:607-625 | after a registration each path's count is again the number of its live ids in that mode |
| GlobalWatcher.LiveIdHasCount | crates/fs/src/fs_watcher.rs:530-538 | a live id has a positive count, so the decrement does not underflow |
| GlobalWatcher.UnregisteredKeepsCounts | crates/fs/src/fs_watcher.rs:530-546 | after a removal the counts are again the numbers of live ids |
| GlobalWatcher.UnregisteredTakesOne | crates/fs/src/fs_watcher.rs:530-546 | a removal takes exactly its id and touches no other entry; its path is to be unwatched exactly if that was the last id of a path with an OS watch |
| GlobalWatcher.InterleavingsKeepCounts | crates/fs/src/fs_watcher.rs:530-625 | over every interleaving of the sections under the state lock counts stay right and no decrement underflows |
| GlobalWatcher.RemoveUndoesAdd | crates/fs/src/fs_watcher.rs:530-546 | removing an id just issued restores the registry but for the id counter |
| GlobalWatcher.RegisteredOsPaths | crates/fs/src/fs_watcher.rs:607-625 | a registration adds exactly its own path to the paths with an OS watch, and only when new and not covered |
| GlobalWatcher.UnregisteredOsPaths | crates/fs/src/fs_watcher.rs:530-546 | a removal takes exactly the path it asks to unwatch out of the paths with an OS watch |
| GlobalWatcher.RegisteringKeepsAllWatched | crates/fs/src/fs_watcher.rs:719-729 | while nothing is removed every registered path has an OS watch on itself or on an ancestor |
| GlobalWatcher.RemovalKeepsAllWatchedIff | crates/fs/src/fs_watcher.rs:530-546 | a removal keeps every registered path of its mode watched exactly when it unwatches nothing, or nothing that another path leans on: an unwatched path below it with no other watched path above |
| GlobalWatcher.RemovingACoveringParentUnwatches | crates/fs/src/fs_watcher.rs:575-648 | two adds and a remove after which a registered path has no OS watch at all |
| GlobalWatcher.Watcher.PlanAdd | crates/fs/src/fs_watcher.rs:581-593 | which adds go to the backend: not covered, not registered, and not during the cooldown of the native mode |
| GlobalWatcher.Watcher.Register | crates/fs/src/fs_watcher.rs:604-625 | a fresh id, and counts that are right again |
| GlobalWatcher.Watcher.Add | crates/fs/src/fs_watcher.rs:575-626 | a path that is registered, or covered by an ancestor, always gets a fresh id for it; a new native path is refused for now exactly during a cooldown or when the limit is reached, and an error means that the backend refused; registry, cooldown and OS watches after the call; what was watched stays watched |
| GlobalWatcher.LimitRefusesUntil | crates/fs/src/fs_watcher.rs:588-600 | after the limit was reached, new native paths are refused until the cooldown is over and no longer |
| GlobalWatcher.Watcher.constructor | crates/fs/src/fs_watcher.rs:762-772 | nothing is registered or watched, and there is no cooldown |
| GlobalWatcher.Watcher.RemoveRegistration | crates/fs/src/fs_watcher.rs:530-546 | the in-place removal equals its specification and keeps the counts |
| GlobalWatcher.Watcher.Remove | crates/fs/src/fs_watcher.rs:641-648 | when the backend obeys, the OS-watched paths stay the paths with an OS watch; without recursive native watches every native path keeps its own |
| WatcherProtocol.StepKeepsAccountsIff | crates/fs/src/fs_watcher.rs:51-150 | a step keeps every live id in exactly one place exactly when it does not insert over an existing registration |
| WatcherProtocol.MovingKeepsAccountsIff | crates/fs/src/fs_watcher.rs:353-361 | handing an id over loses none exactly when the receiving place was empty |
| WatcherProtocol.LostStaysLost | crates/fs/src/fs_watcher.rs:91-95 | an id that is in no place stays live and in no place |
| WatcherProtocol.NothingLeaksIff | crates/fs/src/fs_watcher.rs:81-96 | after destruction and the end of all tasks and calls no id is left live exactly when the run had no overwriting insert |
| WatcherProtocol.FirstOverwrite | crates/fs/src/fs_watcher.rs:56-58 | a run with an overwriting insert has a first one, before which all ids are accounted for |
| WatcherProtocol.OverwritingLoses | crates/fs/src/fs_watcher.rs:56-58 | an overwriting insert loses the id that was registered |
| WatcherProtocol.UndisturbedAddsAreSafe | crates/fs/src/fs_watcher.rs:51-150 | with adds, removals, tasks and destruction interleaved at will: as long as no other step registers the path of an add under way, or makes it pending after the add has checked that, no path is ever both pending and registered, nothing is overwritten and every id is accounted for |
| WatcherProtocol.UndisturbedAddsLeakNothing | crates/fs/src/fs_watcher.rs:81-137 | and no id is left when everything has ended |
| WatcherProtocol.AtomicAddsAreSafe | crates/fs/src/fs_watcher.rs:51-150 | with each add as one step, at every point of every interleaving no path is both pending and registered, nothing is overwritten and every id is accounted for |
| WatcherProtocol.AtomicAddsLeakNothing | crates/fs/src/fs_watcher.rs:328-384 | with each add as one step no id is left when everything has ended |
| WatcherProtocol.AddAtOnceIsUninterruptedAdd | crates/fs/src/fs_watcher.rs:99-137 | the one-step add is the uninterrupted run of the small steps of an add |
| WatcherProtocol.InterruptedAddCanLeak | crates/fs/src/fs_watcher.rs:102-136 | a complete run in which a polling task finishes between the two membership checks of an add, and an id is left for ever |
| WatcherProtocol.RunsKeepOrder | crates/fs/src/fs_watcher.rs:353-361 | in every run the pending lock is held exactly by a task in its hand-over section, and destruction goes through its phases in order |
| WatcherEffects.StepLeavesOthers | crates/fs/src/fs_watcher.rs:51-150 | a step of a call or a task changes what is pending or registered at its own path only |
| WatcherEffects.PendingIsPolled | crates/fs/src/fs_watcher.rs:61-76 | at every point of every run each pending path has its own task, which has not ended |
| WatcherEffects.RoundEnds | crates/fs/src/fs_watcher.rs:328-384 | one round of a polling task: back to sleep with nothing changed while the path is absent or refused; forgetting a path registered meanwhile; registering under a fresh id, and no longer pending, otherwise |
| WatcherEffects.ForgottenTaskEnds | crates/fs/src/fs_watcher.rs:334-357 | a task that wakes up for a forgotten path ends, and one that holds an id releases it and ends |
| WatcherEffects.OrphanCanBeCancelled | crates/fs/src/fs_watcher.rs:139-141 | a task whose handle was dropped can be cancelled where it waits |
| WatcherEffects.RemovedStaysAway | crates/fs/src/fs_watcher.rs:139-150 | over every run: from the moment a remove has forgotten its path no task registers it, and once the remove has looked at the registrations it is not registered, until an add of the path inserts it |
| WatcherEffects.RemoveAchieves | crates/fs/src/fs_watcher.rs:139-150 | when a remove has ended its path is neither pending nor registered, unless an add inserted it meanwhile |
| WatcherEffects.RemoveReleases | crates/fs/src/fs_watcher.rs:143-149 | and the id that was registered is not live any more |
| WatcherEffects.HolderGivesUp | crates/fs/src/fs_watcher.rs:353-358 | a task that already held an id when its path was removed releases it and ends |
| WatcherEffects.AddGoesOnIff | crates/fs/src/fs_watcher.rs:102-124 | an add goes on exactly if its path is neither registered nor covered by an ancestor that is watched with everything below it |
| WatcherEffects.AddAchieves | crates/fs/src/fs_watcher.rs:99-137 | whatever runs at the same time: when an add ends without being refused its path is registered, pending or covered |
| WatcherEffects.AddDecides | crates/fs/src/fs_watcher.rs:99-137 | an add as one step, by what is registered, pending, covered and in the filesystem |
| Rescan.SurvivingSurvive | crates/fs/src/fs_watcher.rs:450-472 | the rescans of the batch that are kept are those with no rescan strictly above them, in the batch or pending |
| Rescan.CoalescePendingRescans | crates/fs/src/fs_watcher.rs:442-486 | sorting, deduplicating in one pass and filtering in place leaves, in both vectors, what the definition of the kept rescans says |
| Rescan.PendingRescanIsCovered | crates/fs/src/fs_watcher.rs:468-480 | a pending rescan has an equal-or-ancestor rescan afterwards |
| Rescan.EveryRescanIsCovered | crates/fs/src/fs_watcher.rs:442-486 | so has every rescan of the batch |
| Rescan.NoRedundantRescans | crates/fs/src/fs_watcher.rs:457-480 | if no pending rescan was strictly above another, no rescan is strictly above another afterwards |
| Rescan.BatchKeepsNonRescans | crates/fs/src/fs_watcher.rs:483-485 | all other events of the batch survive, in order |
| Rescan.PendingNonRescanStaysIff | crates/fs/src/fs_watcher.rs:474-481 | another pending event disappears exactly when a surviving rescan of the batch has its path |
| Rescan.CoalescingPicks | crates/fs/src/fs_watcher.rs:442-486 | both vectors afterwards are the old ones with some positions left out, in order: of the pending events exactly those with a surviving rescan at their path, or, for a rescan, above it; of the batch exactly the rescans that do not survive |
| Paths.AncestorsSortFirst | crates/fs/src/fs_watcher.rs:455-466 | an ancestor sorts before what is below it, which the one-pass deduplication relies on |
| Paths.SortedIsSorted | crates/fs/src/fs_watcher.rs:455 | the sort used by the deduplication sorts |
| EffectQueue.PushKeepsQueue | crates/gpui/src/app.rs:1450-1466 | pushing keeps: pending exactly when one matching notification is queued, events not older than the last arena clear, nothing lost or reordered; and the effect is queued afterwards |
| EffectQueue.PopKeepsQueue | crates/gpui/src/app.rs:1574-1604 | taking an effect off keeps the same, and a notification taken off is neither pending nor queued, so it can be queued again |
| EffectQueue.ClearKeepsQueueIff | crates/gpui/src/app.rs:1521-1524 | clearing the event arena is right exactly when no event is queued |
| WindowIndex.RecordKeepsIndex | crates/gpui/src/app.rs:1014-1041 | recording a frame keeps the index two-way: an invalidator only for a window that shows the entity, and for each such window until release |
| WindowIndex.RecordReplacesFrame | crates/gpui/src/app.rs:1014-1041 | recording a frame replaces what its window shows and nothing else |
| WindowIndex.ForgettingKeepsIndex | crates/gpui/src/app.rs:1532-1549 | releasing an entity keeps the index and touches no other entity |
| WindowIndex.CloseKeepsIndex | crates/gpui/src/app.rs:1662-1692 | closing a window takes it out of all invalidators; it stays the current window of exactly those entities it never showed |
| WindowIndex.OnlyOpenWindowsAreInvalidated | crates/gpui/src/app.rs:1676-1692 | no invalidator ever mentions a window that is not open |
| WindowIndex.FilterKeepsShowing | crates/gpui/src/app.rs:2407-2419 | the filter in notify removes nothing, and what is left are exactly the windows showing an unreleased entity |
| AppCycle.App.constructor | crates/gpui/src/app.rs:725-781 | the application starts idle |
| AppCycle.App.PushEffect | crates/gpui/src/app.rs:1450-1466 | the queue afterwards |
| AppCycle.App.InvalidateView | crates/gpui/src/window.rs:139-150 | a window that is not being drawn becomes dirty and the notification is queued |
| AppCycle.App.NotifyChanged | crates/gpui/src/app.rs:2400-2434 | observers are notified unless every window showing the entity is being drawn; exactly the windows showing it that are not being drawn become dirty |
| AppCycle.App.RecordEntitiesAccessed | crates/gpui/src/app.rs:1014-1041 | the index after the two loops |
| AppCycle.App.ForgetWindow | crates/gpui/src/app.rs:1679-1690 | the index after the loop over the tracked entities |
| AppCycle.App.CloseWindow | crates/gpui/src/app.rs:1676-1690 | a closed window is in no map of open or tracked windows and in no invalidators |
| AppCycle.App.Queued | crates/gpui/src/app/context.rs:766-780 | a pushed effect is in the queue, and what holds at callbacks still holds |
| AppCycle.App.Notified | crates/gpui/src/app.rs:2400-2434 | the notification is queued unless all windows showing the entity are being drawn |
| AppCycle.App.FinishUpdate | crates/gpui/src/app.rs:974-981 | a nested update changes only the counter; an outermost one that succeeds leaves the application idle, everything queued applied, exactly the entities ever dropped released, and the arena cleared once, and every effect that could only fail for an observer had that observer cancelled |
| AppCycle.App.Update | crates/gpui/src/app.rs:963-981 | the same for any code run in an update: nested updates never flush, release or clear, and restore the counter and the window stack; an outermost update fails exactly when an observer of a new entity misses its window |
| AppCycle.App.UpdateWindowId | crates/gpui/src/app.rs:1662-1716 | code runs in a window exactly when the window is open and not already being updated; an outermost update in which code removes its window succeeds only if every observer of the entities created there has been cancelled by its end |
| AppCycle.App.Trail | crates/gpui/src/app.rs:1673-1710 | the window goes back to its slot, or, if it was removed, it is gone for good, no invalidator mentions it, and the observers of its closing run |
| AppCycle.App.New | crates/gpui/src/app.rs:2489-2506 | the new entity is queued with the window on top of the update stack |
| AppCycle.App.Draw | crates/gpui/src/window.rs:2719-2828 | after a frame its window tracks exactly the entities the frame used, is their current window, and is not being drawn any more; it has not become dirty by what the frame itself asked for |
| AppCycle.App.FirstFrame | crates/gpui/src/app.rs:1159-1176 | opening a window builds it, defers a callback for it, draws it once and puts it in its slot |
| AppCycle.App.RunAction | crates/gpui/src/app.rs:963-969 | every action of application code keeps what holds at callbacks, changes nothing an enclosing update relies on, and is taken together with all the code that it is sure to run |
| AppCycle.App.RunSimple | crates/gpui/src/app.rs:940-942 | the effects that code asks for are queued, and exactly what it observes, stops observing or removes is noted |
| AppCycle.App.Note | crates/gpui/src/app.rs:1532-1549 | every action is noted, and a dropped entity waits to be released |
| AppCycle.App.Change | crates/gpui/src/subscription.rs:40-90 | a new subscription goes to the end of its list, a cancelled one is gone, a window is marked only while code runs in it |
| AppCycle.App.RunNested | crates/gpui/src/app.rs:963-969 | code that runs further code: updates, windows, frames and new entities; their code runs unless the window it needs is not at hand |
| AppCycle.App.Ask | crates/gpui/src/app.rs:940-942 | the effect asked for is queued |
| AppCycle.App.RunScript | crates/gpui/src/app.rs:963-969 | all the code given to an update runs, and nothing else happens if there is none |
| AppCycle.App.Callback | crates/gpui/src/app.rs:1577-1579 | the next handlers run in full |
| AppCycle.App.PutBack | crates/gpui/src/app.rs:1674-1708 | the window leaves the update stack and is back in its slot or closed |
| AppCycle.App.Open | crates/gpui/src/app.rs:1151-1184 | a window exists afterwards exactly if it could be opened; it was built and drawn once, under an id never used before |
| AppCycle.App.ReleaseEntity | crates/gpui/src/app.rs:1538-1547 | the entity is released and forgotten by the index, and then its release observers run in full |
| AppCycle.App.ForgetEntity | crates/gpui/src/app.rs:1541-1542 | a released entity has no invalidators and no current window |
| WindowIndex.ForgottenUntilRecorded | crates/gpui/src/app.rs:1014-1041 | and has none until a frame uses it again, or its creation is applied |
| AppCycle.App.ApplyNotifyGlobalObserversEffect | crates/gpui/src/app.rs:1603-1608 | the pending mark is gone before observers run |
| AppCycle.App.FlushEffects | crates/gpui/src/app.rs:1471-1527 | a flush applies all effects, those they cause included, in order, ends with nothing queued or dropped, and clears the arena only then |
| AppCycle.App.ReleaseDroppedEntities | crates/gpui/src/app.rs:1532-1549 | everything dropped, by the releases themselves too, is released, nothing dropped is left, and the observers of every release have run in full |
| AppCycle.App.ApplyNext | crates/gpui/src/app.rs:1475-1506 | the oldest effect is the next to be applied, and no flush starts inside it; a refresh makes all open windows dirty; a new entity whose window is gone for good and which somebody observes makes it fail |
| AppCycle.App.ApplyNotifyEffect | crates/gpui/src/app.rs:1574-1580 | the pending mark is gone before observers run |
| AppCycle.App.ApplyEmitEffect | crates/gpui/src/app.rs:1582-1592 | the event is still in the arena when it is read |
| AppCycle.App.ApplyRefreshEffect | crates/gpui/src/app.rs:1594-1601 | every open window is in its slot at that point, so every one becomes dirty |
| AppCycle.App.ApplyEntityCreatedEffect | crates/gpui/src/app.rs:1614-1639 | the observers there were at the start have their turns in order, but for those cancelled before, until one misses its window; the call fails exactly when the window is not open at one of these turns, so never if the window is open and no handler to come removes it |
| AppCycle.App.TakeTurn | crates/gpui/src/subscription.rs:118-134 | the next observer has its turn exactly if it is not cancelled |
| AppCycle.App.ObserveCreation | crates/gpui/src/app.rs:1627-1634 | one observer has its turn, and runs exactly if the window is open then |
| AppHistory.BodyDooms | crates/gpui/src/app.rs:1614-1639 | what code leaves in a window that closes can only fail for its observers, so if everything queued was applied without failure (`AppCycle.App.ApplyNext` states the failure) these observers are cancelled |
| AppHistory.DoomOutlasts | crates/gpui/src/app.rs:1614-1639 | if applying the oldest effect does not fail, every effect that could only fail is still queued, or its observer is cancelled |
| AppHistory.WindowsLater | crates/gpui/src/app.rs:1151-1156 | window ids are never given out again, a closed window stays closed, and one closes only after code has removed it |
| AppHistory.ObserversLater | crates/gpui/src/subscription.rs:70-90 | a subscription is only lost by cancelling it, and does not come back |
| AppHistory.ListedAfter | crates/gpui/src/subscription.rs:48-84 | a new subscription has a new id, and cancelling takes out exactly one |
| AppHistory.TurnsDecide | crates/gpui/src/app.rs:1625-1638 | what the recorded turns say about success |
| AppCycle.CloseObserved | crates/gpui/src/app.rs:1151-1184 | an update that opens a window with an observed new entity and closes it again succeeds only if the observer was cancelled, so it fails if no handler to come cancels it |
| AppCycle.FailingRun | crates/gpui/src/app.rs:1627-1634 | a run from the start that ends in that failure |
| Arena.AlignUp | crates/gpui/src/arena.rs:55-58 | the aligned address: aligned and less than one alignment away |
| Arena.AlignUpIsLeast | crates/gpui/src/arena.rs:55-58 | the least aligned address from the offset on |
| Arena.PlacedChunksOk | crates/gpui/src/arena.rs:113-148 | placing a block keeps chunks in order, and those above the current one empty |
| Arena.PlacedIsGood | crates/gpui/src/arena.rs:113-161 | the block is aligned, inside one chunk and disjoint from every block since the last clear |
| Arena.PlacedFitsIff | crates/gpui/src/arena.rs:139-148 | exactly when an allocation panics; never if size + align - 1 is at most the chunk size |
| Arena.RunWithSpareChunks | crates/gpui/src/arena.rs:102-148 | the addresses of a frame are the same with more chunks at hand |
| Arena.RepeatedFrameReusesMemory | crates/gpui/src/arena.rs:102-148 | a frame repeated after a clear gets the same addresses and no new chunk |
| Arena.BlocksFollowEachOther | crates/gpui/src/arena.rs:54-66 | the next block goes to the least aligned address after the last one, as long as the chunk has room |
| Arena.RunStaysInChunk | crates/gpui/src/arena.rs:54-66 | a run whose padded sizes fit in what is left of a chunk stays in that chunk and never panics |
| Arena.Arena.constructor | crates/gpui/src/arena.rs:87-96 | one empty chunk and a fresh token |
| Arena.Arena.Clear | crates/gpui/src/arena.rs:102-110 | drops exactly the values not dropped yet, once, in order of allocation; resets all chunks; no older box is valid |
| Arena.Arena.Alloc | crates/gpui/src/arena.rs:98-161 | a good block, or a panic that leaves the values as they were; the capacity does not shrink, and is the chunk size times one more than the highest chunk index ever used |
| Arena.Arena.Deref | crates/gpui/src/arena.rs:179-204 | a box is read exactly if there was no clear since its allocation, and then its value has not been dropped |
| Arena.Arena.Drop | crates/gpui/src/arena.rs:80-84 | afterwards every value ever allocated has been dropped exactly once |
| Resolution.FoundIsCanonical | crates/fs/src/fs.rs:1227-1283 | what canonicalize returns is the walk of that path: directories all the way, and no link at the end when links are followed |
| Resolution.CanonicalIsFixed | crates/fs/src/fs.rs:1227-1283 | canonicalizing the result returns it unchanged |
| Resolution.ResolveInTwoParts | crates/fs/src/fs.rs:1240-1275 | a path may be replaced, up to any point, by what that part resolves to |
| Resolution.MissingInTwoParts | crates/fs/src/fs.rs:1255-1275 | and if that part leads nowhere so does the whole |
| Resolution.MoreFuel | crates/fs/src/fs.rs:1231-1276 | a resolution that ends does not depend on the bound on links |
| Resolution.LinkIsItsTarget | crates/fs/src/fs.rs:1263-1274 | a link that is not the end of a path, or is to be followed, stands for its target, which starts where the link is |
| Resolution.DotsMean | crates/fs/src/fs.rs:1245-1252 | `.` changes nothing, and `..` goes to the directory above the one reached so far |
| Resolution.VacantSetKeepsResolution | crates/fs/src/fs.rs:1336-1349 | an entry put where nothing was changes no successful resolution |
| Resolution.PutFileKeepsResolution | crates/fs/src/fs.rs:1470-1527 | nor does a file put where a file was |
| Resolution.Canonicalize | crates/fs/src/fs.rs:1227-1283 | the loop with its entry stack computes the recursive resolution |
| FakeTree.WalkAfterSet | crates/fs/src/fs.rs:1336-1349 | what is at every location after one is written |
| FakeTree.SetsCommute | crates/fs/src/fs.rs:1336-1349 | writes at unrelated locations commute |
| Inodes.PutNewKeepsUnique | crates/fs/src/fs.rs:1221-1225 | an entry with the next number, put anywhere, keeps inodes distinct and below the counter |
| Inodes.DiscardKeepsUnique | crates/fs/src/fs.rs:2117-2127 | so does moving an entry to the trash |
| Inodes.RestoreKeepsUnique | crates/fs/src/fs.rs:2337-2378 | so does restoring, which drops every other trash entry with the same key |
| Inodes.MoveKeepsUniqueIff | crates/fs/src/fs.rs:2015-2056 | a move done as copy and remove keeps them distinct exactly when at most one copy of what has an inode is left |
| FakeFs.NormalizedIsNormal | crates/util/src/util.rs:763-787 | a normalized path is names after an optional root |
| FakeFs.NormalIsFixed | crates/util/src/util.rs:763-787 | and normalizing it again changes nothing |
| FakeFs.NormalizingIsResolvingWithoutLinks | crates/util/src/util.rs:761-787 | where no link is met, normalizing agrees with following the path in the tree |
| FakeFs.NormalizePath | crates/util/src/util.rs:763-787 | the loop computes the normalized path |
| FakeFsEffects.NormalizingRules | crates/util/src/util.rs:763-787 | the rules that take every path to its normal form: `.` goes, `..` goes with the name before it or at the start, and a root starts over |
| FakeFs.SlotForAbsolute | crates/fs/src/fs.rs:1336-1349 | a canonical path writes to the place it names |
| FakeFsEffects.SlotIff | crates/fs/src/fs.rs:1336-1349 | a path has a slot exactly if it ends in a name and the rest of it leads to a directory |
| FakeFsRuns.OtherStepsKeepUnique | crates/fs/src/fs.rs:1419-1527 | every operation but rename keeps inodes distinct and below the counter, whether it succeeds or fails |
| FakeFsRuns.RenameKeepsUniqueIff | crates/fs/src/fs.rs:2004-2064 | a completed rename keeps inodes distinct exactly when it is clean |
| FakeFsRuns.VacantMoveIsClean | crates/fs/src/fs.rs:2031-2046 | a rename to where nothing was is clean |
| FakeFsRuns.CanonicalMoveIsClean | crates/fs/src/fs.rs:2015-2056 | a rename of a canonical path is clean, whatever it overwrites |
| FakeFsRuns.RunsKeepInodesUnique | crates/fs/src/fs.rs:1908-2130 | after every run of creates, writes, copies, removes, trashes, restores and clean renames inodes in tree and trash are distinct and below the counter |
| FakeFsRuns.RenameThereAndBack | crates/fs/src/fs.rs:2004-2064 | a rename to an empty place outside the entry is undone by the rename back |
| FakeFsRuns.TrashThenRestore | crates/fs/src/fs.rs:2106-2130 | trash then restore gives back the same store |
| FakeFsRuns.WriteThenRead | crates/fs/src/fs.rs:1470-1540 | a write that succeeds is read back through the same path, and away from the file nothing has changed |
| FakeFsRuns.TouchThenFound | crates/fs/src/fs.rs:1419-1445 | a touched path leads to what was there, or else to an empty file, and nothing beside it changed |
| FakeFsRuns.LinkIsFoundIff | crates/fs/src/fs.rs:1973-1991 | the path of a new link leads to the link exactly if its way does not meet the link, or goes on from the target back to the directory of the link; nothing beside it changed |
| FakeFsRuns.OneMoreName | crates/fs/src/fs.rs:1240-1275 | a path with one more name leads to the entry of that name in the directory that the rest leads to |
| FakeFsRuns.CreateIsFoundIff | crates/fs/src/fs.rs:1941-1971 | a created file is empty, without overwrite an existing entry stays; the path leads to it exactly unless an overwrite met itself and does not lead on to the same place |
| FakeFsRuns.OverwriteIsFoundIff | crates/fs/src/fs.rs:1941-1971 | where no link has a target with `..`: exactly unless the overwritten entry is on its own way |
| FakeFsRuns.FileStillLeadsIff | crates/fs/src/fs.rs:1255-1275 | a way that meets the slot of a file leads nowhere, without `..` in links |
| FakeFsRuns.CreateDirThenFound | crates/fs/src/fs.rs:1908-1939 | after success the path leads to a directory, unless a file or a link was there, and nothing but directories was added |
| FakeFsRuns.PutIsFoundIff | crates/fs/src/fs.rs:1336-1349 | what is put at the slot of a path is found by that path exactly when the way does not meet the slot, or the rest of the way leads from what was put back to the directory of the slot; everything beside it is as before |
| FakeFsRuns.CanonicalStillLeads | crates/fs/src/fs.rs:1336-1349 | a canonical path does not meet its own slot |
| FakeFsRuns.VacantStillLeads | crates/fs/src/fs.rs:1336-1349 | no way meets a slot where nothing was |
| FakeFsExample.LinkCanVanish | crates/fs/src/fs.rs:1973-1991 | a link put over a link that its own path goes through is not found by that path |
| Resolution.SetAndResolve | crates/fs/src/fs.rs:1227-1283 | after any write a path is resolved as before, up to where it first meets the written place, and from there on from what was written |
| Resolution.PlainMeetsDownward | crates/fs/src/fs.rs:1240-1275 | without `..` in links, from where a way meets a place it only goes further down |
| FakeFsRuns.CopyThenRead | crates/fs/src/fs.rs:2066-2100 | a copy to where nothing was has the contents of its source |
| FakeFsRuns.RemoveThenNotFound | crates/fs/src/fs.rs:1753-1825 | what was removed is not found any more, even if the path to it went through it |
| FakeFsRuns.PathLeadsToSlot | crates/fs/src/fs.rs:1336-1349 | the slot that a write uses is what resolving the path finds |
| FakeFsEffects.RemovalFailsIff | crates/fs/src/fs.rs:1753-1825 | a removal fails exactly if there is no place, nothing there and that is not ignored, a file where a directory was asked or the reverse, or a directory that is not empty without recursive; then nothing changes, and otherwise nothing away from the place |
| FakeFsEffects.RemovalTakesOne | crates/fs/src/fs.rs:1781-1783 | without recursive no other location loses its entry |
| FakeFsEffects.TrashingSucceedsIff | crates/fs/src/fs.rs:2106-2130 | what can be moved to the trash, under which key, and what else changes: nothing |
| FakeFsEffects.RestoringSucceedsIff | crates/fs/src/fs.rs:2337-2378 | a restore succeeds exactly if the key is in the trash and its place is free; the oldest entry comes back, the key leaves the trash, the rest stays in order |
| FakeFsEffects.IsDirPathIff | crates/fs/src/fs.rs:2213-2258 | a path is a directory exactly if it leads to one with links followed |
| FakeFsEffects.TouchEffect | crates/fs/src/fs.rs:1419-1445 | when a touch panics, and the one file it makes |
| FakeFsEffects.WriteEffect | crates/fs/src/fs.rs:1470-1527 | a write succeeds exactly where a file is or nothing; the file keeps its inode unless a new one is asked for, and nothing else changes |
| FakeFsEffects.LinkEffect | crates/fs/src/fs.rs:1973-1991 | a link takes the place of anything and uses no inode number |
| FakeFsEffects.CreateFileEffect | crates/fs/src/fs.rs:1941-1971 | when a file is created, and when what is there decides |
| FakeFsEffects.CopyEffect | crates/fs/src/fs.rs:2066-2100 | a copy needs a file to copy and a place; an existing target is left as it is |
| FakeFsEffects.DirsAreCreatedIff | crates/fs/src/fs.rs:1908-1939 | with no link on the way all directories are made exactly if no file is on the way; what was there stays, and nothing off the way is touched |
| FakeFsEffects.MoveFailsIff | crates/fs/src/fs.rs:2015-2046 | a rename fails exactly if there is nothing to move, no place for it, or something in its place and no leave for that; then nothing changes |
| FakeFsEffects.MoveEffect | crates/fs/src/fs.rs:2004-2064 | between unrelated places the entry is at its new place and gone from the old one; with ignore_if_exists alone the target stays and the source is gone all the same |
| FakeFsEffects.MoveToItself | crates/fs/src/fs.rs:2031-2056 | a rename of an entry to itself, where allowed, removes it |
| FakeFsEffects.MoveBelowItself | crates/fs/src/fs.rs:2031-2056 | a rename of a directory to a place below it removes it with everything in it |
| FakeFsEffects.RenameMakesParents | crates/fs/src/fs.rs:2010-2014 | with create_parents the directories above the new place are made first |
| FakeFsExample.BeforeIsReachable | crates/fs/src/fs.rs:1908-1990 | the store before the bad rename is reached from the empty filesystem |
| FakeFsExample.RenameCanRepeatInodes | crates/fs/src/fs.rs:2004-2064 | a rename that overwrites a link on its own old path completes and leaves two entries with one inode |
| FakeFsState.FakeFsState.constructor | crates/fs/src/fs.rs:1384-1405 | an empty root with inode 0, the next inode 1 and an empty trash |
| FakeFsState.FakeFsState.TryEntry | crates/fs/src/fs.rs:1285-1322 | the second walk reaches the resolved entry, without its panics or inner none; the entry is no link when links are followed |
| FakeFsState.FakeFsState.WritePath | crates/fs/src/fs.rs:1336-1349 | the slot a path stands for and what is in it, or a refusal |
| FakeFsState.FakeFsState.TouchPath | crates/fs/src/fs.rs:1419-1445 | the store after the call and whether it panics |
| FakeFsState.FakeFsState.WriteFileInternal | crates/fs/src/fs.rs:1470-1527 | a new file, or new contents under the old or a new inode; an error for anything but a file |
| FakeFsState.FakeFsState.CreateSymlink | crates/fs/src/fs.rs:1973-1991 | a link in place of whatever was there |
| FakeFsState.FakeFsState.CreateDir | crates/fs/src/fs.rs:1908-1939 | missing directories are made one by one, each step taking an inode number |
| FakeFsState.FakeFsState.CreateFile | crates/fs/src/fs.rs:1941-1971 | a new file, an overwrite, nothing or an error, by the options |
| FakeFsState.FakeFsState.CopyFile | crates/fs/src/fs.rs:2066-2100 | a new file with the contents of the source; an existing target is left as it is |
| FakeFsState.FakeFsState.RemoveInner | crates/fs/src/fs.rs:1753-1825 | what is removed, and when removal is refused |
| FakeFsState.FakeFsState.IsDir | crates/fs/src/fs.rs:2213-2258 | whether a path leads to a directory; the unreachable case for links is never met |
| FakeFsState.FakeFsState.MoveToTrash | crates/fs/src/fs.rs:2106-2130 | the removed entry is appended to the trash under its name and parent |
| FakeFsState.FakeFsState.RestoreFromTrash | crates/fs/src/fs.rs:2337-2378 | the first entry with the key goes back if its place is empty |
| FakeFsState.FakeFsState.FindInTrash | crates/fs/src/fs.rs:2340-2350 | the first entry with the key |
| FakeFsState.FakeFsState.RetainOthers | crates/fs/src/fs.rs:2366 | the trash without the key, in order |
| FakeFsState.FakeFsState.MoveEntry | crates/fs/src/fs.rs:2016-2056 | copy, then remove by looking the old path up again |
| FakeFsState.FakeFsState.Rename | crates/fs/src/fs.rs:2004-2064 | the whole call, parents included |
| VersionVector.NormalFormIsCanonical | crates/clock/src/clock.rs:96-101 | in normal form equality is agreement of get at every replica |
| VersionVector.ObservedAllIsPointwise | crates/clock/src/clock.rs:170-177 | in normal form observed_all is the pointwise order |
| VersionVector.ChangedSinceIsNotObserved | crates/clock/src/clock.rs:179-186 | changed_since(a, b) is the negation of observed_all(b, a) |
| VersionVector.ObservedAnyIsPointwise | crates/clock/src/clock.rs:164-168 | observed_any holds exactly when some replica known to the other is reached |
| VersionVector.ShortcutIsRightIff | crates/clock/src/clock.rs:170-177 | the length shortcut of observed_all is right for a vector, whatever it is compared with, exactly when the vector is in normal form |
| VersionVector.Observed | crates/clock/src/clock.rs:103-114 | observe keeps the normal form and raises one replica |
| VersionVector.Joined | crates/clock/src/clock.rs:120-131 | join keeps the normal form and is the pointwise maximum |
| VersionVector.Met | crates/clock/src/clock.rs:133-158 | meet keeps the normal form and is the pointwise minimum, with 0 as unobserved |
| VersionVector.JoinIsLeastUpperBound | crates/clock/src/clock.rs:120-131 | join is the least upper bound |
| VersionVector.JoinIsASemilattice | crates/clock/src/clock.rs:120-131 | join is commutative, associative and idempotent |
| VersionVector.JoinAbsorbsIff | crates/clock/src/clock.rs:120-131 | joining adds nothing exactly when all was observed |
| VersionVector.MeetIsCommutative | crates/clock/src/clock.rs:133-158 | meet is commutative |
| VersionVector.MeetIsAssociative | crates/clock/src/clock.rs:133-158 | meet is associative |
| VersionVector.MeetIsIdempotent | crates/clock/src/clock.rs:133-158 | meet is idempotent |
| VersionVector.MeetNeedsNoTrimming | crates/clock/src/clock.rs:146-157 | for vectors in normal form the truncation at the end of meet never removes anything |
| VersionVector.FromListIsMaximum | crates/clock/src/clock.rs:204-212 | collecting timestamps keeps the largest of each replica |
| VersionVector.FromListIgnoresOrder | crates/clock/src/clock.rs:204-212 | in any order |
| VersionVector.Global.Observe | crates/clock/src/clock.rs:103-114 | the normal form is kept, and the vector after the in-place update |
| VersionVector.Global.Join | crates/clock/src/clock.rs:120-131 | the normal form is kept, and the vector after the in-place update |
| VersionVector.Global.Meet | crates/clock/src/clock.rs:133-158 | the normal form is kept, and the vector after the two passes and the trimming loop |
| LamportRuns.LessIsStrictTotalOrder | crates/clock/src/clock.rs:214-221 | timestamps are totally ordered |
| LamportRuns.PackingIsAnOrderEmbedding | crates/clock/src/clock.rs:247-249 | as_u64 preserves and reflects the order and equality |
| LamportRuns.LamportClock.Tick | crates/clock/src/clock.rs:251-255 | the issued timestamp and the new clock |
| LamportRuns.LamportClock.Observe | crates/clock/src/clock.rs:257-259 | the clock passes every received timestamp |
| LamportRuns.OwnStampsIncrease | crates/clock/src/clock.rs:251-255 | the timestamps of one replica increase |
| LamportRuns.StampsAreUnique | crates/clock/src/clock.rs:251-259 | in every run of any number of replicas issued timestamps are distinct |
| LamportRuns.NoValueIsSkipped | crates/clock/src/clock.rs:251-259 | the value one below a clock is what it showed before its last change or what it received then |
| LamportRuns.HappensBeforeImpliesLess | crates/clock/src/clock.rs:214-259 | happens-before implies the timestamp order |
| LamportRuns.FedInOrder | crates/clock/src/clock.rs:160-162 | a vector fed one replica's timestamps in order has observed exactly those fed |
| LruCache.RecentIsUnique | crates/gpui/examples/image_gallery.rs:193-246 | at most one list is the most recent distinct keys of a history, newest first |
| LruCache.LastRequestsAreLast | crates/gpui/examples/image_gallery.rs:193-246 | the time of a key is its last request |
| LruCache.HitKeepsInStep | crates/gpui/examples/image_gallery.rs:204-214 | a hit keeps list and cache in step with the history |
| LruCache.StoreKeepsInStep | crates/gpui/examples/image_gallery.rs:216-230 | a miss keeps them in step, the evicted key being the least recent |
| LruCache.SimpleLruCache.Load | crates/gpui/examples/image_gallery.rs:193-246 | hit or miss, and for max_items at least 1 the list is the most recent distinct keys and the cache has the same keys, so the assertion and the expects hold |
| LruCache.SimpleLruCache.MoveToFront | crates/gpui/examples/image_gallery.rs:204-214 | the list after a hit |
| LruCache.SimpleLruCache.Store | crates/gpui/examples/image_gallery.rs:216-230 | the list, the cache and the evicted item after a miss |
| LruCache.SimpleLruCache.EvictOldest | crates/gpui/examples/image_gallery.rs:218-227 | exactly the oldest key leaves both structures |
| TextInput.Adjunction | crates/gpui/examples/input.rs:210-238 | for every boundary b and every k, from_utf16(k) <= b exactly when k <= to_utf16(b) |
| TextInput.FromUtf16IsMonotone | crates/gpui/examples/input.rs:210-223 | larger UTF-16 offsets convert to byte offsets at least as large |
| TextInput.ToUtf16IsMonotone | crates/gpui/examples/input.rs:225-238 | and larger byte offsets to UTF-16 offsets at least as large |
| TextInput.BytesRoundTrip | crates/gpui/examples/input.rs:210-246 | a byte boundary converts to UTF-16 and back unchanged |
| TextInput.UnitsRoundTrip | crates/gpui/examples/input.rs:210-246 | and so does the UTF-16 offset of a boundary to bytes and back |
| TextInput.MidPairRoundsUp | crates/gpui/examples/input.rs:210-223 | an offset inside a surrogate pair goes to the end of the character |
| TextInput.ToUtf16AtBoundary | crates/gpui/examples/input.rs:225-238 | a boundary converts to its UTF-16 offset |
| TextInput.SpliceThenSlice | crates/gpui/examples/input.rs:313-332 | after a replacement the new text is found where the old was, between boundaries |
| TextInput.SpliceKeepsTheRest | crates/gpui/examples/input.rs:326-328 | what stood before the range and what stood behind it is still there, on either side of the new text |
| TextEncoding.Utf8RoundTrip | crates/gpui/examples/input.rs:216-219 | the lengths counted are those of the shortest UTF-8 encoding, which decodes to the character |
| TextEncoding.Utf16RoundTrip | crates/gpui/examples/input.rs:216-219 | and of the UTF-16 encoding |
| TextEncoding.ByteOffsetsPointToCharacters | crates/gpui/examples/input.rs:225-238 | at the byte offset of a character, in the encoded text, that character is read |
| TextEncoding.UnitOffsetsPointToCharacters | crates/gpui/examples/input.rs:210-223 | and so at its UTF-16 offset |
| TextInput.Field.OffsetFromUtf16 | crates/gpui/examples/input.rs:210-223 | the loop returns the least boundary at or after the offset |
| TextInput.Field.OffsetToUtf16 | crates/gpui/examples/input.rs:225-238 | the loop returns the UTF-16 offset of the least boundary at or after the byte offset |
| TextInput.Field.RangeToUtf16 | crates/gpui/examples/input.rs:240-242 | both ends are converted, and an ordered range stays ordered |
| TextInput.Field.RangeFromUtf16 | crates/gpui/examples/input.rs:244-246 | both ends are converted, and an ordered range stays one between boundaries |
| TextInput.Field.ReplaceTextInRange | crates/gpui/examples/input.rs:313-332 | which range is replaced, the text after it and the cursor behind the new text |

## Left out

- Rounding of `f32`: rectangles are over `real`, with the strict overlap and corner-wise union of geometry.rs.
- Machine widths of orders, ids, indices and inodes: they are natural numbers. An order is at most the number of
  inserts (`Layering.PileBelow`), a tree has fewer than twice as many nodes as inserts, and ids and inodes are counters.
- LamportRuns.AsU64: models the packing as `value * 2^32 + replica`, because a shift by 32 and `or` of separate bit ranges is that sum; timestamps outside 32 and 16 bits are excluded by its precondition, as by the source's types.
- LamportRuns.LamportClock.Tick: does not model 32-bit wrap-around of the clock, because a clock that wraps issues timestamps twice; the laws of runs are those of clocks that do not.
- The fixed array in `NodeChildren` is a sequence of at most 12; the unused tail has no meaning in the source.
- Arena addresses are numbers, values are ids, and construction and drop code of values is not modelled; the alignment is any positive number.
- The notify backends, filesystem type detection and logging: the backend is an arbitrary answer, whether native watching is recursive is a parameter, and time is a number.
- `util::extend_sorted` is not part of this model, so `enqueue_path_events` as a whole is not covered.
- GlobalWatcher.Watcher.Remove: states the equality with OS watches only for calls one after another, because the backend call is outside the lock.
- `App::shutdown`, focus handles, quitting, platform calls, menus and assets, and drawing windows at the end of a flush in test builds.
- Subscriber sets: all handlers of one effect run as one script, except observers of new entities, who are listed, subscribe and are cancelled one by one. Entities reserved but never inserted are not told apart from others.
- AppCycle.App.FlushEffects: handlers run scripts from a finite supply, because a flush ends only if its handlers stop causing effects; every flush that ends is covered.
- AppCycle.App.RunAction: `with_window` is modelled as `InWindow` with the window it finds.
- Resolution.Canonicalize: takes a bound on the links followed, because links that form a cycle make the source loop for ever; results do not depend on the bound (`Resolution.MoreFuel`). Windows path prefixes are not modelled.
- Modification times, event emission, call counters, file handles, pausing of events and the combined calls `save`, `write` and `atomic_write` (a `create_dir` of the parent and a write) of the in-memory filesystem.
- FakeFsState.FakeFsState.Rename: is stated without locks, because each critical section runs by itself in a sequence of completed calls; a panic or an unending resolution ends a run.
- `SystemWindowTabController`, `RealFs`, `replace_and_mark_text_in_range`, grapheme boundaries, selection and mouse code, rendering, image loading tasks (opaque values) and `ReplicaId` constants.
- `Global::most_recent`, `Global::iter` and the formatting of clocks.
