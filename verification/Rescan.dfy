/** Merging a batch of path events into those still pending, without redundant rescans. */
module Rescan {
  import opened Paths
  import opened Wrappers
  import opened Sublists

  datatype PathEventKind = Removed | Created | Changed | Rescan

  datatype PathEvent = PathEvent(path: Path, kind: Option<PathEventKind>) {
    predicate IsRescan() {
      kind == Some(Rescan)
    }
  }

  /** A rescan below another path's rescan is redundant. */
  predicate IsCoveredRescan(kind: Option<PathEventKind>, path: Path, ancestor: Path) {
    kind == Some(Rescan) && path != ancestor && ancestor <= path
  }

  function RescanPaths(events: seq<PathEvent>): (r: seq<Path>)
    ensures forall p :: p in r <==> PathEvent(p, Some(Rescan)) in events
  {
    if events == [] then []
    else
      assert events == [events[0]] + events[1..];
      (if events[0].IsRescan() then [events[0].path] else []) + RescanPaths(events[1..])
  }

  /** No strict ancestor of `p` is in `s`. */
  ghost predicate Topmost(s: seq<Path>, p: Path) {
    forall a :: a in s ==> !(a < p)
  }

  predicate HasStrictAncestor(s: seq<Path>, p: Path) {
    exists k :: 0 <= k < |s| && p != s[k] && s[k] <= p
  }

  lemma HasStrictAncestorMeans(s: seq<Path>, p: Path)
    ensures HasStrictAncestor(s, p) <==> !Topmost(s, p)
  {
    if HasStrictAncestor(s, p) {
      var k :| 0 <= k < |s| && p != s[k] && s[k] <= p;
      assert s[k] in s && s[k] < p;
    }
    if !Topmost(s, p) {
      var a :| a in s && a < p;
      var k :| 0 <= k < |s| && s[k] == a;
      assert p != s[k] && s[k] <= p;
    }
  }

  lemma {:induction false} TopmostAncestor(s: seq<Path>, p: Path) returns (m: Path)
    requires p in s
    ensures m in s && m <= p && Topmost(s, m)
    decreases |p|
  {
    if Topmost(s, p) {
      m := p;
    } else {
      var a :| a in s && a < p;
      m := TopmostAncestor(s, a);
    }
  }

  /** The rescans of the batch that are kept: nothing above them is rescanned anyway. */
  ghost predicate Survives(pending: seq<PathEvent>, batch: seq<PathEvent>, r: Path) {
    && r in RescanPaths(batch)
    && Topmost(RescanPaths(batch), r)
    && Topmost(RescanPaths(pending), r)
  }

  predicate CoveredByPending(pending: seq<PathEvent>, p: Path) {
    exists i :: 0 <= i < |pending| && IsCoveredRescan(pending[i].kind, p, pending[i].path)
  }

  function RetainUncovered(paths: seq<Path>, pending: seq<PathEvent>): (r: seq<Path>)
    ensures forall p :: p in r <==> p in paths && !CoveredByPending(pending, p)
  {
    if paths == [] then []
    else
      assert paths == [paths[0]] + paths[1..];
      (if CoveredByPending(pending, paths[0]) then [] else [paths[0]]) + RetainUncovered(paths[1..], pending)
  }

  /** One of the kept rescans makes the event redundant. */
  predicate Superseded(event: PathEvent, rescans: seq<Path>) {
    exists i :: 0 <= i < |rescans| && (event.path == rescans[i] || IsCoveredRescan(event.kind, event.path, rescans[i]))
  }

  function RetainPending(pending: seq<PathEvent>, rescans: seq<Path>): (r: seq<PathEvent>)
    ensures forall e :: e in r <==> e in pending && !Superseded(e, rescans)
  {
    if pending == [] then []
    else
      assert pending == [pending[0]] + pending[1..];
      (if Superseded(pending[0], rescans) then [] else [pending[0]]) + RetainPending(pending[1..], rescans)
  }

  function RetainBatch(batch: seq<PathEvent>, rescans: seq<Path>): (r: seq<PathEvent>)
    ensures forall e :: e in r <==> e in batch && (e.IsRescan() ==> e.path in rescans)
  {
    if batch == [] then []
    else
      assert batch == [batch[0]] + batch[1..];
      (if batch[0].IsRescan() && batch[0].path !in rescans then [] else [batch[0]]) + RetainBatch(batch[1..], rescans)
  }

  function TopmostOf(paths: seq<Path>, all: seq<Path>): (r: seq<Path>)
    ensures forall p :: p in r <==> p in paths && !HasStrictAncestor(all, p)
  {
    if paths == [] then []
    else
      assert paths == [paths[0]] + paths[1..];
      (if HasStrictAncestor(all, paths[0]) then [] else [paths[0]]) + TopmostOf(paths[1..], all)
  }

  /** The rescans of the batch that are kept. */
  function Surviving(pending: seq<PathEvent>, batch: seq<PathEvent>): seq<Path> {
    RetainUncovered(TopmostOf(RescanPaths(batch), RescanPaths(batch)), pending)
  }

  lemma SurvivingSurvive(pending: seq<PathEvent>, batch: seq<PathEvent>, r: Path)
    ensures r in Surviving(pending, batch) <==> Survives(pending, batch, r)
  {
    HasStrictAncestorMeans(RescanPaths(batch), r);
    CoveredMeansNotTopmost(pending);
  }

  /** The pending events after coalescing. */
  function CoalescedPending(pending: seq<PathEvent>, batch: seq<PathEvent>): seq<PathEvent> {
    RetainPending(pending, Surviving(pending, batch))
  }

  /** The events of the batch after coalescing. */
  function CoalescedBatch(pending: seq<PathEvent>, batch: seq<PathEvent>): seq<PathEvent> {
    RetainBatch(batch, Surviving(pending, batch))
  }

  lemma {:induction false} RetainingDependsOnMembers(pending: seq<PathEvent>, r: seq<Path>, s: seq<Path>)
    requires forall p :: p in r <==> p in s
    ensures RetainPending(pending, r) == RetainPending(pending, s) && RetainBatch(pending, r) == RetainBatch(pending, s)
  {
    if pending != [] {
      RetainingDependsOnMembers(pending[1..], r, s);
      assert Superseded(pending[0], r) <==> Superseded(pending[0], s) by {
        SupersededByMember(pending[0], r, s);
        SupersededByMember(pending[0], s, r);
      }
    }
  }

  lemma SupersededByMember(e: PathEvent, r: seq<Path>, s: seq<Path>)
    requires forall p :: p in r ==> p in s
    ensures Superseded(e, r) ==> Superseded(e, s)
  {
    if Superseded(e, r) {
      var i :| 0 <= i < |r| && (e.path == r[i] || IsCoveredRescan(e.kind, e.path, r[i]));
      assert r[i] in s;
      var k :| 0 <= k < |s| && s[k] == r[i];
      assert e.path == s[k] || IsCoveredRescan(e.kind, e.path, s[k]);
    }
  }

  method CoalescePendingRescans(pending: seq<PathEvent>, batch: seq<PathEvent>)
    returns (pending': seq<PathEvent>, batch': seq<PathEvent>)
    ensures pending' == CoalescedPending(pending, batch) && batch' == CoalescedBatch(pending, batch)
  {
    pending', batch' := pending, batch;
    var newRescans := RescanPaths(batch);
    if newRescans == [] {
      NothingToRetain(pending);
      NoRescansToRetain(batch, []);
      assert Surviving(pending, batch) == [];
      return;
    }
    SortedIsSorted(newRescans);
    newRescans := Sorted(newRescans);
    var deduped: seq<Path> := [];
    for i := 0 to |newRescans|
      invariant forall p :: p in deduped <==> p in newRescans[..i] && Topmost(newRescans, p)
    {
      var path := newRescans[i];
      assert newRescans[..i + 1] == newRescans[..i] + [path];
      if !Topmost(newRescans, path) {
        var m := TopmostAncestor(newRescans, path);
        SortedAncestorIsEarlier(newRescans, m, i);
        assert m in deduped;
      }
      HasStrictAncestorMeans(deduped, path);
      assert Topmost(newRescans, path) ==> Topmost(deduped, path) by {
        assert forall d :: d in deduped ==> d in newRescans;
      }
      if !HasStrictAncestor(deduped, path) {
        deduped := deduped + [path];
      }
    }
    assert newRescans[..|newRescans|] == newRescans;
    deduped := RetainUncovered(deduped, pending);
    CoveredMeansNotTopmost(pending);
    forall p
      ensures p in deduped <==> p in Surviving(pending, batch)
    {
      SurvivingSurvive(pending, batch, p);
    }
    RetainingDependsOnMembers(pending, deduped, Surviving(pending, batch));
    RetainingDependsOnMembers(batch, deduped, Surviving(pending, batch));
    if deduped != [] {
      pending' := RetainPending(pending, deduped);
    } else {
      NothingToRetain(pending);
    }
    batch' := RetainBatch(batch, deduped);
  }

  lemma SortedAncestorIsEarlier(s: seq<Path>, a: Path, i: nat)
    requires IsSorted(s) && i < |s| && a in s && a < s[i]
    ensures a in s[..i]
  {
    var k :| 0 <= k < |s| && s[k] == a;
    AncestorsSortFirst(a, s[i]);
    assert k < i ==> s[..i][k] == a;
  }

  lemma CoveredMeansNotTopmost(pending: seq<PathEvent>)
    ensures forall p :: CoveredByPending(pending, p) <==> !Topmost(RescanPaths(pending), p)
  {
    forall p
      ensures CoveredByPending(pending, p) <==> !Topmost(RescanPaths(pending), p)
    {
      if CoveredByPending(pending, p) {
        var i :| 0 <= i < |pending| && IsCoveredRescan(pending[i].kind, p, pending[i].path);
      }
      if !Topmost(RescanPaths(pending), p) {
        var a :| a in RescanPaths(pending) && a < p;
      }
    }
  }

  lemma {:induction false} NothingToRetain(pending: seq<PathEvent>)
    ensures RetainPending(pending, []) == pending
  {
    if pending != [] {
      NothingToRetain(pending[1..]);
    }
  }

  lemma {:induction false} NoRescansToRetain(batch: seq<PathEvent>, rescans: seq<Path>)
    requires RescanPaths(batch) == []
    ensures RetainBatch(batch, rescans) == batch
  {
    if batch != [] {
      NoRescansToRetain(batch[1..], rescans);
    }
  }

  // ---------- What coalescing promises ----------

  /** A pending rescan stays, or gives way to a surviving one at or above it. */
  lemma PendingRescanIsCovered(pending: seq<PathEvent>, batch: seq<PathEvent>, e: PathEvent) returns (cover: PathEvent)
    requires e in pending && e.IsRescan()
    ensures cover in CoalescedPending(pending, batch) || cover in CoalescedBatch(pending, batch)
    ensures cover.IsRescan() && cover.path <= e.path
  {
    var rescans := Surviving(pending, batch);
    if Superseded(e, rescans) {
      var i :| 0 <= i < |rescans| && (e.path == rescans[i] || IsCoveredRescan(e.kind, e.path, rescans[i]));
      cover := PathEvent(rescans[i], Some(Rescan));
      assert rescans[i] in rescans;
      SurvivingSurvive(pending, batch, rescans[i]);
    } else {
      cover := e;
    }
  }

  /** Every rescan asked for is still done, by itself or by one above it. */
  lemma EveryRescanIsCovered(pending: seq<PathEvent>, batch: seq<PathEvent>, e: PathEvent) returns (cover: PathEvent)
    requires (e in pending || e in batch) && e.IsRescan()
    ensures cover in CoalescedPending(pending, batch) || cover in CoalescedBatch(pending, batch)
    ensures cover.IsRescan() && cover.path <= e.path
  {
    if e in pending {
      cover := PendingRescanIsCovered(pending, batch, e);
    } else {
      var top := TopmostAncestor(RescanPaths(batch), e.path);
      if Topmost(RescanPaths(pending), top) {
        cover := PathEvent(top, Some(Rescan));
        SurvivingSurvive(pending, batch, top);
      } else {
        var above := PathEvent(PickAncestor(RescanPaths(pending), top), Some(Rescan));
        cover := PendingRescanIsCovered(pending, batch, above);
        assert cover.path <= above.path <= top <= e.path;
      }
    }
  }

  ghost function PickAncestor(s: seq<Path>, p: Path): (a: Path)
    requires !Topmost(s, p)
    ensures a in s && a < p
  {
    var a :| a in s && a < p;
    a
  }

  /** No rescan is strictly below another. */
  ghost predicate NoneRedundant(events: seq<PathEvent>) {
    forall a, b :: a in events && b in events && a.IsRescan() && b.IsRescan() ==> !(a.path < b.path)
  }

  /** If no pending rescan was redundant, no rescan in the combined result is. */
  lemma NoRedundantRescans(pending: seq<PathEvent>, batch: seq<PathEvent>)
    requires NoneRedundant(pending)
    ensures NoneRedundant(CoalescedPending(pending, batch) + CoalescedBatch(pending, batch))
  {
    var pending', batch' := CoalescedPending(pending, batch), CoalescedBatch(pending, batch);
    forall e: PathEvent, f: PathEvent | e in pending' + batch' && f in pending' + batch' && e.IsRescan() && f.IsRescan()
      ensures !(e.path < f.path)
    {
      NotRedundant(pending, batch, e, f);
    }
  }

  lemma NotRedundant(pending: seq<PathEvent>, batch: seq<PathEvent>, e: PathEvent, f: PathEvent)
    requires NoneRedundant(pending) && e.IsRescan() && f.IsRescan()
    requires e in CoalescedPending(pending, batch) || e in CoalescedBatch(pending, batch)
    requires f in CoalescedPending(pending, batch) || f in CoalescedBatch(pending, batch)
    ensures !(e.path < f.path)
  {
    var rescans := Surviving(pending, batch);
    if f in CoalescedBatch(pending, batch) {
      SurvivingSurvive(pending, batch, f.path);
      assert e in pending ==> e.path in RescanPaths(pending);
      assert e in batch ==> e.path in RescanPaths(batch);
    } else if e in CoalescedBatch(pending, batch) {
      assert !Superseded(f, rescans);
      var i :| 0 <= i < |rescans| && rescans[i] == e.path;
      assert !IsCoveredRescan(f.kind, f.path, rescans[i]);
    }
  }

  ghost function NonRescans(events: seq<PathEvent>): seq<PathEvent> {
    if events == [] then []
    else (if events[0].IsRescan() then [] else [events[0]]) + NonRescans(events[1..])
  }

  /** The other events of the batch all stay, in order. */
  lemma {:induction false} BatchKeepsNonRescans(batch: seq<PathEvent>, rescans: seq<Path>)
    ensures NonRescans(RetainBatch(batch, rescans)) == NonRescans(batch)
  {
    if batch != [] {
      BatchKeepsNonRescans(batch[1..], rescans);
      var rest := RetainBatch(batch[1..], rescans);
      assert ([batch[0]] + rest)[1..] == rest;
      assert [] + rest == rest;
    }
  }

  lemma {:induction false} RetainPendingPicks(pending: seq<PathEvent>, rescans: seq<Path>) returns (positions: seq<nat>)
    ensures Picks(pending, positions, RetainPending(pending, rescans))
    ensures forall k :: 0 <= k < |pending| ==> (k in positions <==> !Superseded(pending[k], rescans))
  {
    if pending == [] {
      positions := [];
    } else {
      var rest := RetainPendingPicks(pending[1..], rescans);
      PickBehind(pending, rest, RetainPending(pending[1..], rescans), !Superseded(pending[0], rescans));
      positions := (if Superseded(pending[0], rescans) then [] else [0]) + Behind(rest);
      assert forall k :: 0 < k < |pending| ==> pending[k] == pending[1..][k - 1];
    }
  }

  lemma {:induction false} RetainBatchPicks(batch: seq<PathEvent>, rescans: seq<Path>) returns (positions: seq<nat>)
    ensures Picks(batch, positions, RetainBatch(batch, rescans))
    ensures forall k :: 0 <= k < |batch| ==> (k in positions <==> !batch[k].IsRescan() || batch[k].path in rescans)
  {
    if batch == [] {
      positions := [];
    } else {
      var kept := !batch[0].IsRescan() || batch[0].path in rescans;
      var rest := RetainBatchPicks(batch[1..], rescans);
      var tail := RetainBatch(batch[1..], rescans);
      assert RetainBatch(batch, rescans) == (if kept then [batch[0]] else []) + tail;
      PickBehind(batch, rest, tail, kept);
      positions := (if kept then [0] else []) + Behind(rest);
      assert forall k :: 0 < k < |batch| ==> batch[k] == batch[1..][k - 1];
    }
  }

  /** A surviving rescan has the path of the event, or the event is a rescan below it. */
  ghost predicate GivesWay(pending: seq<PathEvent>, batch: seq<PathEvent>, e: PathEvent) {
    exists r :: Survives(pending, batch, r) && (e.path == r || (e.IsRescan() && r < e.path))
  }

  lemma SupersededIff(pending: seq<PathEvent>, batch: seq<PathEvent>, e: PathEvent)
    ensures Superseded(e, Surviving(pending, batch)) <==> GivesWay(pending, batch, e)
  {
    var rescans := Surviving(pending, batch);
    if Superseded(e, rescans) {
      var i :| 0 <= i < |rescans| && (e.path == rescans[i] || IsCoveredRescan(e.kind, e.path, rescans[i]));
      SurvivingSurvive(pending, batch, rescans[i]);
      assert rescans[i] in rescans;
    }
    if GivesWay(pending, batch, e) {
      var r :| Survives(pending, batch, r) && (e.path == r || (e.IsRescan() && r < e.path));
      SurvivingSurvive(pending, batch, r);
      var i :| 0 <= i < |rescans| && rescans[i] == r;
      assert e.path == rescans[i] || IsCoveredRescan(e.kind, e.path, rescans[i]);
    }
  }

  /**
   What stays keeps its order and its repetitions: of the pending events those with no surviving rescan at their path
   nor, for a rescan, above it; of the batch all but the rescans that do not survive.
   */
  lemma CoalescingPicks(pending: seq<PathEvent>, batch: seq<PathEvent>) returns (stay: seq<nat>, join: seq<nat>)
    ensures Picks(pending, stay, CoalescedPending(pending, batch)) && Picks(batch, join, CoalescedBatch(pending, batch))
    ensures forall k :: 0 <= k < |pending| ==> (k in stay <==> !GivesWay(pending, batch, pending[k]))
    ensures forall k :: 0 <= k < |batch| ==> (k in join <==> !batch[k].IsRescan() || Survives(pending, batch, batch[k].path))
  {
    stay := RetainPendingPicks(pending, Surviving(pending, batch));
    join := RetainBatchPicks(batch, Surviving(pending, batch));
    forall k | 0 <= k < |pending|
      ensures k in stay <==> !GivesWay(pending, batch, pending[k])
    {
      SupersededIff(pending, batch, pending[k]);
    }
    forall k | 0 <= k < |batch|
      ensures k in join <==> !batch[k].IsRescan() || Survives(pending, batch, batch[k].path)
    {
      SurvivingSurvive(pending, batch, batch[k].path);
    }
  }

  /** A pending event of another kind gives way exactly when a rescan of its own path comes through. */
  lemma PendingNonRescanStaysIff(pending: seq<PathEvent>, batch: seq<PathEvent>, e: PathEvent)
    requires e in pending && !e.IsRescan()
    ensures e in CoalescedPending(pending, batch) <==> PathEvent(e.path, Some(Rescan)) !in CoalescedBatch(pending, batch)
  {
    var rescans := Surviving(pending, batch);
    SurvivingSurvive(pending, batch, e.path);
    if e.path in rescans {
      var i :| 0 <= i < |rescans| && rescans[i] == e.path;
      assert Superseded(e, rescans);
    }
  }
}
