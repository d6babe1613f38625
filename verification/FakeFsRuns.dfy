/**
 What the operations of the in-memory filesystem keep, over every run, and what undoes what.
 */
module FakeFsRuns {
  import opened Paths
  import opened Wrappers
  import opened FakeTree
  import opened Resolution
  import opened Inodes
  import opened FakeFs

  // ---------- Operations that place new entries ----------

  lemma FileIsChildless(inode: nat, content: Content)
    ensures Childless(File(inode, content))
  {
  }

  /** Rewriting a file in place keeps all inodes; giving it the next one is like putting a new file there. */
  lemma RewriteKeepsUnique(s: Store, p: Path, content: Content)
    requires UniqueInodes(s) && IsSlot(s.root, p) && Walk(s.root, p).Some? && Walk(s.root, p).value.File?
    ensures UniqueInodes(Skipped(PutAt(s, p, File(Walk(s.root, p).value.inode, content))))
  {
    var e := File(Walk(s.root, p).value.inode, content);
    var s' := PutAt(s, p, e);
    FileIsChildless(e.inode, content);
    SetKeepsInode(s.root, p, Some(e));
    forall a | InodeOf(s', a).Some?
      ensures InodeOf(s, a) == InodeOf(s', a)
    {
      if a.InTree? {
        InodeAfterSet(s.root, p, Some(e), a.path);
        assert p <= a.path && |p| == |a.path| ==> p == a.path;
      }
    }
    FromOrigins(s, s', a => a);
    SkipKeepsUnique(s', s.nextInode + 1);
  }

  lemma WriteKeepsUnique(s: Store, path: seq<Component>, content: Content, recreateInode: bool, links: nat)
    requires UniqueInodes(s)
    ensures UniqueInodes(Written(s, path, content, recreateInode, links).store)
  {
    SkipKeepsUnique(s, s.nextInode + 1);
    var a := SlotFor(s.root, path, links);
    if a.Slot? {
      var here := Walk(s.root, a.path);
      FileIsChildless(s.nextInode, content);
      if here.Some? && here.value.File? && !recreateInode {
        RewriteKeepsUnique(s, a.path, content);
      } else {
        PutNewKeepsUnique(s, a.path, File(s.nextInode, content));
      }
    }
  }

  lemma LinkKeepsUnique(s: Store, path: seq<Component>, target: seq<Component>, links: nat)
    requires UniqueInodes(s)
    ensures UniqueInodes(Linked(s, path, target, links).store)
  {
    var a := SlotFor(s.root, path, links);
    if a.Slot? {
      var s' := PutAt(s, a.path, Symlink(target));
      SetKeepsInode(s.root, a.path, Some(Symlink(target)));
      forall b | InodeOf(s', b).Some?
        ensures InodeOf(s, b) == InodeOf(s', b)
      {
        if b.InTree? {
          InodeAfterSet(s.root, a.path, Some(Symlink(target)), b.path);
        }
      }
      FromOrigins(s, s', b => b);
    }
  }

  lemma PutOrSkipKeepsUnique(s: Store, p: Path, e: Entry)
    requires UniqueInodes(s) && IsSlot(s.root, p) && Childless(e) && Inode(e) == Some(s.nextInode)
    ensures UniqueInodes(Skipped(s)) && UniqueInodes(Skipped(PutAt(s, p, e)))
  {
    SkipKeepsUnique(s, s.nextInode + 1);
    PutNewKeepsUnique(s, p, e);
  }

  lemma {:induction false} DirsKeepUnique(s: Store, above: seq<Component>, path: seq<Component>, links: nat)
    requires UniqueInodes(s)
    ensures UniqueInodes(DirsCreated(s, above, path, links).store)
    decreases |path|
  {
    if path != [] {
      var current := above + [path[0]];
      if path[0].RootDir? {
        DirsKeepUnique(s, current, path[1..], links);
      } else {
        SkipKeepsUnique(s, s.nextInode + 1);
        var a := SlotFor(s.root, current, links);
        if a.Slot? {
          PutOrSkipKeepsUnique(s, a.path, Dir(s.nextInode, map[]));
          DirsKeepUnique(Skipped(if Walk(s.root, a.path).None? then PutAt(s, a.path, Dir(s.nextInode, map[])) else s),
                         current, path[1..], links);
        }
      }
    }
  }

  lemma NewFileKeepsUnique(s: Store, path: seq<Component>, content: Content, links: nat)
    requires UniqueInodes(s)
    ensures UniqueInodes(Skipped(s))
    ensures SlotFor(s.root, path, links).Slot? ==>
              UniqueInodes(Skipped(PutAt(s, SlotFor(s.root, path, links).path, File(s.nextInode, content))))
  {
    SkipKeepsUnique(s, s.nextInode + 1);
    var a := SlotFor(s.root, path, links);
    if a.Slot? {
      FileIsChildless(s.nextInode, content);
      PutOrSkipKeepsUnique(s, a.path, File(s.nextInode, content));
    }
  }

  lemma CopyKeepsUnique(s: Store, source: seq<Component>, target: seq<Component>, overwrite: bool, ignoreIfExists: bool, links: nat)
    requires UniqueInodes(s)
    ensures UniqueInodes(Copied(s, source, target, overwrite, ignoreIfExists, links).store)
  {
    SkipKeepsUnique(s, s.nextInode + 1);
    var r := Resolve(s.root, None, Normalized(source), true, links);
    if r.Found? && Walk(s.root, r.names).Some? && Walk(s.root, r.names).value.File? {
      NewFileKeepsUnique(s, target, Walk(s.root, r.names).value.content, links);
    }
  }

  // ---------- Renaming ----------

  /** After the parents are made, at most one copy of an entry with an inode is left by the move. */
  ghost predicate MoveIsClean(s: Store, from: seq<Component>, to: seq<Component>, overwrite: bool, links: nat) {
    var p, q := SlotFor(s.root, from, links), SlotFor(s.root, to, links);
    p.Slot? && q.Slot? && (Walk(s.root, q.path).None? || overwrite) ==>
      var gone := SlotFor(SetAt(s.root, q.path, Walk(s.root, p.path)), from, links);
      gone.Slot? ==> OneCopyLeft(s.root, p.path, q.path, gone.path)
  }

  ghost predicate RenameIsClean(s: Store, op: Op, links: nat)
    requires op.Rename?
  {
    MoveIsClean(WithParents(s, op.new_, op.createParents, links).store, op.old_, op.new_, op.overwrite, links)
  }

  lemma ParentsKeepUnique(s: Store, path: seq<Component>, createParents: bool, links: nat)
    requires UniqueInodes(s)
    ensures UniqueInodes(WithParents(s, path, createParents, links).store)
  {
    if createParents && ParentOf(path).Some? {
      DirsKeepUnique(s, [], ParentOf(path).value, links);
    }
  }

  lemma MovedKeepsUniqueIff(s: Store, from: seq<Component>, to: seq<Component>, overwrite: bool, ignoreIfExists: bool, links: nat)
    requires UniqueInodes(s) && Moved(s, from, to, overwrite, ignoreIfExists, links).outcome.Done?
    ensures UniqueInodes(Moved(s, from, to, overwrite, ignoreIfExists, links).store) <==> MoveIsClean(s, from, to, overwrite, links)
  {
    var p, q := SlotFor(s.root, from, links).path, SlotFor(s.root, to, links).path;
    var written := Walk(s.root, q).None? || overwrite;
    var tree := if written then SetAt(s.root, q, Walk(s.root, p)) else s.root;
    var gone := SlotFor(tree, from, links).path;
    MoveKeepsUniqueIff(s, p, q, written, gone);
  }

  /** A rename that completes keeps inodes distinct exactly when it is clean. */
  lemma RenameKeepsUniqueIff(s: Store, op: Op, links: nat)
    requires UniqueInodes(s) && op.Rename? && Apply(s, op, links).outcome.Done?
    ensures UniqueInodes(Apply(s, op, links).store) <==> RenameIsClean(s, op, links)
  {
    ParentsKeepUnique(s, op.new_, op.createParents, links);
    MovedKeepsUniqueIff(WithParents(s, op.new_, op.createParents, links).store, op.old_, op.new_, op.overwrite,
                        op.ignoreIfExists, links);
  }

  lemma FailedRenameKeepsUnique(s: Store, op: Op, links: nat)
    requires UniqueInodes(s) && op.Rename? && Apply(s, op, links).outcome.Failed?
    ensures UniqueInodes(Apply(s, op, links).store)
  {
    ParentsKeepUnique(s, op.new_, op.createParents, links);
  }

  /** A rename to where nothing was is clean, whatever links the paths go through. */
  lemma VacantMoveIsClean(s: Store, from: seq<Component>, to: seq<Component>, overwrite: bool, links: nat)
    requires SlotFor(s.root, from, links).Slot? && Walk(s.root, SlotFor(s.root, from, links).path).Some?
    requires SlotFor(s.root, to, links).Slot? && Walk(s.root, SlotFor(s.root, to, links).path).None?
    ensures MoveIsClean(s, from, to, overwrite, links)
  {
    var q, moved := SlotFor(s.root, to, links).path, Walk(s.root, SlotFor(s.root, from, links).path);
    VacantSetKeepsSlots(s.root, q, moved.value, from, links);
  }

  lemma VacantSetKeepsSlots(root: Entry, slot: Path, e: Entry, path: seq<Component>, links: nat)
    requires IsSlot(root, slot) && Walk(root, slot).None? && SlotFor(root, path, links).Slot?
    ensures SlotFor(SetAt(root, slot, Some(e)), path, links) == SlotFor(root, path, links)
  {
    var n := Normalized(path);
    var parent := n[..|n| - 1];
    VacantSetKeepsResolution(root, slot, e, None, parent, true, links);
    VacantSetKeepsWalk(root, slot, e, Resolve(root, None, parent, true, links).names);
  }

  /** A rename of a canonical path is clean, whatever it overwrites. */
  lemma CanonicalMoveIsClean(s: Store, from: seq<Component>, p: Path, to: seq<Component>, overwrite: bool, links: nat)
    requires IsSlot(s.root, p) && Normalized(from) == Absolute(p)
    ensures MoveIsClean(s, from, to, overwrite, links)
  {
    AbsoluteParts(p);
    SlotForAbsolute(s.root, p, links);
    assert SlotFor(s.root, from, links) == SlotFor(s.root, Absolute(p), links);
    var q := SlotFor(s.root, to, links);
    if q.Slot? && !(q.path <= p) {
      var after := SetAt(s.root, q.path, Walk(s.root, p));
      SetKeepsSlot(s.root, q.path, Walk(s.root, p), p);
      SlotForAbsolute(after, p, links);
      assert SlotFor(after, from, links) == SlotFor(after, Absolute(p), links);
    }
  }

  // ---------- Every operation, every run ----------

  lemma OtherStepsKeepUnique(s: Store, op: Op, links: nat)
    requires UniqueInodes(s) && !op.Rename?
    ensures UniqueInodes(Apply(s, op, links).store)
  {
    match op {
      case TouchPath(path) => NewFileKeepsUnique(s, path, [], links);
      case WriteFile(path, content, recreateInode) => WriteKeepsUnique(s, path, content, recreateInode, links);
      case CreateSymlink(path, target) => LinkKeepsUnique(s, path, target, links);
      case CreateDir(path) => DirsKeepUnique(s, [], path, links);
      case CreateFile(path, _, _) => NewFileKeepsUnique(s, path, [], links);
      case CopyFile(source, target, overwrite, ignoreIfExists) =>
        CopyKeepsUnique(s, source, target, overwrite, ignoreIfExists, links);
      case RemoveDir(path, recursive, ignoreIfNotExists) =>
        var r := RemovalFor(s.root, path, true, recursive, ignoreIfNotExists, links);
        if r.slot.Some? { RemoveKeepsUnique(s, r.slot.value); }
      case RemoveFile(path, ignoreIfNotExists) =>
        var r := RemovalFor(s.root, path, false, false, ignoreIfNotExists, links);
        if r.slot.Some? { RemoveKeepsUnique(s, r.slot.value); }
      case Trash(path, recursive, ignoreIfNotExists) => TrashKeepsUnique(s, path, recursive, ignoreIfNotExists, links);
      case Restore(key) =>
        var n := FirstWith(s.trash, key);
        if n.Some? {
          var a := SlotFor(s.root, key.parent + [Normal(key.name)], links);
          if a.Slot? { RestoreKeepsUnique(s, a.path, n.value); }
        }
    }
  }

  lemma TrashKeepsUnique(s: Store, path: seq<Component>, recursive: bool, ignoreIfNotExists: bool, links: nat)
    requires UniqueInodes(s)
    ensures UniqueInodes(MovedToTrash(s, path, recursive, ignoreIfNotExists, links).store)
  {
    var dirs := IsDirPath(s.root, path, links);
    if dirs.Some? {
      var r := RemovalFor(s.root, path, dirs.value, recursive, ignoreIfNotExists, links);
      if r.slot.Some? { DiscardKeepsUnique(s, r.slot.value, KeyOf(path)); }
    }
  }

  function Empty(): Store {
    Store(Dir(0, map[]), [], 1)
  }

  lemma EmptyIsUnique()
    ensures UniqueInodes(Empty())
  {
    var s := Empty();
    forall a
      ensures InodeOf(s, a).Some? ==> a == InTree([])
    {
    }
  }

  /** The store after a run of operations that all return, successfully or with an error. */
  function AfterRun(s: Store, ops: seq<Op>, links: nat): Option<Store>
    decreases |ops|
  {
    if ops == [] then Some(s)
    else
      var r := Apply(s, ops[0], links);
      if r.outcome.Done? || r.outcome.Failed? then AfterRun(r.store, ops[1..], links) else None
  }

  /** Every rename of the run that succeeds is clean when its turn comes. */
  ghost predicate CleanRun(s: Store, ops: seq<Op>, links: nat)
    decreases |ops|
  {
    ops == [] ||
    var r := Apply(s, ops[0], links);
    (ops[0].Rename? && r.outcome.Done? ==> RenameIsClean(s, ops[0], links)) && CleanRun(r.store, ops[1..], links)
  }

  lemma {:induction false} RunsKeepInodesUnique(s: Store, ops: seq<Op>, links: nat)
    requires UniqueInodes(s)
    ensures AfterRun(s, ops, links).Some? && CleanRun(s, ops, links) ==> UniqueInodes(AfterRun(s, ops, links).value)
    decreases |ops|
  {
    if ops != [] && AfterRun(s, ops, links).Some? && CleanRun(s, ops, links) {
      var r := Apply(s, ops[0], links);
      if !ops[0].Rename? {
        OtherStepsKeepUnique(s, ops[0], links);
      } else if r.outcome.Done? {
        RenameKeepsUniqueIff(s, ops[0], links);
      } else {
        FailedRenameKeepsUnique(s, ops[0], links);
      }
      RunsKeepInodesUnique(r.store, ops[1..], links);
    }
  }

  // ---------- What undoes what ----------

  /** The tree after an entry moved to an empty place, and the way back. */
  lemma MoveBack(root: Entry, p: Path, q: Path)
    requires IsSlot(root, p) && Walk(root, p).Some? && IsSlot(root, q) && Walk(root, q).None? && !(p <= q)
    ensures !(q <= p) && IsSlot(MovedTree(root, p, q, true, p), p) && IsSlot(MovedTree(root, p, q, true, p), q)
    ensures Walk(MovedTree(root, p, q, true, p), q) == Walk(root, p) && Walk(MovedTree(root, p, q, true, p), p).None?
    ensures MovedTree(MovedTree(root, p, q, true, p), q, p, true, q) == root
  {
    var m := Walk(root, p);
    var copied := SetAt(root, q, m);
    var moved := SetAt(copied, p, None);
    NothingBelowNothing(root, q, p);
    SetKeepsSlot(root, q, m, p);
    SetKeepsSlot(root, q, m, q);
    SetKeepsSlot(copied, p, None, p);
    SetKeepsSlot(copied, p, None, q);
    WalkAfterSet(root, q, m, q);
    WalkAfterSet(copied, p, None, q);
    WalkAfterSet(copied, p, None, p);
    assert q[|q|..] == [];
    SetsCommute(root, q, m, p, None);
    assert moved == SetAt(SetAt(root, p, None), q, m);
    BackAgain(root, p, q, moved);
  }

  lemma BackAgain(root: Entry, p: Path, q: Path, moved: Entry)
    requires IsSlot(root, p) && IsSlot(root, q) && Walk(root, q).None? && !(p <= q) && !(q <= p)
    requires moved == SetAt(SetAt(root, q, Walk(root, p)), p, None)
    ensures SetAt(SetAt(moved, p, Walk(root, p)), q, None) == root
  {
    var m := Walk(root, p);
    SetKeepsSlot(root, q, m, p);
    SetTwice(SetAt(root, q, m), p, None, m);
    SetsCommute(root, q, m, p, m);
    SetToItself(root, p);
    SetTwice(root, q, m, None);
    SetToItself(root, q);
  }

  /** A move of a canonical path to an empty place outside the entry. */
  lemma MoveToVacant(s: Store, p: Path, q: Path, links: nat)
    requires IsSlot(s.root, p) && Walk(s.root, p).Some? && IsSlot(s.root, q) && Walk(s.root, q).None? && !(p <= q)
    ensures Moved(s, Absolute(p), Absolute(q), false, false, links) == Reply(Done, s.(root := MovedTree(s.root, p, q, true, p)))
  {
    var copied := SetAt(s.root, q, Walk(s.root, p));
    assert SlotFor(s.root, Absolute(p), links) == Slot(p) by { SlotForAbsolute(s.root, p, links); }
    assert SlotFor(s.root, Absolute(q), links) == Slot(q) by { SlotForAbsolute(s.root, q, links); }
    NothingBelowNothing(s.root, q, p);
    assert SlotFor(copied, Absolute(p), links) == Slot(p) by {
      SetKeepsSlot(s.root, q, Walk(s.root, p), p);
      SlotForAbsolute(copied, p, links);
    }
    assert Walk(copied, p).Some? by { WalkAfterSet(s.root, q, Walk(s.root, p), p); }
  }

  /** Such a rename is undone by the rename back. */
  lemma RenameThereAndBack(s: Store, p: Path, q: Path, links: nat)
    requires IsSlot(s.root, p) && Walk(s.root, p).Some? && IsSlot(s.root, q) && Walk(s.root, q).None? && !(p <= q)
    ensures var there := Moved(s, Absolute(p), Absolute(q), false, false, links);
            && there.outcome.Done? && Walk(there.store.root, q) == Walk(s.root, p) && Walk(there.store.root, p).None?
            && Moved(there.store, Absolute(q), Absolute(p), false, false, links) == Reply(Done, s)
  {
    MoveBack(s.root, p, q);
    MoveToVacant(s, p, q, links);
    MoveToVacant(s.(root := MovedTree(s.root, p, q, true, p)), q, p, links);
  }

  lemma {:induction false} FirstWithLast(trash: seq<Trashed>, t: Trashed)
    requires forall i :: 0 <= i < |trash| ==> trash[i].key != t.key
    ensures FirstWith(trash + [t], t.key) == Some(|trash|)
    ensures Without(trash + [t], t.key) == trash
  {
    assert (trash + [t])[..|trash|] == trash;
    WithoutNone(trash, t.key);
  }

  lemma {:induction false} WithoutNone(trash: seq<Trashed>, key: Key)
    requires forall i :: 0 <= i < |trash| ==> trash[i].key != key
    ensures Without(trash, key) == trash
  {
    if trash != [] {
      WithoutNone(trash[..|trash| - 1], key);
    }
  }

  lemma IsDirPathOfCanonical(root: Entry, p: Path, links: nat)
    requires Walk(root, p).Some? && !Walk(root, p).value.Symlink? && p != []
    ensures IsDirPath(root, Absolute(p), links) == Some(Walk(root, p).value.Dir?)
  {
    AbsoluteParts(p);
    CanonicalIff(root, p, false);
    CanonicalIsFixed(root, p, false, links);
  }

  lemma RemovalOfCanonical(root: Entry, p: Path, dirs: bool, ignoreIfNotExists: bool, links: nat)
    requires IsSlot(root, p) && Walk(root, p).Some? && !Walk(root, p).value.Symlink?
    requires dirs == Walk(root, p).value.Dir?
    ensures RemovalFor(root, Absolute(p), dirs, true, ignoreIfNotExists, links) == Removal(Done, Some(p))
  {
    SlotForAbsolute(root, p, links);
  }

  function CanonicalKey(p: Path): Key
    requires p != []
  {
    Key(p[|p| - 1], Absolute(p[..|p| - 1]))
  }

  lemma KeyOfCanonical(p: Path)
    requires p != []
    ensures KeyOf(Absolute(p)) == CanonicalKey(p)
    ensures Normalized(Absolute(p)) != [] && Normalized(Absolute(p))[|Normalized(Absolute(p))| - 1].Normal?
    ensures CanonicalKey(p).parent + [Normal(CanonicalKey(p).name)] == Absolute(p)
  {
    AbsoluteParts(p);
    assert Absolute(p) == Absolute(p)[..|p|] + [Absolute(p)[|p|]];
  }

  lemma TrashTakes(s: Store, p: Path, ignoreIfNotExists: bool, links: nat)
    requires IsSlot(s.root, p) && Walk(s.root, p).Some? && !Walk(s.root, p).value.Symlink?
    ensures MovedToTrash(s, Absolute(p), true, ignoreIfNotExists, links) == Reply(Done, Discarded(s, p, CanonicalKey(p)))
  {
    KeyOfCanonical(p);
    IsDirPathOfCanonical(s.root, p, links);
    RemovalOfCanonical(s.root, p, Walk(s.root, p).value.Dir?, ignoreIfNotExists, links);
  }

  lemma RestorePutsBack(s: Store, p: Path, links: nat)
    requires IsSlot(s.root, p) && Walk(s.root, p).Some?
    requires forall i :: 0 <= i < |s.trash| ==> s.trash[i].key != CanonicalKey(p)
    ensures TakenFromTrash(Discarded(s, p, CanonicalKey(p)), CanonicalKey(p), links) == Reply(Done, s)
  {
    var s' := Discarded(s, p, CanonicalKey(p));
    FirstWithLast(s.trash, Trashed(CanonicalKey(p), Walk(s.root, p).value));
    SetKeepsSlot(s.root, p, None, p);
    assert Walk(s'.root, p).None? by { WalkAfterSet(s.root, p, None, p); }
    KeyOfCanonical(p);
    SlotForAbsolute(s'.root, p, links);
    SetTwice(s.root, p, None, Walk(s.root, p));
    SetToItself(s.root, p);
  }

  /** What was trashed comes back: the store is as before, if nothing with the same key was in the trash. */
  lemma TrashThenRestore(s: Store, p: Path, ignoreIfNotExists: bool, links: nat)
    requires IsSlot(s.root, p) && Walk(s.root, p).Some? && !Walk(s.root, p).value.Symlink?
    requires forall i :: 0 <= i < |s.trash| ==> s.trash[i].key != CanonicalKey(p)
    ensures var trashed := MovedToTrash(s, Absolute(p), true, ignoreIfNotExists, links);
            && trashed.outcome.Done? && Walk(trashed.store.root, p).None?
            && TakenFromTrash(trashed.store, CanonicalKey(p), links) == Reply(Done, s)
  {
    TrashTakes(s, p, ignoreIfNotExists, links);
    RestorePutsBack(s, p, links);
    assert Walk(RemoveAt(s, p).root, p).None? by { WalkAfterSet(s.root, p, None, p); }
  }

  // ---------- Reading after writing ----------

  /** A path finds what was put at its slot, if a file was there or nothing. */
  lemma PutFileIsFound(root: Entry, path: seq<Component>, links: nat, e: Entry)
    requires SlotFor(root, path, links).Slot? && e.File?
    requires var here := Walk(root, SlotFor(root, path, links).path); here.None? || here.value.File?
    ensures var p := SlotFor(root, path, links).path; var root' := SetAt(root, p, Some(e));
            Resolve(root', None, Normalized(path), true, links) == Found(p) && Walk(root', p) == Some(e)
  {
    var p, n := SlotFor(root, path, links).path, Normalized(path);
    var root', parent, up := SetAt(root, p, Some(e)), n[..|n| - 1], p[..|p| - 1];
    assert p[|p|..] == [];
    WalkAfterSet(root, p, Some(e), p);
    PutFileKeepsResolution(root, p, e, None, parent, true, links);
    assert n == parent + [n[|n| - 1]] && p == up + [n[|n| - 1].name];
    assert [n[|n| - 1]][1..] == [];
    assert Resolve(root', Some(up), [n[|n| - 1]], true, 0) == Found(p);
    ResolveInTwoParts(root', None, parent, [n[|n| - 1]], true, links, 0);
  }

  /** A write that succeeds can be read back, and nothing away from the file has changed. */
  lemma WriteThenRead(s: Store, path: seq<Component>, content: Content, recreateInode: bool, links: nat)
    requires Written(s, path, content, recreateInode, links).outcome.Done?
    ensures var root := Written(s, path, content, recreateInode, links).store.root;
            var found := Resolve(root, None, Normalized(path), true, links);
            && found.Found? && Walk(root, found.names).Some? && Walk(root, found.names).value.File?
            && Walk(root, found.names).value.content == content
            && forall q :: !(q <= found.names) ==> Walk(root, q) == Walk(s.root, q)
  {
    var p := SlotFor(s.root, path, links).path;
    var here := Walk(s.root, p);
    var e := File(if here.None? || recreateInode then s.nextInode else here.value.inode, content);
    PutFileIsFound(s.root, path, links, e);
    forall q | !(q <= p)
      ensures Walk(SetAt(s.root, p, Some(e)), q) == Walk(s.root, q)
    {
      PutFileChangesNothingElse(s.root, p, e, q);
    }
  }

  lemma PutFileChangesNothingElse(root: Entry, p: Path, e: Entry, q: Path)
    requires IsSlot(root, p) && e.File? && (Walk(root, p).None? || Walk(root, p).value.File?) && !(q <= p)
    ensures Walk(SetAt(root, p, Some(e)), q) == Walk(root, q)
  {
    WalkAfterSet(root, p, Some(e), q);
    if p <= q {
      assert q[|p|..] != [];
      assert p + q[|p|..] == q;
      WalkConcat(root, p, q[|p|..]);
    }
  }

  /** A copy to where nothing was has the contents of its source. */
  lemma CopyThenRead(s: Store, source: seq<Component>, target: seq<Component>, overwrite: bool, ignoreIfExists: bool, links: nat)
    requires SlotFor(s.root, target, links).Slot? && Walk(s.root, SlotFor(s.root, target, links).path).None?
    requires Copied(s, source, target, overwrite, ignoreIfExists, links).outcome.Done?
    ensures var root := Copied(s, source, target, overwrite, ignoreIfExists, links).store.root;
            var from, to := Resolve(s.root, None, Normalized(source), true, links), Resolve(root, None, Normalized(target), true, links);
            && from.Found? && to.Found? && Walk(s.root, from.names).Some? && Walk(root, to.names).Some?
            && Walk(s.root, from.names).value.File? && Walk(root, to.names).value.File?
            && Walk(root, to.names).value.content == Walk(s.root, from.names).value.content
  {
    var from := Resolve(s.root, None, Normalized(source), true, links).names;
    PutFileIsFound(s.root, target, links, File(s.nextInode, Walk(s.root, from).value.content));
  }

  /** What was removed is not found any more, even if the path to it went through it. */
  lemma RemoveThenNotFound(s: Store, path: seq<Component>, dirs: bool, recursive: bool, ignoreIfNotExists: bool, links: nat)
    requires s.root.Dir? && Removed(s, path, dirs, recursive, ignoreIfNotExists, links).outcome.Done?
    ensures !Resolve(Removed(s, path, dirs, recursive, ignoreIfNotExists, links).store.root, None, Normalized(path), false, links).Found?
  {
    var p := SlotFor(s.root, path, links).path;
    var root' := Removed(s, path, dirs, recursive, ignoreIfNotExists, links).store.root;
    PathLeadsToSlot(s.root, path, links);
    if Walk(s.root, p).Some? {
      WalkAfterSet(s.root, p, None, p);
      SetKeepsSlot(s.root, p, None, p);
      SetTwice(s.root, p, None, Walk(s.root, p));
      SetToItself(s.root, p);
      SetKeepsInode(s.root, p, None);
      if Resolve(root', None, Normalized(path), false, links).Found? {
        VacantSetKeepsResolution(root', p, Walk(s.root, p).value, None, Normalized(path), false, links);
        FoundIsCanonical(root', Normalized(path), false, links);
      }
    }
  }

  /** A path without following a last link leads to its slot, if anything is there. */
  lemma PathLeadsToSlot(root: Entry, path: seq<Component>, links: nat)
    requires SlotFor(root, path, links).Slot?
    ensures var p := SlotFor(root, path, links).path;
            Resolve(root, None, Normalized(path), false, links) == if Walk(root, p).Some? then Found(p) else Missing
  {
    var p, n := SlotFor(root, path, links).path, Normalized(path);
    var parent, up := n[..|n| - 1], p[..|p| - 1];
    assert n == parent + [n[|n| - 1]] && p == up + [n[|n| - 1].name];
    assert [n[|n| - 1]][1..] == [];
    ResolveInTwoParts(root, None, parent, [n[|n| - 1]], false, links, 0);
  }

  // ---------- What the other operations achieve ----------

  /** The way to the parent of a path, which names the slot of the path. */
  function WayTo(path: seq<Component>): seq<Component>
    requires Normalized(path) != []
  {
    Normalized(path)[..|Normalized(path)| - 1]
  }

  /** The way to the slot meets the slot itself, as it can by a link to somewhere above. */
  predicate MeetsItself(root: Entry, path: seq<Component>, p: Path, links: nat)
    requires Normalized(path) != []
  {
    GoesThrough(root, None, WayTo(path), true, links, p)
  }

  /** The way does not meet the slot, or from what is put there the rest of the way leads back to the slot's directory. */
  predicate StillLeads(root: Entry, path: seq<Component>, p: Path, e: Entry, links: nat)
    requires p != [] && Normalized(path) != []
  {
    match Meeting(root, None, WayTo(path), true, links, p)
    case None => true
    case Some(m) => Resolve(SetAt(root, p, Some(e)), Some(p[..|p| - 1]), FromSlot(p, m.0), true, m.1) == Found(p[..|p| - 1])
  }

  lemma SlotHasName(root: Entry, path: seq<Component>, links: nat)
    requires SlotFor(root, path, links).Slot?
    ensures var p, n := SlotFor(root, path, links).path, Normalized(path);
            && n != [] && p != [] && n == WayTo(path) + [Normal(p[|p| - 1])]
            && Resolve(root, None, WayTo(path), true, links) == Found(p[..|p| - 1])
  {
  }

  /** A resolution of one more name. */
  lemma OneMoreName(root: Entry, way: seq<Component>, name: Name, links: nat)
    ensures Resolve(root, None, way + [Normal(name)], false, links) ==
            match Resolve(root, None, way, true, links)
            case Found(c) => if Walk(root, c + [name]).Some? then Found(c + [name]) else Missing
            case Missing => Missing
            case Unfinished => Unfinished
  {
    var last := [Normal(name)];
    assert last[1..] == [];
    match Resolve(root, None, way, true, links)
    case Found(c) => ResolveInTwoParts(root, None, way, last, false, links, 0);
    case Missing => MissingInTwoParts(root, None, way, last, false, links);
    case Unfinished => UnfinishedInTwoParts(root, None, way, last, false, links);
  }

  /** What is put at the slot of a path is found by that path exactly when the way still leads there; what is beside it stays. */
  lemma PutIsFoundIff(root: Entry, path: seq<Component>, links: nat, e: Entry)
    requires SlotFor(root, path, links).Slot?
    ensures var p := SlotFor(root, path, links).path; var root' := SetAt(root, p, Some(e));
            && Walk(root', p) == Some(e)
            && (forall q :: !(q <= p) && !(p <= q) ==> Walk(root', q) == Walk(root, q))
            && Normalized(path) != []
            && (Resolve(root', None, Normalized(path), false, links) == Found(p) <==> StillLeads(root, path, p, e, links))
  {
    var p := SlotFor(root, path, links).path;
    var root', up, name := SetAt(root, p, Some(e)), p[..|p| - 1], p[|p| - 1];
    SlotHasName(root, path, links);
    assert p[|p|..] == [];
    WalkAfterSet(root, p, Some(e), p);
    forall q | !(q <= p) && !(p <= q)
      ensures Walk(root', q) == Walk(root, q)
    {
      WalkAfterSet(root, p, Some(e), q);
    }
    SetAndResolve(root, p, Some(e), None, WayTo(path), true, links);
    OneMoreName(root', WayTo(path), name, links);
    assert up + [name] == p;
    if Resolve(root', None, WayTo(path), true, links).Found? {
      var c := Resolve(root', None, WayTo(path), true, links).names;
      assert c + [name] == p ==> c == (c + [name])[..|p| - 1];
    }
  }

  /** Where nothing was the way still leads. */
  lemma VacantStillLeads(root: Entry, path: seq<Component>, links: nat, e: Entry)
    requires SlotFor(root, path, links).Slot? && Walk(root, SlotFor(root, path, links).path).None?
    ensures Normalized(path) != [] && StillLeads(root, path, SlotFor(root, path, links).path, e, links)
    ensures !MeetsItself(root, path, SlotFor(root, path, links).path, links)
  {
    SlotHasName(root, path, links);
    VacantIsNotMet(root, SlotFor(root, path, links).path, WayTo(path), true, links);
  }

  /** A canonical path does not meet the slot it leads to, so what is put there is always found. */
  lemma CanonicalStillLeads(root: Entry, p: Path, e: Entry, links: nat)
    requires IsSlot(root, p)
    ensures SlotFor(root, Absolute(p), links) == Slot(p) && Normalized(Absolute(p)) != []
    ensures StillLeads(root, Absolute(p), p, e, links) && !MeetsItself(root, Absolute(p), p, links)
  {
    var up := p[..|p| - 1];
    SlotForAbsolute(root, p, links);
    AbsoluteParts(p);
    assert [] + up == up && !(p <= up);
    NormalsAvoid(root, [], up, links, p);
    assert Absolute(up)[1..] == Normals(up);
  }

  /** For a file the rest of the way would have to go on from the file, which only `..` can do. */
  lemma FileStillLeadsIff(root: Entry, path: seq<Component>, links: nat, e: Entry)
    requires SlotFor(root, path, links).Slot? && e.File? && PlainLinks(root)
    ensures var p := SlotFor(root, path, links).path;
            Normalized(path) != [] && (StillLeads(root, path, p, e, links) <==> !MeetsItself(root, path, p, links))
  {
    var p := SlotFor(root, path, links).path;
    var root', up := SetAt(root, p, Some(e)), p[..|p| - 1];
    SlotHasName(root, path, links);
    NormalizedIsNormal([], path);
    NormalizedHasNoUps(path);
    PlainMeetsDownward(root, None, WayTo(path), true, links, p);
    var m := Meeting(root, None, WayTo(path), true, links, p);
    if m.Some? {
      assert p[|p|..] == [];
      WalkAfterSet(root, p, Some(e), p);
      assert up + [p[|p| - 1]] == p && FromSlot(p, m.value.0)[1..] == m.value.0;
      FileIsDeadEnd(root', p, m.value.0, true, m.value.1);
    }
  }

  lemma NormalizedHasNoUps(path: seq<Component>)
    requires IsNormal(Normalized(path)) && Normalized(path) != []
    ensures IsPlain(WayTo(path))
  {
  }

  /** For a link the rest of the way goes on from its target. */
  lemma LinkStillLeadsIff(root: Entry, path: seq<Component>, links: nat, target: seq<Component>)
    requires SlotFor(root, path, links).Slot?
    ensures var p := SlotFor(root, path, links).path; var e := Symlink(target);
            && Normalized(path) != []
            && (StillLeads(root, path, p, e, links) <==>
                match Meeting(root, None, WayTo(path), true, links, p)
                case None => true
                case Some(m) =>
                  m.1 > 0 && Resolve(SetAt(root, p, Some(e)), Some(p[..|p| - 1]), target + m.0, true, m.1 - 1) == Found(p[..|p| - 1]))
  {
    var p := SlotFor(root, path, links).path;
    SlotHasName(root, path, links);
    var m := Meeting(root, None, WayTo(path), true, links, p);
    if m.Some? {
      assert p[|p|..] == [];
      WalkAfterSet(root, p, Some(Symlink(target)), p);
      assert p[..|p| - 1] + [p[|p| - 1]] == p && FromSlot(p, m.value.0)[1..] == m.value.0;
    }
  }

  /** A touched path leads to an entry: what was there before, or else an empty file. */
  lemma TouchThenFound(s: Store, path: seq<Component>, links: nat)
    requires Touched(s, path, links).outcome.Done?
    ensures var root := Touched(s, path, links).store.root; var p := SlotFor(s.root, path, links).path;
            && Resolve(root, None, Normalized(path), false, links) == Found(p)
            && (if Walk(s.root, p).Some? then root == s.root else Walk(root, p) == Some(File(s.nextInode, [])))
            && forall q :: !(q <= p) && !(p <= q) ==> Walk(root, q) == Walk(s.root, q)
  {
    if Walk(s.root, SlotFor(s.root, path, links).path).Some? {
      PathLeadsToSlot(s.root, path, links);
    } else {
      VacantStillLeads(s.root, path, links, File(s.nextInode, []));
      PutIsFoundIff(s.root, path, links, File(s.nextInode, []));
    }
  }

  /** The path of a new link leads to the link exactly if its way does not meet the link, or goes on from the target back to it. */
  lemma LinkIsFoundIff(s: Store, path: seq<Component>, target: seq<Component>, links: nat)
    requires Linked(s, path, target, links).outcome.Done?
    ensures var root := Linked(s, path, target, links).store.root; var p := SlotFor(s.root, path, links).path;
            && Walk(root, p) == Some(Symlink(target))
            && (forall q :: !(q <= p) && !(p <= q) ==> Walk(root, q) == Walk(s.root, q))
            && Normalized(path) != []
            && (Resolve(root, None, Normalized(path), false, links) == Found(p) <==>
                match Meeting(s.root, None, WayTo(path), true, links, p)
                case None => true
                case Some(m) => m.1 > 0 && Resolve(root, Some(p[..|p| - 1]), target + m.0, true, m.1 - 1) == Found(p[..|p| - 1]))
  {
    PutIsFoundIff(s.root, path, links, Symlink(target));
    LinkStillLeadsIff(s.root, path, links, target);
  }

  /** A created file is empty; it is found exactly if its way still leads there. What is not overwritten stays as it is. */
  lemma CreateIsFoundIff(s: Store, path: seq<Component>, overwrite: bool, ignoreIfExists: bool, links: nat)
    requires FileCreated(s, path, overwrite, ignoreIfExists, links).outcome.Done?
    ensures var root := FileCreated(s, path, overwrite, ignoreIfExists, links).store.root; var p := SlotFor(s.root, path, links).path;
            && (if Walk(s.root, p).None? || overwrite then Walk(root, p) == Some(File(s.nextInode, [])) else root == s.root)
            && (forall q :: !(q <= p) && !(p <= q) ==> Walk(root, q) == Walk(s.root, q))
            && Normalized(path) != []
            && (Resolve(root, None, Normalized(path), false, links) == Found(p) <==>
                overwrite ==> StillLeads(s.root, path, p, File(s.nextInode, []), links))
  {
    var p := SlotFor(s.root, path, links).path;
    SlotHasName(s.root, path, links);
    if Walk(s.root, p).None? || overwrite {
      PutIsFoundIff(s.root, path, links, File(s.nextInode, []));
      if Walk(s.root, p).None? {
        VacantStillLeads(s.root, path, links, File(s.nextInode, []));
      }
    } else {
      PathLeadsToSlot(s.root, path, links);
    }
  }

  /** Where no link has a target with `..`, a file is found exactly unless it overwrote an entry on its own way. */
  lemma OverwriteIsFoundIff(s: Store, path: seq<Component>, overwrite: bool, ignoreIfExists: bool, links: nat)
    requires FileCreated(s, path, overwrite, ignoreIfExists, links).outcome.Done? && PlainLinks(s.root)
    ensures var root := FileCreated(s, path, overwrite, ignoreIfExists, links).store.root; var p := SlotFor(s.root, path, links).path;
            && Normalized(path) != []
            && (Resolve(root, None, Normalized(path), false, links) == Found(p) <==>
                !(overwrite && MeetsItself(s.root, path, p, links)))
  {
    CreateIsFoundIff(s, path, overwrite, ignoreIfExists, links);
    FileStillLeadsIff(s.root, path, links, File(s.nextInode, []));
  }

  /** Between two trees only directories were added. */
  ghost predicate OnlyDirsAdded(root: Entry, root': Entry) {
    && (forall q :: Walk(root, q).Some? ==> Walk(root', q).Some? && (Walk(root', q).value.Dir? <==> Walk(root, q).value.Dir?))
    && (forall q :: Walk(root', q).Some? && !Walk(root', q).value.Dir? ==> Walk(root, q) == Walk(root', q))
  }

  lemma DirAddsOnlyDirs(root: Entry, p: Path, inode: nat)
    requires IsSlot(root, p) && Walk(root, p).None?
    ensures OnlyDirsAdded(root, SetAt(root, p, Some(Dir(inode, map[]))))
  {
    var e := Dir(inode, map[]);
    var root' := SetAt(root, p, Some(e));
    forall q
      ensures Walk(root, q).Some? ==> Walk(root', q).Some? && (Walk(root', q).value.Dir? <==> Walk(root, q).value.Dir?)
      ensures Walk(root', q).Some? && !Walk(root', q).value.Dir? ==> Walk(root, q) == Walk(root', q)
    {
      WalkAfterSet(root, p, Some(e), q);
      if Walk(root, q).Some? {
        VacantSetKeepsWalk(root, p, e, q);
      }
      if q <= p && q != p {
        SetKeepsInode(Walk(root, q).value, p[|q|..], Some(e));
      }
    }
  }

  /**
   When the directories of a path were created the path leads to a directory, unless a file or a link was
   there before; and nothing but directories was added.
   */
  lemma {:induction false} CreateDirThenFound(s: Store, above: seq<Component>, path: seq<Component>, links: nat)
    requires DirsCreated(s, above, path, links).outcome.Done?
    ensures var root := DirsCreated(s, above, path, links).store.root;
            && OnlyDirsAdded(s.root, root)
            && (path != [] && !path[|path| - 1].RootDir? ==>
                  var found := Resolve(root, None, Normalized(above + path), false, links);
                  && found.Found? && Walk(root, found.names).Some?
                  && (Walk(root, found.names).value.Dir? || Walk(root, found.names) == Walk(s.root, found.names)))
    decreases |path|
  {
    if path != [] {
      var current, rest := above + [path[0]], path[1..];
      assert above + path == current + rest;
      var a := SlotFor(s.root, current, links);
      var s' := if path[0].RootDir? then s
                else Skipped(if Walk(s.root, a.path).None? then PutAt(s, a.path, Dir(s.nextInode, map[])) else s);
      assert OnlyDirsAdded(s.root, s'.root) by {
        if !path[0].RootDir? && Walk(s.root, a.path).None? {
          DirAddsOnlyDirs(s.root, a.path, s.nextInode);
        }
      }
      CreateDirThenFound(s', current, rest, links);
      if rest == [] && !path[0].RootDir? {
        assert current + rest == current;
        if Walk(s.root, a.path).None? {
          VacantStillLeads(s.root, current, links, Dir(s.nextInode, map[]));
          PutIsFoundIff(s.root, current, links, Dir(s.nextInode, map[]));
        } else {
          PathLeadsToSlot(s.root, current, links);
        }
      }
    }
  }
}
