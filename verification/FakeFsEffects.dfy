/**
 When each operation of the in-memory filesystem succeeds, and what it changes, by what is in the tree before and after.
 */
module FakeFsEffects {
  import opened Paths
  import opened Wrappers
  import opened Sublists
  import opened FakeTree
  import opened Resolution
  import opened Inodes
  import opened FakeFs
  import opened FakeFsRuns

  /** Equal, or both a directory with the same inode. */
  predicate SameKind(a: Option<Entry>, b: Option<Entry>) {
    a == b || (a.Some? && b.Some? && a.value.Dir? && b.value.Dir? && a.value.inode == b.value.inode)
  }

  /** What is neither at the slot nor below it is the same, and what is above it are the same directories. */
  ghost predicate ChangesOnlyAt(root: Entry, root': Entry, p: Path) {
    forall q :: !(p <= q) ==> SameKind(Walk(root, q), Walk(root', q)) && (q <= p || Walk(root', q) == Walk(root, q))
  }

  lemma SetChangesOnlyAt(root: Entry, p: Path, v: Option<Entry>)
    requires IsSlot(root, p)
    ensures ChangesOnlyAt(root, SetAt(root, p, v), p) && Walk(SetAt(root, p, v), p) == v
  {
    assert p[|p|..] == [];
    WalkAfterSet(root, p, v, p);
    forall q | !(p <= q)
      ensures SameKind(Walk(root, q), Walk(SetAt(root, p, v), q))
      ensures q <= p || Walk(SetAt(root, p, v), q) == Walk(root, q)
    {
      WalkAfterSet(root, p, v, q);
      if q <= p {
        SetKeepsInode(Walk(root, q).value, p[|q|..], v);
      }
    }
  }

  ghost predicate HasChild(root: Entry, p: Path) {
    exists name: Name :: Walk(root, p + [name]).Some?
  }

  lemma ChildrenAreEntries(root: Entry, p: Path)
    requires IsDirAt(root, p)
    ensures HasChild(root, p) <==> Walk(root, p).value.entries != map[]
  {
    forall name: Name
      ensures Walk(root, p + [name]).Some? <==> name in Walk(root, p).value.entries
    {
      WalkStep(root, p, name);
    }
    if Walk(root, p).value.entries != map[] {
      var name :| name in Walk(root, p).value.entries;
      assert Walk(root, p + [name]).Some?;
    }
  }

  lemma NothingBelowChildless(root: Entry, p: Path, q: Path)
    requires !HasChild(root, p) && p < q
    ensures Walk(root, q).None?
  {
    var child := p + [q[|p|]];
    assert Walk(root, child).None?;
    assert child + q[|p| + 1..] == q;
    WalkConcat(root, child, q[|p| + 1..]);
  }

  // ---------- Slots ----------

  /** A path has a slot exactly if it ends in a name and the rest of it leads to a directory. */
  lemma SlotIff(root: Entry, path: seq<Component>, links: nat, p: Path)
    ensures var n := Normalized(path);
            SlotFor(root, path, links) == Slot(p) <==>
            && n != [] && p != [] && n[|n| - 1] == Normal(p[|p| - 1])
            && Resolve(root, None, n[..|n| - 1], true, links) == Found(p[..|p| - 1]) && IsDirAt(root, p[..|p| - 1])
  {
    var n := Normalized(path);
    if p != [] {
      assert p == p[..|p| - 1] + [p[|p| - 1]];
    }
  }

  // ---------- Removing ----------

  /** What stands in the way of a removal. */
  ghost predicate Unremovable(root: Entry, p: Path, dirs: bool, recursive: bool, ignoreIfNotExists: bool) {
    var e := Walk(root, p);
    if e.None? then !ignoreIfNotExists
    else if dirs then !e.value.Dir? || (!recursive && HasChild(root, p))
    else !e.value.File?
  }

  /**
   A removal fails exactly if the path has no slot, if there is nothing and that is not ignored, if a directory was asked for and
   something else is there or the reverse, or if a directory is not empty and the removal not recursive. Then nothing changes.
   */
  lemma RemovalFailsIff(s: Store, path: seq<Component>, dirs: bool, recursive: bool, ignoreIfNotExists: bool, links: nat)
    ensures var r, a := Removed(s, path, dirs, recursive, ignoreIfNotExists, links), SlotFor(s.root, path, links);
            && (r.outcome == Failed <==> a.Refused? || (a.Slot? && Unremovable(s.root, a.path, dirs, recursive, ignoreIfNotExists)))
            && (r.outcome == Unending <==> a.NotEnding?) && r.outcome != Panicked
            && (r.outcome != Done ==> r.store == s)
            && (r.outcome == Done ==> r.store == s.(root := r.store.root) && Walk(r.store.root, a.path).None?
                                      && ChangesOnlyAt(s.root, r.store.root, a.path))
  {
    var a := SlotFor(s.root, path, links);
    if a.Slot? {
      SetChangesOnlyAt(s.root, a.path, None);
      if IsDirAt(s.root, a.path) {
        ChildrenAreEntries(s.root, a.path);
      }
    }
  }

  /** Without `recursive` nothing vanishes but the entry itself. */
  lemma RemovalTakesOne(s: Store, path: seq<Component>, dirs: bool, ignoreIfNotExists: bool, links: nat, q: Path)
    requires Removed(s, path, dirs, false, ignoreIfNotExists, links).outcome.Done?
    requires q != SlotFor(s.root, path, links).path && Walk(s.root, q).Some?
    ensures Walk(Removed(s, path, dirs, false, ignoreIfNotExists, links).store.root, q).Some?
  {
    RemovalFailsIff(s, path, dirs, false, ignoreIfNotExists, links);
    var p := SlotFor(s.root, path, links).path;
    if p <= q {
      if Walk(s.root, p).None? {
        NothingBelowNothing(s.root, p, q);
      } else {
        assert !HasChild(s.root, p) by {
          if name: Name :| Walk(s.root, p + [name]).Some? {
            WalkStep(s.root, p, name);
          }
        }
        NothingBelowChildless(s.root, p, q);
      }
    }
  }

  /** Whether a path leads to a directory, with a last link followed. */
  lemma IsDirPathIff(root: Entry, path: seq<Component>, links: nat)
    requires IsDirPath(root, path, links).Some? && !Resolve(root, None, Normalized(path), true, links).Unfinished?
    ensures IsDirPath(root, path, links).value <==>
            var r := Resolve(root, None, Normalized(path), true, links); r.Found? && IsDirAt(root, r.names)
  {
    var n := Normalized(path);
    var r := Resolve(root, None, n, false, links);
    if !r.Unfinished? {
      LastLinkAside(root, None, n, links);
    }
  }

  /** Following the last link makes a difference only if there is one. */
  lemma {:induction false} LastLinkAside(root: Entry, at: Option<Path>, path: seq<Component>, fuel: nat)
    ensures var r := Resolve(root, at, path, false, fuel);
            (r.Missing? ==> Resolve(root, at, path, true, fuel).Missing?)
            && (r.Found? && path != [] && !(Walk(root, r.names).Some? && Walk(root, r.names).value.Symlink?) ==>
                  Resolve(root, at, path, true, fuel) == r)
    decreases fuel, |path|
  {
    if path != [] {
      match path[0]
      case RootDir => LastLinkAside(root, Some([]), path[1..], fuel);
      case CurDir => LastLinkAside(root, at, path[1..], fuel);
      case ParentDir => if at.Some? { LastLinkAside(root, Above(at.value), path[1..], fuel); }
      case Normal(name) =>
        if at.Some? && Walk(root, at.value + [name]).Some? {
          var next := Walk(root, at.value + [name]).value;
          if next.Symlink? {
            if fuel > 0 && |path| > 1 { LastLinkAside(root, at, next.target + path[1..], fuel - 1); }
          } else {
            LastLinkAside(root, Some(at.value + [name]), path[1..], fuel);
          }
        }
    }
  }

  // ---------- The trash ----------

  /** Whether an entry can be moved to the trash. */
  ghost predicate Trashable(root: Entry, p: Path, recursive: bool) {
    Walk(root, p).Some? && (Walk(root, p).value.File? || (Walk(root, p).value.Dir? && (recursive || !HasChild(root, p))))
  }

  /** The key of what a path leads to: its name and the rest of the path. */
  lemma TrashingSucceedsIff(s: Store, path: seq<Component>, recursive: bool, ignoreIfNotExists: bool, links: nat)
    ensures var r, a, n := MovedToTrash(s, path, recursive, ignoreIfNotExists, links), SlotFor(s.root, path, links), Normalized(path);
            && (r.outcome == Done <==> a.Slot? && Trashable(s.root, a.path, recursive))
            && r.outcome != Panicked && (r.outcome != Done ==> r.store == s)
            && (r.outcome == Done ==>
                  && n != [] && n[|n| - 1] == Normal(a.path[|a.path| - 1])
                  && ChangesOnlyAt(s.root, r.store.root, a.path) && Walk(r.store.root, a.path).None?
                  && r.store.nextInode == s.nextInode
                  && r.store.trash == s.trash + [Trashed(Key(a.path[|a.path| - 1], n[..|n| - 1]), Walk(s.root, a.path).value)])
  {
    var a, n := SlotFor(s.root, path, links), Normalized(path);
    if a.Slot? {
      SetChangesOnlyAt(s.root, a.path, None);
      PathLeadsToSlot(s.root, path, links);
      if IsDirAt(s.root, a.path) {
        ChildrenAreEntries(s.root, a.path);
      }
    }
  }

  lemma {:induction false} WithoutPicks(trash: seq<Trashed>, key: Key) returns (positions: seq<nat>)
    ensures Picks(trash, positions, Without(trash, key))
    ensures forall k :: 0 <= k < |trash| ==> (k in positions <==> trash[k].key != key)
  {
    if trash == [] {
      positions := [];
    } else {
      var n := |trash| - 1;
      var rest := WithoutPicks(trash[..n], key);
      positions := rest + if trash[n].key == key then [] else [n];
      assert forall i :: 0 <= i < |rest| ==> rest[i] in rest;
    }
  }

  /** The entry that comes back is the oldest with the key. */
  lemma {:induction false} FirstWithIsOldest(trash: seq<Trashed>, key: Key)
    ensures FirstWith(trash, key).Some? ==> forall i :: 0 <= i < FirstWith(trash, key).value ==> trash[i].key != key
  {
    if trash != [] {
      FirstWithIsOldest(trash[..|trash| - 1], key);
    }
  }

  /** A restore succeeds exactly if the key is in the trash and its place is free; the key leaves the trash, all else stays in order. */
  lemma RestoringSucceedsIff(s: Store, key: Key, links: nat) returns (positions: seq<nat>)
    ensures var r, a := TakenFromTrash(s, key, links), SlotFor(s.root, key.parent + [Normal(key.name)], links);
            && (r.outcome == Done <==> a.Slot? && Walk(s.root, a.path).None? && exists i :: 0 <= i < |s.trash| && s.trash[i].key == key)
            && r.outcome != Panicked && (r.outcome != Done ==> r.store == s)
            && (r.outcome == Done ==>
                  && ChangesOnlyAt(s.root, r.store.root, a.path) && r.store.nextInode == s.nextInode
                  && (exists i :: 0 <= i < |s.trash| && s.trash[i].key == key && Walk(r.store.root, a.path) == Some(s.trash[i].entry)
                                  && forall j :: 0 <= j < i ==> s.trash[j].key != key)
                  && Picks(s.trash, positions, r.store.trash))
    ensures forall k :: 0 <= k < |s.trash| ==> (k in positions <==> s.trash[k].key != key)
  {
    positions := WithoutPicks(s.trash, key);
    FirstWithIsOldest(s.trash, key);
    var a, n := SlotFor(s.root, key.parent + [Normal(key.name)], links), FirstWith(s.trash, key);
    if a.Slot? && n.Some? {
      SetChangesOnlyAt(s.root, a.path, Some(s.trash[n.value].entry));
    }
  }

  // ---------- Writing ----------

  /** The tree with exactly one entry changed, at the slot. */
  ghost predicate PutsAt(root: Entry, root': Entry, p: Path, e: Entry) {
    ChangesOnlyAt(root, root', p) && Walk(root', p) == Some(e)
  }

  /** An inode number is used up, whatever happens. */
  ghost predicate UsesNumber(s: Store, s': Store) {
    s'.nextInode == s.nextInode + 1 && s'.trash == s.trash
  }

  lemma TouchEffect(s: Store, path: seq<Component>, links: nat)
    ensures var r, a := Touched(s, path, links), SlotFor(s.root, path, links);
            && (r.outcome == Done <==> a.Slot?) && (r.outcome == Unending <==> a.NotEnding?) && (r.outcome == Panicked <==> a.Refused?)
            && UsesNumber(s, r.store)
            && (if a.Slot? && Walk(s.root, a.path).None? then PutsAt(s.root, r.store.root, a.path, File(s.nextInode, []))
                else r.store.root == s.root)
  {
    var a := SlotFor(s.root, path, links);
    if a.Slot? {
      SetChangesOnlyAt(s.root, a.path, Some(File(s.nextInode, [])));
    }
  }

  /** A write succeeds exactly where a file is or nothing; the file keeps its inode unless a new one is asked for. */
  lemma WriteEffect(s: Store, path: seq<Component>, content: Content, recreateInode: bool, links: nat)
    ensures var r, a := Written(s, path, content, recreateInode, links), SlotFor(s.root, path, links);
            && (r.outcome == Done <==> a.Slot? && (Walk(s.root, a.path).None? || Walk(s.root, a.path).value.File?))
            && (r.outcome == Unending <==> a.NotEnding?) && r.outcome != Panicked && UsesNumber(s, r.store)
            && (if r.outcome == Done then
                  exists inode :: PutsAt(s.root, r.store.root, a.path, File(inode, content))
                                  && (if Walk(s.root, a.path).Some? && !recreateInode then InodeAt(s.root, a.path) == Some(inode)
                                      else inode == s.nextInode)
                else r.store.root == s.root)
  {
    var a := SlotFor(s.root, path, links);
    if a.Slot? && (Walk(s.root, a.path).None? || Walk(s.root, a.path).value.File?) {
      var inode := if Walk(s.root, a.path).Some? && !recreateInode then Walk(s.root, a.path).value.inode else s.nextInode;
      SetChangesOnlyAt(s.root, a.path, Some(File(inode, content)));
      assert PutsAt(s.root, Written(s, path, content, recreateInode, links).store.root, a.path, File(inode, content));
    }
  }

  /** A link takes the place of anything and uses no number. */
  lemma LinkEffect(s: Store, path: seq<Component>, target: seq<Component>, links: nat)
    ensures var r, a := Linked(s, path, target, links), SlotFor(s.root, path, links);
            && (r.outcome == Done <==> a.Slot?) && (r.outcome == Unending <==> a.NotEnding?) && (r.outcome == Panicked <==> a.Refused?)
            && r.store == s.(root := r.store.root)
            && (if a.Slot? then PutsAt(s.root, r.store.root, a.path, Symlink(target)) else r.store.root == s.root)
  {
    var a := SlotFor(s.root, path, links);
    if a.Slot? {
      SetChangesOnlyAt(s.root, a.path, Some(Symlink(target)));
    }
  }

  /** A file is created where nothing was, or over anything if that is wanted; otherwise what is there decides. */
  lemma CreateFileEffect(s: Store, path: seq<Component>, overwrite: bool, ignoreIfExists: bool, links: nat)
    ensures var r, a := FileCreated(s, path, overwrite, ignoreIfExists, links), SlotFor(s.root, path, links);
            && (r.outcome == Done <==> a.Slot? && (Walk(s.root, a.path).None? || overwrite || ignoreIfExists))
            && (r.outcome == Unending <==> a.NotEnding?) && r.outcome != Panicked && UsesNumber(s, r.store)
            && (if a.Slot? && (Walk(s.root, a.path).None? || overwrite) then PutsAt(s.root, r.store.root, a.path, File(s.nextInode, []))
                else r.store.root == s.root)
  {
    var a := SlotFor(s.root, path, links);
    if a.Slot? {
      SetChangesOnlyAt(s.root, a.path, Some(File(s.nextInode, [])));
    }
  }

  /** A copy needs a file to copy; an existing target is left as it is, even with `overwrite`. */
  lemma CopyEffect(s: Store, source: seq<Component>, target: seq<Component>, overwrite: bool, ignoreIfExists: bool, links: nat)
    ensures var r, from, a := Copied(s, source, target, overwrite, ignoreIfExists, links),
                              Resolve(s.root, None, Normalized(source), true, links), SlotFor(s.root, target, links);
            var isFile := from.Found? && Walk(s.root, from.names).Some? && Walk(s.root, from.names).value.File?;
            && (r.outcome == Done <==> isFile && a.Slot? && (Walk(s.root, a.path).None? || overwrite || ignoreIfExists))
            && (r.outcome == Unending <==> from.Unfinished? || (isFile && a.NotEnding?))
            && r.outcome != Panicked && UsesNumber(s, r.store)
            && (if r.outcome == Done && Walk(s.root, a.path).None? then
                  PutsAt(s.root, r.store.root, a.path, File(s.nextInode, Walk(s.root, from.names).value.content))
                else r.store.root == s.root)
  {
    var a, from := SlotFor(s.root, target, links), Resolve(s.root, None, Normalized(source), true, links);
    if a.Slot? && from.Found? && Walk(s.root, from.names).Some? && Walk(s.root, from.names).value.File? {
      SetChangesOnlyAt(s.root, a.path, Some(File(s.nextInode, Walk(s.root, from.names).value.content)));
    }
  }

  // ---------- Making directories ----------

  /** Nothing on the way to `p` is a link or a file. */
  ghost predicate ClearWay(root: Entry, p: Path) {
    forall n :: 0 <= n < |p| ==> Walk(root, p[..n]).None? || Walk(root, p[..n]).value.Dir?
  }

  ghost predicate NoLinksOnWay(root: Entry, p: Path) {
    forall n :: 0 <= n < |p| ==> Walk(root, p[..n]).None? || !Walk(root, p[..n]).value.Symlink?
  }

  lemma OneMoreDir(root: Entry, p: Path, k: nat, links: nat)
    requires k < |p| && IsDirAt(root, p[..k])
    ensures Absolute(p[..k]) + [Normal(p[k])] == Absolute(p[..k + 1]) && SlotFor(root, Absolute(p[..k + 1]), links) == Slot(p[..k + 1])
  {
    var next := p[..k + 1];
    assert next[..|next| - 1] == p[..k] && p[..k] + [p[k]] == next;
    SlotForAbsolute(root, next, links);
    AbsoluteParts(next);
    assert Absolute(next) == Absolute(next)[..|next|] + [Absolute(next)[|next|]];
  }

  lemma NoDirNoSlot(root: Entry, p: Path, k: nat, links: nat)
    requires 0 < k < |p| && Walk(root, p[..k]).Some? && Walk(root, p[..k]).value.File?
    ensures Absolute(p[..k]) + [Normal(p[k])] == Absolute(p[..k + 1]) && SlotFor(root, Absolute(p[..k + 1]), links).Refused?
  {
    var next := p[..k + 1];
    assert next[..|next| - 1] == p[..k];
    AbsoluteParts(next);
    assert Absolute(next) == Absolute(next)[..|next|] + [Absolute(next)[|next|]];
    CanonicalIff(root, p[..k], true);
    CanonicalIsFixed(root, p[..k], true, links);
  }

  /** What putting a directory on the way changes of the way. */
  lemma DirOnWay(root: Entry, p: Path, k: nat, inode: nat)
    requires k < |p| && IsDirAt(root, p[..k]) && Walk(root, p[..k + 1]).None?
    ensures var root' := SetAt(root, p[..k + 1], Some(Dir(inode, map[])));
            && IsDirAt(root', p[..k + 1])
            && (forall n :: k + 1 < n <= |p| ==> Walk(root', p[..n]).None? && Walk(root, p[..n]).None?)
            && (forall n :: 0 <= n <= k ==> SameKind(Walk(root, p[..n]), Walk(root', p[..n])))
            && (forall q :: !(q <= p) ==> Walk(root', q) == Walk(root, q))
  {
    var next, e := p[..k + 1], Dir(inode, map[]);
    assert next[..|next| - 1] == p[..k];
    var root' := SetAt(root, next, Some(e));
    SetChangesOnlyAt(root, next, Some(e));
    assert !HasChild(root', next) by { ChildrenAreEntries(root', next); }
    forall q | next <= q && q != next
      ensures Walk(root', q).None? && Walk(root, q).None?
    {
      NothingBelowChildless(root', next, q);
      if Walk(root, q).Some? {
        NothingBelowNothing(root, next, q);
      }
    }
  }

  /** All directories above `p` are there and something is at `p`, or it failed; what was there is of the same kind, and nothing off the way has changed. */
  ghost predicate DirsMade(root: Entry, r: Reply, p: Path) {
    && (r.outcome == Done <==> ClearWay(root, p)) && (r.outcome == Done || r.outcome == Failed)
    && (r.outcome == Done ==>
          && (forall n :: 0 <= n < |p| ==> IsDirAt(r.store.root, p[..n]))
          && (if Walk(root, p).Some? then SameKind(Walk(root, p), Walk(r.store.root, p)) else IsDirAt(r.store.root, p)))
    && (forall q :: !(q <= p) ==> Walk(r.store.root, q) == Walk(root, q))
  }

  lemma WayAfterDir(root: Entry, root': Entry, p: Path, k: nat, inode: nat)
    requires k < |p| && Walk(root, p[..k + 1]).None? && root' == SetAt(root, p[..k + 1], Some(Dir(inode, map[])))
    requires forall n :: 0 <= n <= k ==> IsDirAt(root, p[..n])
    ensures (forall n :: 0 <= n <= k + 1 ==> IsDirAt(root', p[..n])) && Walk(root, p).None?
    ensures k + 1 < |p| ==> Walk(root', p).None?
    ensures NoLinksOnWay(root', p) && ClearWay(root, p) && ClearWay(root', p)
    ensures forall q :: !(q <= p) ==> Walk(root', q) == Walk(root, q)
  {
    DirOnWay(root, p, k, inode);
    assert p[..|p|] == p;
    forall n | 0 <= n <= k
      ensures IsDirAt(root', p[..n])
    {
      assert SameKind(Walk(root, p[..n]), Walk(root', p[..n]));
    }
  }

  lemma {:induction false} DirsFrom(s: Store, p: Path, k: nat, links: nat)
    requires k <= |p| && NoLinksOnWay(s.root, p) && (forall n :: 0 <= n < |p| && n <= k ==> IsDirAt(s.root, p[..n]))
    requires k == |p| ==> Walk(s.root, p).Some?
    ensures DirsMade(s.root, DirsCreated(s, Absolute(p[..k]), Normals(p[k..]), links), p)
    decreases |p| - k
  {
    if k < |p| {
      var next, rest := p[..k + 1], Normals(p[k..])[1..];
      OneMoreDir(s.root, p, k, links);
      assert rest == Normals(p[k + 1..]) && Normals(p[k..])[0] == Normal(p[k]);
      if Walk(s.root, next).None? {
        var s' := Skipped(PutAt(s, next, Dir(s.nextInode, map[])));
        WayAfterDir(s.root, s'.root, p, k, s.nextInode);
        assert p[..|p|] == p;
        DirsFrom(s', p, k + 1, links);
      } else if k + 1 == |p| || IsDirAt(s.root, next) {
        assert k + 1 == |p| ==> next == p;
        DirsFrom(Skipped(s), p, k + 1, links);
      } else {
        NoDirNoSlot(s.root, p, k + 1, links);
        assert rest[0] == Normal(p[k + 1]);
      }
    }
  }

  /**
   With no link on the way: all directories down to `p` are made exactly if no file is on the way, nothing that was there
   is lost, and nothing off the way is touched.
   */
  lemma DirsAreCreatedIff(s: Store, p: Path, links: nat)
    requires s.root.Dir? && NoLinksOnWay(s.root, p)
    ensures DirsMade(s.root, DirsCreated(s, [], Absolute(p), links), p)
  {
    assert p[..0] == [] && p[0..] == p && Absolute([]) == [RootDir] == [] + [RootDir];
    assert Absolute(p)[1..] == Normals(p) && Absolute(p)[0] == RootDir;
    DirsFrom(s, p, 0, links);
  }

  // ---------- Renaming ----------

  /** A rename fails exactly if there is nothing to move, no place for it, or something in its place and no leave for that. Nothing changes then. */
  lemma MoveFailsIff(s: Store, from: seq<Component>, to: seq<Component>, overwrite: bool, ignoreIfExists: bool, links: nat)
    ensures var r, a, b := Moved(s, from, to, overwrite, ignoreIfExists, links), SlotFor(s.root, from, links), SlotFor(s.root, to, links);
            && (r.outcome == Failed <==>
                  a.Refused? || (a.Slot? && (Walk(s.root, a.path).None? || b.Refused?
                                             || (b.Slot? && Walk(s.root, b.path).Some? && !overwrite && !ignoreIfExists))))
            && (r.outcome == Failed ==> r.store == s)
            && (a.NotEnding? || (a.Slot? && Walk(s.root, a.path).Some? && b.NotEnding?) ==> r == Reply(Unending, s))
            && r.store.trash == s.trash && r.store.nextInode == s.nextInode
  {
  }

  /** What is there after a move from `p` to an unrelated `q`. */
  ghost predicate MovesTo(root: Entry, root': Entry, p: Path, q: Path, written: bool) {
    && Walk(root', p).None?
    && Walk(root', q) == (if written then Walk(root, p) else Walk(root, q))
    && forall x :: !(p <= x) && !(q <= x) ==>
         SameKind(Walk(root, x), Walk(root', x)) && (x <= p || x <= q || Walk(root', x) == Walk(root, x))
  }

  lemma SetTwoChanges(root: Entry, p: Path, q: Path, written: bool)
    requires IsSlot(root, p) && IsSlot(root, q) && !(p <= q) && !(q <= p) && Walk(root, p).Some?
    ensures var copied := if written then SetAt(root, q, Walk(root, p)) else root;
            IsSlot(copied, p) && Walk(copied, p) == Walk(root, p) && MovesTo(root, SetAt(copied, p, None), p, q, written)
  {
    var copied := if written then SetAt(root, q, Walk(root, p)) else root;
    SetKeepsSlot(root, q, Walk(root, p), p);
    SetChangesOnlyAt(root, q, Walk(root, p));
    SetChangesOnlyAt(copied, p, None);
  }

  /**
   A rename between unrelated places: the entry is at its new place and gone from the old one. With `ignoreIfExists` alone, what is
   in the new place stays, and the old entry is gone all the same.
   */
  lemma MoveEffect(s: Store, p: Path, q: Path, overwrite: bool, ignoreIfExists: bool, links: nat)
    requires IsSlot(s.root, p) && IsSlot(s.root, q) && !(p <= q) && !(q <= p)
    ensures var r := Moved(s, Absolute(p), Absolute(q), overwrite, ignoreIfExists, links);
            && (r.outcome == Done <==> Walk(s.root, p).Some? && (Walk(s.root, q).None? || overwrite || ignoreIfExists))
            && (r.outcome == Done || r == Reply(Failed, s))
            && (r.outcome == Done ==> MovesTo(s.root, r.store.root, p, q, Walk(s.root, q).None? || overwrite))
  {
    SlotForAbsolute(s.root, p, links);
    SlotForAbsolute(s.root, q, links);
    if Walk(s.root, p).Some? {
      var written := Walk(s.root, q).None? || overwrite;
      SetTwoChanges(s.root, p, q, written);
      SlotForAbsolute(if written then SetAt(s.root, q, Walk(s.root, p)) else s.root, p, links);
    }
  }

  /** A rename of an entry to itself, where that is allowed at all, removes it. */
  lemma MoveToItself(s: Store, p: Path, overwrite: bool, ignoreIfExists: bool, links: nat)
    requires IsSlot(s.root, p) && Walk(s.root, p).Some?
    ensures var r := Moved(s, Absolute(p), Absolute(p), overwrite, ignoreIfExists, links);
            && (r.outcome == Done <==> overwrite || ignoreIfExists) && (r.outcome == Done || r == Reply(Failed, s))
            && (r.outcome == Done ==> Walk(r.store.root, p).None? && ChangesOnlyAt(s.root, r.store.root, p))
  {
    SlotForAbsolute(s.root, p, links);
    SetToItself(s.root, p);
    SetChangesOnlyAt(s.root, p, None);
  }

  /** A rename of a directory to a place below it removes the directory with everything in it. */
  lemma MoveBelowItself(s: Store, p: Path, q: Path, overwrite: bool, ignoreIfExists: bool, links: nat)
    requires IsSlot(s.root, p) && IsSlot(s.root, q) && p < q
    ensures var r := Moved(s, Absolute(p), Absolute(q), overwrite, ignoreIfExists, links);
            && (r.outcome == Done <==> Walk(s.root, q).None? || overwrite || ignoreIfExists) && (r.outcome == Done || r == Reply(Failed, s))
            && (r.outcome == Done ==> Walk(r.store.root, p).None? && ChangesOnlyAt(s.root, r.store.root, p))
  {
    SlotForAbsolute(s.root, p, links);
    SlotForAbsolute(s.root, q, links);
    assert p == q[..|p|] && q[..|q| - 1][..|p|] == p;
    if p != q[..|q| - 1] {
      AncestorsAreDirs(s.root, q[..|q| - 1], |p|);
    }
    var copied := if Walk(s.root, q).None? || overwrite then SetAt(s.root, q, Walk(s.root, p)) else s.root;
    SetChangesOnlyAt(s.root, q, Walk(s.root, p));
    assert IsDirAt(copied, p[..|p| - 1]) by { assert !(q <= p[..|p| - 1]); }
    SlotForAbsolute(copied, p, links);
    SetChangesOnlyAt(copied, p, None);
  }

  /** With `createParents` the directories above the new place are made first, so that there is a place unless a file is on the way. */
  lemma RenameMakesParents(s: Store, from: seq<Component>, q: Path, overwrite: bool, ignoreIfExists: bool, links: nat)
    requires s.root.Dir? && q != [] && NoLinksOnWay(s.root, q)
    ensures Renamed(s, from, Absolute(q), overwrite, ignoreIfExists, false, links)
         == Moved(s, from, Absolute(q), overwrite, ignoreIfExists, links)
    ensures var dirs := DirsCreated(s, [], Absolute(q[..|q| - 1]), links);
            && Renamed(s, from, Absolute(q), overwrite, ignoreIfExists, true, links)
               == (if dirs.outcome == Done then Moved(dirs.store, from, Absolute(q), overwrite, ignoreIfExists, links) else dirs)
            && (dirs.outcome == Done && (Walk(s.root, q[..|q| - 1]).None? || IsDirAt(s.root, q[..|q| - 1])) ==>
                  SlotFor(dirs.store.root, Absolute(q), links) == Slot(q))
  {
    var up := q[..|q| - 1];
    AbsoluteParts(q);
    forall n | 0 <= n < |up|
      ensures Walk(s.root, up[..n]).None? || !Walk(s.root, up[..n]).value.Symlink?
    {
      assert up[..n] == q[..n];
    }
    DirsAreCreatedIff(s, up, links);
    var dirs := DirsCreated(s, [], Absolute(up), links);
    if dirs.outcome == Done && (Walk(s.root, up).None? || IsDirAt(s.root, up)) {
      SlotForAbsolute(dirs.store.root, q, links);
    }
  }

  // ---------- Normalizing ----------

  lemma {:induction false} NormalizedInTwoParts(done: seq<Component>, a: seq<Component>, b: seq<Component>)
    ensures NormalizedOnto(done, a + b) == NormalizedOnto(NormalizedOnto(done, a), b)
    decreases |a|
  {
    if a == [] {
      assert a + b == b;
    } else {
      var next := match a[0]
        case RootDir => [RootDir]
        case CurDir => done
        case ParentDir => Pop(done)
        case Normal(_) => done + [a[0]];
      assert (a + b)[0] == a[0] && (a + b)[1..] == a[1..] + b;
      NormalizedInTwoParts(next, a[1..], b);
    }
  }

  /** Rules that take every path to its normal form: `.` goes, `..` goes with the name before it or at the start, and a root starts over. */
  lemma NormalizingRules(a: seq<Component>, name: Name, b: seq<Component>)
    ensures Normalized(a + ([CurDir] + b)) == Normalized(a + b)
    ensures Normalized(a + ([Normal(name), ParentDir] + b)) == Normalized(a + b)
    ensures Normalized([RootDir, ParentDir] + b) == Normalized([RootDir] + b)
    ensures Normalized([ParentDir] + b) == Normalized(b)
    ensures Normalized(a + ([RootDir] + b)) == Normalized([RootDir] + b)
  {
    var done := Normalized(a);
    NormalizedInTwoParts([], a, b);
    NormalizedInTwoParts([], a, [CurDir] + b);
    NormalizedInTwoParts([], a, [Normal(name), ParentDir] + b);
    NormalizedInTwoParts([], a, [RootDir] + b);
    assert ([CurDir] + b)[1..] == b && ([RootDir] + b)[1..] == b && ([ParentDir] + b)[1..] == b;
    assert ([RootDir, ParentDir] + b)[1..] == [ParentDir] + b;
    assert ([Normal(name), ParentDir] + b)[1..] == [ParentDir] + b;
    assert Pop(done + [Normal(name)]) == done;
    assert NormalizedOnto(done + [Normal(name)], [ParentDir] + b) == NormalizedOnto(done, b);
    assert NormalizedOnto([RootDir], [ParentDir] + b) == NormalizedOnto([RootDir], b);
  }
}
