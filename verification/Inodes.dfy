/**
 Inode numbers over the tree and the trash: what keeps them distinct.
 */
module Inodes {
  import opened Paths
  import opened Wrappers
  import opened FakeTree

  datatype Key = Key(name: Name, parent: seq<Component>)

  datatype Trashed = Trashed(key: Key, entry: Entry)

  datatype Store = Store(root: Entry, trash: seq<Trashed>, nextInode: nat)

  /** Where an entry is: in the tree, or in the tree of something in the trash. */
  datatype Location = InTree(path: Path) | InTrash(index: nat, path: Path)

  function InodeOf(s: Store, at: Location): Option<nat> {
    match at
    case InTree(p) => InodeAt(s.root, p)
    case InTrash(i, p) => if i < |s.trash| then InodeAt(s.trash[i].entry, p) else None
  }

  ghost predicate UniqueInodes(s: Store) {
    && s.root.Dir?
    && (forall a :: InodeOf(s, a).Some? ==> InodeOf(s, a).value < s.nextInode)
    && (forall a, b :: InodeOf(s, a).Some? && InodeOf(s, a) == InodeOf(s, b) ==> a == b)
  }

  /** Inodes stay distinct if each comes from its own earlier location. */
  lemma FromOrigins(s: Store, s': Store, origin: Location -> Location)
    requires UniqueInodes(s) && s'.root.Dir? && s.nextInode <= s'.nextInode
    requires forall a :: InodeOf(s', a).Some? ==> InodeOf(s, origin(a)) == InodeOf(s', a)
    requires forall a, b :: InodeOf(s', a).Some? && InodeOf(s', a) == InodeOf(s', b) && origin(a) == origin(b) ==> a == b
    ensures UniqueInodes(s')
  {
    forall a, b | InodeOf(s', a).Some? && InodeOf(s', a) == InodeOf(s', b)
      ensures a == b
    {
      assert InodeOf(s, origin(a)) == InodeOf(s, origin(b));
    }
  }

  function PutAt(s: Store, slot: Path, e: Entry): Store
    requires slot != []
  {
    s.(root := SetAt(s.root, slot, Some(e)))
  }

  function RemoveAt(s: Store, slot: Path): Store
    requires slot != []
  {
    s.(root := SetAt(s.root, slot, None))
  }

  /** An entry with nothing below it. */
  ghost predicate Childless(e: Entry) {
    forall p :: p != [] ==> Walk(e, p).None?
  }

  /** A new file, directory or link takes the place of whatever was there, and uses the next number at most. */
  lemma PutNewKeepsUnique(s: Store, slot: Path, e: Entry)
    requires UniqueInodes(s) && IsSlot(s.root, slot) && Childless(e)
    requires Inode(e).Some? ==> Inode(e).value == s.nextInode
    ensures UniqueInodes(PutAt(s, slot, e).(nextInode := s.nextInode + 1))
  {
    var s' := PutAt(s, slot, e).(nextInode := s.nextInode + 1);
    SetKeepsInode(s.root, slot, Some(e));
    forall a
      ensures InodeOf(s', a) == if a.InTree? && slot <= a.path then (if a.path == slot then Inode(e) else None) else InodeOf(s, a)
    {
      if a.InTree? {
        InodeAfterSet(s.root, slot, Some(e), a.path);
        assert slot <= a.path && |slot| == |a.path| ==> slot == a.path;
      }
    }
  }

  lemma RemoveKeepsUnique(s: Store, slot: Path)
    requires UniqueInodes(s) && IsSlot(s.root, slot)
    ensures UniqueInodes(RemoveAt(s, slot))
  {
    SetKeepsInode(s.root, slot, None);
    forall a
      ensures InodeOf(RemoveAt(s, slot), a) == if a.InTree? && slot <= a.path then None else InodeOf(s, a)
    {
      if a.InTree? {
        InodeAfterSet(s.root, slot, None, a.path);
      }
    }
    FromOrigins(s, RemoveAt(s, slot), a => a);
  }

  /** A number may be skipped. */
  lemma SkipKeepsUnique(s: Store, n: nat)
    requires UniqueInodes(s) && s.nextInode <= n
    ensures UniqueInodes(s.(nextInode := n))
  {
    forall a
      ensures InodeOf(s.(nextInode := n), a) == InodeOf(s, a)
    {
    }
  }

  // ---------- The trash ----------

  function Discarded(s: Store, slot: Path, key: Key): Store
    requires IsSlot(s.root, slot) && Walk(s.root, slot).Some?
  {
    RemoveAt(s, slot).(trash := s.trash + [Trashed(key, Walk(s.root, slot).value)])
  }

  function OldPlace(s: Store, slot: Path, a: Location): Location {
    if a.InTrash? && a.index == |s.trash| then InTree(slot + a.path) else a
  }

  lemma DiscardKeepsUnique(s: Store, slot: Path, key: Key)
    requires UniqueInodes(s) && IsSlot(s.root, slot) && Walk(s.root, slot).Some?
    ensures UniqueInodes(Discarded(s, slot, key))
  {
    var s' := Discarded(s, slot, key);
    SetKeepsInode(s.root, slot, None);
    forall a
      ensures InodeOf(s', a) == if a.InTree? && slot <= a.path then None else InodeOf(s, OldPlace(s, slot, a))
    {
      if a.InTree? {
        InodeAfterSet(s.root, slot, None, a.path);
      } else if a.index == |s.trash| {
        InodeBelow(s.root, slot, a.path);
      }
    }
    forall a, b | InodeOf(s', a).Some? && InodeOf(s', b).Some? && OldPlace(s, slot, a) == OldPlace(s, slot, b)
      ensures a == b
    {
      SameTail(slot, a.path, b.path);
    }
    FromOrigins(s, s', a => OldPlace(s, slot, a));
  }

  lemma SameTail(p: Path, a: Path, b: Path)
    ensures p + a == p + b ==> a == b
  {
    if p + a == p + b {
      assert a == (p + a)[|p|..] && b == (p + b)[|p|..];
    }
  }

  /** The trash without the entries that have a key. */
  function Without(trash: seq<Trashed>, key: Key): seq<Trashed> {
    if trash == [] then []
    else Without(trash[..|trash| - 1], key) + (if trash[|trash| - 1].key == key then [] else [trash[|trash| - 1]])
  }

  /** The index in `trash` of an entry that stays. */
  function IndexBefore(trash: seq<Trashed>, key: Key, i: nat): (n: nat)
    requires i < |Without(trash, key)|
    ensures n < |trash| && trash[n] == Without(trash, key)[i] && trash[n].key != key
  {
    var rest := trash[..|trash| - 1];
    if i < |Without(rest, key)| then IndexBefore(rest, key, i) else |trash| - 1
  }

  lemma {:induction false} IndexBeforeIncreases(trash: seq<Trashed>, key: Key, i: nat, j: nat)
    requires i < j < |Without(trash, key)|
    ensures IndexBefore(trash, key, i) < IndexBefore(trash, key, j)
  {
    var rest := trash[..|trash| - 1];
    if j < |Without(rest, key)| {
      IndexBeforeIncreases(rest, key, i, j);
    }
  }

  /** Everything with the key leaves the trash; the entry at `n` goes to the slot, the others are gone. */
  function Restored(s: Store, slot: Path, n: nat): Store
    requires slot != [] && n < |s.trash|
  {
    PutAt(s, slot, s.trash[n].entry).(trash := Without(s.trash, s.trash[n].key))
  }

  function TrashPlace(s: Store, slot: Path, n: nat, a: Location): Location
    requires n < |s.trash|
  {
    if a.InTree? then (if slot <= a.path then InTrash(n, a.path[|slot|..]) else a)
    else if a.index < |Without(s.trash, s.trash[n].key)|
      then InTrash(IndexBefore(s.trash, s.trash[n].key, a.index), a.path)
      else InTrash(|s.trash|, [])
  }

  lemma TrashPlaceIsInjective(s: Store, slot: Path, n: nat, a: Location, b: Location)
    requires slot != [] && n < |s.trash| && TrashPlace(s, slot, n, a) == TrashPlace(s, slot, n, b)
    requires InodeOf(Restored(s, slot, n), a).Some? && InodeOf(Restored(s, slot, n), b).Some?
    ensures a == b
  {
    if a.InTree? && b.InTree? {
      if slot <= a.path && slot <= b.path {
        assert a.path == slot + a.path[|slot|..] && b.path == slot + b.path[|slot|..];
      }
    } else if a.InTrash? && b.InTrash? {
      if a.index < b.index {
        IndexBeforeIncreases(s.trash, s.trash[n].key, a.index, b.index);
      } else if b.index < a.index {
        IndexBeforeIncreases(s.trash, s.trash[n].key, b.index, a.index);
      }
    }
  }

  lemma RestoreKeepsUnique(s: Store, slot: Path, n: nat)
    requires UniqueInodes(s) && IsSlot(s.root, slot) && n < |s.trash|
    ensures UniqueInodes(Restored(s, slot, n))
  {
    var s' := Restored(s, slot, n);
    SetKeepsInode(s.root, slot, Some(s.trash[n].entry));
    forall a | InodeOf(s', a).Some?
      ensures InodeOf(s, TrashPlace(s, slot, n, a)) == InodeOf(s', a)
    {
      if a.InTree? {
        InodeAfterSet(s.root, slot, Some(s.trash[n].entry), a.path);
      }
    }
    forall a, b | InodeOf(s', a).Some? && InodeOf(s', a) == InodeOf(s', b)
                  && TrashPlace(s, slot, n, a) == TrashPlace(s, slot, n, b)
      ensures a == b
    {
      TrashPlaceIsInjective(s, slot, n, a, b);
    }
    FromOrigins(s, s', a => TrashPlace(s, slot, n, a));
  }

  // ---------- Moving ----------

  /** The move of `from` to `to` as it is done: the entry is copied, and then whatever is at `gone` is removed. */
  function MovedTree(root: Entry, from: Path, to: Path, written: bool, gone: Path): Entry
    requires to != [] && gone != []
  {
    SetAt(if written then SetAt(root, to, Walk(root, from)) else root, gone, None)
  }

  function MovedFrom(from: Path, to: Path, a: Location): Location {
    if a.InTree? && to <= a.path then InTree(from + a.path[|to|..]) else a
  }

  lemma InodeAfterMove(root: Entry, from: Path, to: Path, gone: Path, q: Path)
    requires IsSlot(root, from) && Walk(root, from).Some? && IsSlot(root, to)
    requires IsSlot(SetAt(root, to, Walk(root, from)), gone)
    ensures InodeAt(MovedTree(root, from, to, true, gone), q)
         == if gone <= q then None else if to <= q then InodeAt(root, from + q[|to|..]) else InodeAt(root, q)
  {
    InodeAfterSet(SetAt(root, to, Walk(root, from)), gone, None, q);
    InodeAfterSet(root, to, Walk(root, from), q);
    if to <= q {
      InodeBelow(root, from, q[|to|..]);
    }
  }

  /** What keeps both copies from being there afterwards. */
  ghost predicate OneCopyLeft(root: Entry, from: Path, to: Path, gone: Path) {
    (Walk(root, from).Some? && Walk(root, from).value.Symlink?) || to <= from || gone <= from || gone <= to
  }

  lemma MoveKeepsUnique(s: Store, from: Path, to: Path, gone: Path)
    requires UniqueInodes(s) && IsSlot(s.root, from) && Walk(s.root, from).Some? && IsSlot(s.root, to)
    requires IsSlot(SetAt(s.root, to, Walk(s.root, from)), gone)
    requires OneCopyLeft(s.root, from, to, gone)
    ensures UniqueInodes(s.(root := MovedTree(s.root, from, to, true, gone)))
  {
    var s' := s.(root := MovedTree(s.root, from, to, true, gone));
    SetKeepsInode(s.root, to, Walk(s.root, from));
    SetKeepsInode(SetAt(s.root, to, Walk(s.root, from)), gone, None);
    forall a | InodeOf(s', a).Some?
      ensures InodeOf(s, MovedFrom(from, to, a)) == InodeOf(s', a)
    {
      if a.InTree? { InodeAfterMove(s.root, from, to, gone, a.path); }
    }
    forall a, b | InodeOf(s', a).Some? && InodeOf(s', a) == InodeOf(s', b) && MovedFrom(from, to, a) == MovedFrom(from, to, b)
      ensures a == b
    {
      if a.InTree? && b.InTree? {
        if to <= a.path {
          InodeAfterMove(s.root, from, to, gone, a.path);
          InodeAfterMove(s.root, from, to, gone, b.path);
          OriginsDiffer(s, from, to, gone, a.path, b.path);
        } else if to <= b.path {
          InodeAfterMove(s.root, from, to, gone, a.path);
          InodeAfterMove(s.root, from, to, gone, b.path);
          OriginsDiffer(s, from, to, gone, b.path, a.path);
        }
      }
    }
    FromOrigins(s, s', a => MovedFrom(from, to, a));
  }

  lemma OriginsDiffer(s: Store, from: Path, to: Path, gone: Path, p: Path, q: Path)
    requires IsSlot(s.root, from) && Walk(s.root, from).Some? && OneCopyLeft(s.root, from, to, gone)
    requires to <= p && !(gone <= p) && !(gone <= q)
    requires InodeAt(s.root, from + p[|to|..]).Some?
    requires from + p[|to|..] == if to <= q then from + q[|to|..] else q
    ensures p == q
  {
    assert p == to + p[|to|..];
    assert from <= from + p[|to|..];
    WalkConcat(s.root, from, p[|to|..]);
    if to <= q {
      assert q == to + q[|to|..];
      SameTail(from, p[|to|..], q[|to|..]);
    }
  }

  /** If two copies stay, both have the inode of the entry that was moved. */
  lemma MoveLeavesTwoCopies(s: Store, from: Path, to: Path, gone: Path)
    requires IsSlot(s.root, from) && Walk(s.root, from).Some? && IsSlot(s.root, to)
    requires IsSlot(SetAt(s.root, to, Walk(s.root, from)), gone)
    requires !OneCopyLeft(s.root, from, to, gone)
    ensures var s' := s.(root := MovedTree(s.root, from, to, true, gone));
            InodeOf(s', InTree(from)).Some? && InodeOf(s', InTree(from)) == InodeOf(s', InTree(to)) && from != to
  {
    InodeAfterMove(s.root, from, to, gone, from);
    InodeAfterMove(s.root, from, to, gone, to);
    assert from + to[|to|..] == from;
  }

  /** A completed move keeps inodes distinct exactly when at most one copy of what has an inode is left. */
  lemma MoveKeepsUniqueIff(s: Store, from: Path, to: Path, written: bool, gone: Path)
    requires UniqueInodes(s) && IsSlot(s.root, from) && Walk(s.root, from).Some? && IsSlot(s.root, to)
    requires IsSlot(if written then SetAt(s.root, to, Walk(s.root, from)) else s.root, gone)
    ensures UniqueInodes(s.(root := MovedTree(s.root, from, to, written, gone)))
            <==> !written || OneCopyLeft(s.root, from, to, gone)
  {
    if !written {
      RemoveKeepsUnique(s, gone);
    } else if OneCopyLeft(s.root, from, to, gone) {
      MoveKeepsUnique(s, from, to, gone);
    } else {
      MoveLeavesTwoCopies(s, from, to, gone);
    }
  }
}
