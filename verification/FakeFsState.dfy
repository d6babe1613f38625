/**
 The state of the in-memory filesystem and its operations, each updating the tree, the trash and the
 counter in place.
 */
module FakeFsState {
  import opened Paths
  import opened Wrappers
  import opened FakeTree
  import opened Resolution
  import opened Inodes
  import opened FakeFs

  datatype Lookup = Present(entry: Entry, names: Path) | Absent | LookupUnending

  class FakeFsState {
    var root: Entry
    var nextInode: nat
    var trash: seq<Trashed>

    function Contents(): Store
      reads this
    {
      Store(root, trash, nextInode)
    }

    predicate Valid()
      reads this
    {
      root.Dir?
    }

    constructor ()
      ensures Valid() && Contents() == Store(Dir(0, map[]), [], 1)
    {
      root, nextInode, trash := Dir(0, map[]), 1, [];
    }

    method GetAndIncrementInode() returns (inode: nat)
      modifies `nextInode
      ensures inode == old(nextInode) && nextInode == old(nextInode) + 1
    {
      inode := nextInode;
      nextInode := nextInode + 1;
    }

    /** The path is resolved and then walked again from the root; the second walk meets only directories. */
    method TryEntry(target: seq<Component>, follow: bool, links: nat) returns (r: Lookup)
      requires Valid()
      ensures match Resolve(root, None, target, follow, links)
              case Found(p) => Walk(root, p).Some? && r == Present(Walk(root, p).value, p)
              case Missing => r == Absent
              case Unfinished => r == LookupUnending
      ensures r.Present? && follow ==> !r.entry.Symlink?
    {
      var c := Canonicalize(root, target, follow, links);
      if c.Missing? { return Absent; }
      if c.Unfinished? { return LookupUnending; }
      FoundIsCanonical(root, target, follow, links);
      var entry, i := root, 0;
      while i < |c.names|
        invariant 0 <= i <= |c.names| && Walk(root, c.names[..i]) == Some(entry)
      {
        assert IsDirAt(root, c.names[..i]);
        WalkStep(root, c.names[..i], c.names[i]);
        assert c.names[..i] + [c.names[i]] == c.names[..i + 1];
        if i + 1 < |c.names| {
          assert IsDirAt(root, c.names[..i + 1]);
        } else {
          assert c.names[..i + 1] == c.names;
        }
        entry := entry.entries[c.names[i]];
        i := i + 1;
      }
      assert c.names[..i] == c.names;
      return Present(entry, c.names);
    }

    /** The slot a path stands for, and what is in it. */
    method WritePath(path: seq<Component>, links: nat) returns (a: Attempt, here: Option<Entry>)
      requires Valid()
      ensures a == SlotFor(root, path, links)
      ensures a.Slot? ==> here == Walk(root, a.path)
    {
      here := None;
      var n := NormalizePath(path);
      if n == [] || !n[|n| - 1].Normal? { return Refused, None; }
      var name := n[|n| - 1].name;
      var parent := TryEntry(n[..|n| - 1], true, links);
      match parent {
        case Absent => a := Refused;
        case LookupUnending => a := NotEnding;
        case Present(e, names) =>
          if !e.Dir? { return Refused, None; }
          WalkStep(root, names, name);
          a := Slot(names + [name]);
          here := if name in e.entries then Some(e.entries[name]) else None;
      }
    }

    method Insert(slot: Path, e: Entry)
      requires Valid() && slot != []
      modifies `root
      ensures Valid() && root == SetAt(old(root), slot, Some(e))
    {
      SetKeepsInode(root, slot, Some(e));
      root := SetAt(root, slot, Some(e));
    }

    method RemoveEntry(slot: Path)
      requires Valid() && slot != []
      modifies `root
      ensures Valid() && root == SetAt(old(root), slot, None)
    {
      SetKeepsInode(root, slot, None);
      root := SetAt(root, slot, None);
    }

    // ---------- The operations ----------

    method TouchPath(path: seq<Component>, links: nat) returns (outcome: Outcome)
      requires Valid()
      modifies this
      ensures Valid() && Reply(outcome, Contents()) == Touched(old(Contents()), path, links)
    {
      var inode := GetAndIncrementInode();
      var a, here := WritePath(path, links);
      if !a.Slot? { return if a.NotEnding? then Unending else Panicked; }
      if here.None? {
        Insert(a.path, File(inode, []));
      }
      outcome := Done;
    }

    method WriteFileInternal(path: seq<Component>, content: Content, recreateInode: bool, links: nat) returns (outcome: Outcome)
      requires Valid()
      modifies this
      ensures Valid() && Reply(outcome, Contents()) == Written(old(Contents()), path, content, recreateInode, links)
    {
      var inode := GetAndIncrementInode();
      var a, here := WritePath(path, links);
      if !a.Slot? { return if a.NotEnding? then Unending else Failed; }
      match here {
        case None => Insert(a.path, File(inode, content));
        case Some(File(old_, _)) => Insert(a.path, File(if recreateInode then inode else old_, content));
        case Some(_) => return Failed;
      }
      outcome := Done;
    }

    method CreateSymlink(path: seq<Component>, target: seq<Component>, links: nat) returns (outcome: Outcome)
      requires Valid()
      modifies this
      ensures Valid() && Reply(outcome, Contents()) == Linked(old(Contents()), path, target, links)
    {
      var a, _ := WritePath(path, links);
      if !a.Slot? { return if a.NotEnding? then Unending else Panicked; }
      Insert(a.path, Symlink(target));
      outcome := Done;
    }

    method CreateDir(path: seq<Component>, links: nat) returns (outcome: Outcome)
      requires Valid()
      modifies this
      ensures Valid() && Reply(outcome, Contents()) == DirsCreated(old(Contents()), [], path, links)
    {
      var current: seq<Component>, i := [], 0;
      while i < |path|
        invariant 0 <= i <= |path| && Valid()
        invariant DirsCreated(old(Contents()), [], path, links) == DirsCreated(Contents(), current, path[i..], links)
      {
        assert path[i..][0] == path[i] && path[i..][1..] == path[i + 1..];
        current := current + [path[i]];
        if !path[i].RootDir? {
          var inode := GetAndIncrementInode();
          var a, here := WritePath(current, links);
          if !a.Slot? { return if a.NotEnding? then Unending else Failed; }
          if here.None? {
            Insert(a.path, Dir(inode, map[]));
          }
        }
        i := i + 1;
      }
      outcome := Done;
    }

    method CreateFile(path: seq<Component>, overwrite: bool, ignoreIfExists: bool, links: nat) returns (outcome: Outcome)
      requires Valid()
      modifies this
      ensures Valid() && Reply(outcome, Contents()) == FileCreated(old(Contents()), path, overwrite, ignoreIfExists, links)
    {
      var inode := GetAndIncrementInode();
      var a, here := WritePath(path, links);
      if !a.Slot? { return if a.NotEnding? then Unending else Failed; }
      if here.None? || overwrite {
        Insert(a.path, File(inode, []));
      } else if !ignoreIfExists {
        return Failed;
      }
      outcome := Done;
    }

    method CopyFile(source: seq<Component>, target: seq<Component>, overwrite: bool, ignoreIfExists: bool, links: nat)
      returns (outcome: Outcome)
      requires Valid()
      modifies this
      ensures Valid() && Reply(outcome, Contents()) == Copied(old(Contents()), source, target, overwrite, ignoreIfExists, links)
    {
      var from := NormalizePath(source);
      var inode := GetAndIncrementInode();
      var file := TryEntry(from, true, links);
      if file.LookupUnending? { return Unending; }
      if file.Absent? || !file.entry.File? { return Failed; }
      var a, here := WritePath(target, links);
      if !a.Slot? { return if a.NotEnding? then Unending else Failed; }
      if here.None? {
        Insert(a.path, File(inode, file.entry.content));
      } else if !overwrite && !ignoreIfExists {
        return Failed;
      }
      outcome := Done;
    }

    method RemoveInner(path: seq<Component>, dirs: bool, recursive: bool, ignoreIfNotExists: bool, links: nat)
      returns (outcome: Outcome, removed: Option<Entry>)
      requires Valid()
      modifies `root
      ensures Valid() && Reply(outcome, Contents()) == Removed(old(Contents()), path, dirs, recursive, ignoreIfNotExists, links)
      ensures var r := RemovalFor(old(root), path, dirs, recursive, ignoreIfNotExists, links);
              removed == if r.slot.Some? then Walk(old(root), r.slot.value) else None
    {
      removed := None;
      var a, here := WritePath(path, links);
      if !a.Slot? { return if a.NotEnding? then Unending else Failed, None; }
      if here.None? { return if ignoreIfNotExists then Done else Failed, None; }
      if dirs {
        if !here.value.Dir? { return Failed, None; }
        if !recursive && here.value.entries != map[] { return Failed, None; }
      } else if !here.value.File? {
        return Failed, None;
      }
      RemoveEntry(a.path);
      return Done, here;
    }

    /** Links are followed only if the entry itself is one, and then what is found is none. */
    method IsDir(path: seq<Component>, links: nat) returns (r: Option<bool>)
      requires Valid()
      ensures r == IsDirPath(root, path, links)
    {
      var n := NormalizePath(path);
      var found := TryEntry(n, false, links);
      if found.LookupUnending? { return None; }
      if found.Absent? { return Some(false); }
      if found.entry.Symlink? {
        found := TryEntry(n, true, links);
        if found.LookupUnending? { return None; }
        if found.Absent? { return Some(false); }
      }
      match found.entry {
        case File(_, _) => return Some(false);
        case Dir(_, _) => return Some(true);
        case Symlink(_) => assert false;
      }
    }

    method MoveToTrash(path: seq<Component>, recursive: bool, ignoreIfNotExists: bool, links: nat) returns (outcome: Outcome)
      requires Valid()
      modifies this
      ensures Valid() && Reply(outcome, Contents()) == MovedToTrash(old(Contents()), path, recursive, ignoreIfNotExists, links)
    {
      var n := NormalizePath(path);
      if n == [] || !n[|n| - 1].Normal? { return Failed; }
      var dirs := IsDir(path, links);
      if dirs.None? { return Unending; }
      var done, removed := RemoveInner(path, dirs.value, recursive, ignoreIfNotExists, links);
      if removed.None? { return if done.Done? then Failed else done; }
      trash := trash + [Trashed(Key(n[|n| - 1].name, n[..|n| - 1]), removed.value)];
      outcome := Done;
    }

    /** The first entry with the key comes back, and every entry with the key leaves the trash. */
    method RestoreFromTrash(key: Key, links: nat) returns (outcome: Outcome)
      requires Valid()
      modifies this
      ensures Valid() && Reply(outcome, Contents()) == TakenFromTrash(old(Contents()), key, links)
    {
      var found := FindInTrash(key);
      if found.None? { return Failed; }
      var a, here := WritePath(key.parent + [Normal(key.name)], links);
      if !a.Slot? { return if a.NotEnding? then Unending else Failed; }
      if here.Some? { return Failed; }
      Insert(a.path, trash[found.value].entry);
      RetainOthers(key);
      outcome := Done;
    }

    method FindInTrash(key: Key) returns (r: Option<nat>)
      ensures r == FirstWith(trash, key)
    {
      var i := 0;
      while i < |trash|
        invariant 0 <= i <= |trash| && FirstWith(trash[..i], key) == None
      {
        assert trash[..i + 1][..i] == trash[..i];
        if trash[i].key == key {
          FirstIsKept(trash, key, i + 1);
          return Some(i);
        }
        i := i + 1;
      }
      assert trash[..i] == trash;
      return None;
    }

    method RetainOthers(key: Key)
      modifies `trash
      ensures trash == Without(old(trash), key)
    {
      var kept: seq<Trashed>, i := [], 0;
      while i < |trash|
        invariant 0 <= i <= |trash| && kept == Without(trash[..i], key)
      {
        assert trash[..i + 1][..i] == trash[..i];
        if trash[i].key != key {
          kept := kept + [trash[i]];
        }
        i := i + 1;
      }
      assert trash[..i] == trash;
      trash := kept;
    }

    /** The old path is looked up a second time after the new one was written. */
    method MoveEntry(from: seq<Component>, to: seq<Component>, overwrite: bool, ignoreIfExists: bool, links: nat)
      returns (outcome: Outcome)
      requires Valid()
      modifies `root
      ensures Valid() && Reply(outcome, Contents()) == Moved(old(Contents()), from, to, overwrite, ignoreIfExists, links)
    {
      var a, moved := WritePath(from, links);
      if !a.Slot? { return if a.NotEnding? then Unending else Failed; }
      if moved.None? { return Failed; }
      var b, there := WritePath(to, links);
      if !b.Slot? { return if b.NotEnding? then Unending else Failed; }
      if there.None? || overwrite {
        Insert(b.path, moved.value);
      } else if !ignoreIfExists {
        return Failed;
      }
      var c, again := WritePath(from, links);
      if !c.Slot? { return if c.NotEnding? then Unending else Panicked; }
      if again.None? { return Panicked; }
      RemoveEntry(c.path);
      outcome := Done;
    }

    method Rename(from: seq<Component>, to: seq<Component>, overwrite: bool, ignoreIfExists: bool, createParents: bool,
                  links: nat) returns (outcome: Outcome)
      requires Valid()
      modifies this
      ensures Valid()
      ensures Reply(outcome, Contents()) == Renamed(old(Contents()), from, to, overwrite, ignoreIfExists, createParents, links)
    {
      var n := NormalizePath(to);
      if createParents && n != [] && n[|n| - 1].Normal? {
        outcome := CreateDir(n[..|n| - 1], links);
        if !outcome.Done? { return; }
      }
      outcome := MoveEntry(from, to, overwrite, ignoreIfExists, links);
    }
  }

  lemma {:induction false} FirstIsKept(trash: seq<Trashed>, key: Key, n: nat)
    requires n <= |trash| && FirstWith(trash[..n], key).Some?
    ensures FirstWith(trash, key) == FirstWith(trash[..n], key)
    decreases |trash|
  {
    if n == |trash| {
      assert trash[..n] == trash;
    } else {
      var rest := trash[..|trash| - 1];
      assert rest[..n] == trash[..n];
      FirstIsKept(rest, key, n);
    }
  }
}
