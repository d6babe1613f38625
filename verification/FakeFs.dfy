/**
 The in-memory filesystem used in tests: its operations on the tree, the trash and the inode counter.
 */
module FakeFs {
  import opened Paths
  import opened Wrappers
  import opened FakeTree
  import opened Resolution
  import opened Inodes

  // ---------- Normalizing paths ----------

  /** `..` goes up in the text of the path, and has no effect at its start. */
  function Pop(path: seq<Component>): seq<Component> {
    if path == [] || path[|path| - 1].RootDir? then path else path[..|path| - 1]
  }

  function NormalizedOnto(done: seq<Component>, path: seq<Component>): seq<Component>
    decreases |path|
  {
    if path == [] then done
    else NormalizedOnto(match path[0]
                        case RootDir => [RootDir]
                        case CurDir => done
                        case ParentDir => Pop(done)
                        case Normal(_) => done + [path[0]], path[1..])
  }

  function Normalized(path: seq<Component>): seq<Component> {
    NormalizedOnto([], path)
  }

  /** Names only, after an optional root. */
  predicate IsNormal(path: seq<Component>) {
    forall i :: 0 <= i < |path| ==> path[i].Normal? || (i == 0 && path[i].RootDir?)
  }

  lemma {:induction false} NormalizedIsNormal(done: seq<Component>, path: seq<Component>)
    requires IsNormal(done)
    ensures IsNormal(NormalizedOnto(done, path))
    decreases |path|
  {
    if path != [] {
      var next := match path[0]
        case RootDir => [RootDir]
        case CurDir => done
        case ParentDir => Pop(done)
        case Normal(_) => done + [path[0]];
      NormalizedIsNormal(next, path[1..]);
    }
  }

  lemma {:induction false} NormalIsFixed(done: seq<Component>, path: seq<Component>)
    requires IsNormal(done + path)
    ensures NormalizedOnto(done, path) == done + path
    decreases |path|
  {
    if path != [] {
      assert (done + path)[|done|] == path[0];
      if path[0].RootDir? {
        assert done == [];
        assert [RootDir] + path[1..] == done + path;
        NormalIsFixed([RootDir], path[1..]);
      } else {
        assert done + [path[0]] + path[1..] == done + path;
        NormalIsFixed(done + [path[0]], path[1..]);
      }
    } else {
      assert done + path == done;
    }
  }

  lemma {:induction false} AbsoluteIsNormal(p: Path)
    ensures |Normals(p)| == |p| && (forall i :: 0 <= i < |p| ==> Normals(p)[i] == Normal(p[i]))
    ensures IsNormal(Absolute(p))
  {
    if p != [] {
      AbsoluteIsNormal(p[1..]);
    }
  }

  lemma {:induction false} NormalizingFollowsTheTree(root: Entry, at: Path, path: seq<Component>)
    requires Resolve(root, Some(at), path, true, 0).Found?
    ensures NormalizedOnto(Absolute(at), path) == Absolute(Resolve(root, Some(at), path, true, 0).names)
    decreases |path|
  {
    if path != [] {
      AbsoluteIsNormal(at);
      match path[0] {
        case RootDir =>
          assert Absolute([]) == [RootDir];
          NormalizingFollowsTheTree(root, [], path[1..]);
        case CurDir => NormalizingFollowsTheTree(root, at, path[1..]);
        case ParentDir =>
          if at == [] {
            AboveTheRoot(root, path[1..]);
          } else {
            var up := at[..|at| - 1];
            AbsoluteIsNormal(up);
            assert Absolute(up) == Pop(Absolute(at));
            NormalizingFollowsTheTree(root, up, path[1..]);
          }
        case Normal(name) =>
          AbsoluteIsNormal(at + [name]);
          assert Absolute(at + [name]) == Absolute(at) + [Normal(name)];
          NormalizingFollowsTheTree(root, at + [name], path[1..]);
      }
    }
  }

  /** A resolution that leaves the root by `..` can only start over at the root. */
  lemma {:induction false} AboveTheRoot(root: Entry, path: seq<Component>)
    requires Resolve(root, None, path, true, 0).Found?
    ensures NormalizedOnto(Absolute([]), path) == Absolute(Resolve(root, None, path, true, 0).names)
    decreases |path|
  {
    assert Absolute([]) == [RootDir];
    match path[0] {
      case RootDir => NormalizingFollowsTheTree(root, [], path[1..]);
      case CurDir => AboveTheRoot(root, path[1..]);
      case _ =>
    }
  }

  /** Where no link is met, normalizing the text of a path agrees with following it. */
  lemma NormalizingIsResolvingWithoutLinks(root: Entry, path: seq<Component>)
    requires path != [] && path[0].RootDir? && Resolve(root, None, path, true, 0).Found?
    ensures Normalized(path) == Absolute(Resolve(root, None, path, true, 0).names)
  {
    assert Absolute([]) == [RootDir];
    NormalizingFollowsTheTree(root, [], path[1..]);
  }

  method NormalizePath(path: seq<Component>) returns (r: seq<Component>)
    ensures r == Normalized(path)
  {
    r := [];
    var i := 0;
    while i < |path|
      invariant 0 <= i <= |path| && Normalized(path) == NormalizedOnto(r, path[i..])
    {
      assert path[i..][1..] == path[i + 1..];
      match path[i] {
        case RootDir => r := [RootDir];
        case CurDir =>
        case ParentDir => r := Pop(r);
        case Normal(_) => r := r + [path[i]];
      }
      i := i + 1;
    }
  }

  // ---------- The place a path writes to ----------

  /** `Refused` stands for every error: no file name, no parent, or a parent that is not a directory. */
  datatype Attempt = Slot(path: Path) | Refused | NotEnding

  function SlotFor(root: Entry, path: seq<Component>, links: nat): (a: Attempt)
    ensures a.Slot? ==> IsSlot(root, a.path)
  {
    var n := Normalized(path);
    if n == [] || !n[|n| - 1].Normal? then Refused
    else
      match Resolve(root, None, n[..|n| - 1], true, links)
      case Found(parent) =>
        assert (parent + [n[|n| - 1].name])[..|parent|] == parent;
        if IsDirAt(root, parent) then Slot(parent + [n[|n| - 1].name]) else Refused
      case Missing => Refused
      case Unfinished => NotEnding
  }

  lemma AbsoluteParts(p: Path)
    requires p != []
    ensures Normalized(Absolute(p)) == Absolute(p)
    ensures |Absolute(p)| == |p| + 1 && Absolute(p)[|p|] == Normal(p[|p| - 1])
    ensures Absolute(p)[..|p|] == Absolute(p[..|p| - 1])
  {
    var up := p[..|p| - 1];
    AbsoluteIsNormal(p);
    AbsoluteIsNormal(up);
    assert [] + Absolute(p) == Absolute(p);
    NormalIsFixed([], Absolute(p));
  }

  /** A canonical path writes to the place it names. */
  lemma SlotForAbsolute(root: Entry, p: Path, links: nat)
    requires IsSlot(root, p)
    ensures SlotFor(root, Absolute(p), links) == Slot(p)
  {
    var up := p[..|p| - 1];
    AbsoluteParts(p);
    assert Resolve(root, None, Absolute(up), true, links) == Found(up) by {
      CanonicalIff(root, up, true);
      CanonicalIsFixed(root, up, true, links);
    }
    assert up + [p[|p| - 1]] == p;
  }

  // ---------- The operations ----------

  datatype Outcome = Done | Failed | Panicked | Unending

  datatype Reply = Reply(outcome: Outcome, store: Store)

  datatype Op =
    | TouchPath(path: seq<Component>)
    | WriteFile(path: seq<Component>, content: Content, recreateInode: bool)
    | CreateSymlink(path: seq<Component>, target: seq<Component>)
    | CreateDir(path: seq<Component>)
    | CreateFile(path: seq<Component>, overwrite: bool, ignoreIfExists: bool)
    | Rename(old_: seq<Component>, new_: seq<Component>, overwrite: bool, ignoreIfExists: bool, createParents: bool)
    | CopyFile(source: seq<Component>, target: seq<Component>, overwrite: bool, ignoreIfExists: bool)
    | RemoveDir(path: seq<Component>, recursive: bool, ignoreIfNotExists: bool)
    | RemoveFile(path: seq<Component>, ignoreIfNotExists: bool)
    | Trash(path: seq<Component>, recursive: bool, ignoreIfNotExists: bool)
    | Restore(key: Key)

  function Skipped(s: Store): Store {
    s.(nextInode := s.nextInode + 1)
  }

  /** What an operation answers when it has no slot to work on. */
  function NoSlot(a: Attempt, refusal: Outcome, s: Store): Reply {
    Reply(if a.NotEnding? then Unending else refusal, s)
  }

  function Touched(s: Store, path: seq<Component>, links: nat): Reply {
    match SlotFor(s.root, path, links)
    case Slot(p) => Reply(Done, Skipped(if Walk(s.root, p).None? then PutAt(s, p, File(s.nextInode, [])) else s))
    case a => NoSlot(a, Panicked, Skipped(s))
  }

  function Written(s: Store, path: seq<Component>, content: Content, recreateInode: bool, links: nat): Reply {
    match SlotFor(s.root, path, links)
    case Slot(p) =>
      var here := Walk(s.root, p);
      if here.None? then Reply(Done, Skipped(PutAt(s, p, File(s.nextInode, content))))
      else if here.value.File? then
        Reply(Done, Skipped(PutAt(s, p, File(if recreateInode then s.nextInode else here.value.inode, content))))
      else Reply(Failed, Skipped(s))
    case a => NoSlot(a, Failed, Skipped(s))
  }

  function Linked(s: Store, path: seq<Component>, target: seq<Component>, links: nat): Reply {
    match SlotFor(s.root, path, links)
    case Slot(p) => Reply(Done, PutAt(s, p, Symlink(target)))
    case a => NoSlot(a, Panicked, s)
  }

  /** One directory after the other, each with a number of its own, used or not. */
  function DirsCreated(s: Store, above: seq<Component>, path: seq<Component>, links: nat): Reply
    decreases |path|
  {
    if path == [] then Reply(Done, s)
    else
      var current := above + [path[0]];
      if path[0].RootDir? then DirsCreated(s, current, path[1..], links)
      else
        match SlotFor(s.root, current, links)
        case Slot(p) =>
          var s' := Skipped(if Walk(s.root, p).None? then PutAt(s, p, Dir(s.nextInode, map[])) else s);
          DirsCreated(s', current, path[1..], links)
        case a => NoSlot(a, Failed, Skipped(s))
  }

  function FileCreated(s: Store, path: seq<Component>, overwrite: bool, ignoreIfExists: bool, links: nat): Reply {
    match SlotFor(s.root, path, links)
    case Slot(p) =>
      if Walk(s.root, p).None? || overwrite then Reply(Done, Skipped(PutAt(s, p, File(s.nextInode, []))))
      else Reply(if ignoreIfExists then Done else Failed, Skipped(s))
    case a => NoSlot(a, Failed, Skipped(s))
  }

  function Copied(s: Store, source: seq<Component>, target: seq<Component>, overwrite: bool, ignoreIfExists: bool, links: nat): Reply {
    match Resolve(s.root, None, Normalized(source), true, links)
    case Unfinished => Reply(Unending, Skipped(s))
    case Missing => Reply(Failed, Skipped(s))
    case Found(from) =>
      var file := Walk(s.root, from);
      if file.None? || !file.value.File? then Reply(Failed, Skipped(s))
      else
        match SlotFor(s.root, target, links)
        case Slot(p) =>
          if Walk(s.root, p).None? then Reply(Done, Skipped(PutAt(s, p, File(s.nextInode, file.value.content))))
          else Reply(if overwrite || ignoreIfExists then Done else Failed, Skipped(s))
        case a => NoSlot(a, Failed, Skipped(s))
  }

  /** The entry at a path, to be removed: none if there is none and that is ignored. */
  datatype Removal = Removal(outcome: Outcome, slot: Option<Path>)

  function RemovalFor(root: Entry, path: seq<Component>, dirs: bool, recursive: bool, ignoreIfNotExists: bool, links: nat): (r: Removal)
    ensures r.slot.Some? ==> IsSlot(root, r.slot.value) && Walk(root, r.slot.value).Some? && r.outcome == Done
  {
    match SlotFor(root, path, links)
    case NotEnding => Removal(Unending, None)
    case Refused => Removal(Failed, None)
    case Slot(p) =>
      match Walk(root, p)
      case None => Removal(if ignoreIfNotExists then Done else Failed, None)
      case Some(e) =>
        if (if dirs then e.Dir? && (recursive || e.entries == map[]) else e.File?) then Removal(Done, Some(p))
        else Removal(Failed, None)
  }

  function Removed(s: Store, path: seq<Component>, dirs: bool, recursive: bool, ignoreIfNotExists: bool, links: nat): Reply {
    var r := RemovalFor(s.root, path, dirs, recursive, ignoreIfNotExists, links);
    Reply(r.outcome, if r.slot.Some? then RemoveAt(s, r.slot.value) else s)
  }

  /** Whether a path is a directory, links followed. */
  function IsDirPath(root: Entry, path: seq<Component>, links: nat): Option<bool> {
    match Resolve(root, None, Normalized(path), false, links)
    case Unfinished => None
    case Missing => Some(false)
    case Found(p) =>
      if Walk(root, p).Some? && Walk(root, p).value.Symlink? then
        match Resolve(root, None, Normalized(path), true, links)
        case Unfinished => None
        case Missing => Some(false)
        case Found(q) => Some(IsDirAt(root, q))
      else Some(IsDirAt(root, p))
  }

  function KeyOf(path: seq<Component>): Key {
    var n := Normalized(path);
    if n == [] || !n[|n| - 1].Normal? then Key("", []) else Key(n[|n| - 1].name, n[..|n| - 1])
  }

  function MovedToTrash(s: Store, path: seq<Component>, recursive: bool, ignoreIfNotExists: bool, links: nat): Reply {
    var n := Normalized(path);
    if n == [] || !n[|n| - 1].Normal? then Reply(Failed, s)
    else
      match IsDirPath(s.root, path, links)
      case None => Reply(Unending, s)
      case Some(dirs) =>
        var r := RemovalFor(s.root, path, dirs, recursive, ignoreIfNotExists, links);
        if r.slot.None? then Reply(if r.outcome.Done? then Failed else r.outcome, s)
        else Reply(Done, Discarded(s, r.slot.value, KeyOf(path)))
  }

  function FirstWith(trash: seq<Trashed>, key: Key): (r: Option<nat>)
    ensures r.Some? ==> r.value < |trash| && trash[r.value].key == key
    ensures r.None? ==> forall i :: 0 <= i < |trash| ==> trash[i].key != key
  {
    if trash == [] then None
    else
      var r := FirstWith(trash[..|trash| - 1], key);
      if r.Some? then r else if trash[|trash| - 1].key == key then Some(|trash| - 1) else None
  }

  function TakenFromTrash(s: Store, key: Key, links: nat): Reply {
    match FirstWith(s.trash, key)
    case None => Reply(Failed, s)
    case Some(n) =>
      match SlotFor(s.root, key.parent + [Normal(key.name)], links)
      case Slot(p) => if Walk(s.root, p).None? then Reply(Done, Restored(s, p, n)) else Reply(Failed, s)
      case a => NoSlot(a, Failed, s)
  }

  function ParentOf(path: seq<Component>): Option<seq<Component>> {
    var n := Normalized(path);
    if n == [] || !n[|n| - 1].Normal? then None else Some(n[..|n| - 1])
  }

  /** The entry is looked up, copied to its new path, and removed from its old path, which is looked up again. */
  function Moved(s: Store, from: seq<Component>, to: seq<Component>, overwrite: bool, ignoreIfExists: bool, links: nat): Reply {
    match SlotFor(s.root, from, links)
    case Slot(p) =>
      if Walk(s.root, p).None? then Reply(Failed, s)
      else
        (match SlotFor(s.root, to, links)
         case Slot(q) =>
           var written := Walk(s.root, q).None? || overwrite;
           if !written && !ignoreIfExists then Reply(Failed, s)
           else
             var s' := if written then PutAt(s, q, Walk(s.root, p).value) else s;
             (match SlotFor(s'.root, from, links)
              case Slot(gone) => if Walk(s'.root, gone).Some? then Reply(Done, RemoveAt(s', gone)) else Reply(Panicked, s')
              case a => NoSlot(a, Panicked, s'))
         case a => NoSlot(a, Failed, s))
    case a => NoSlot(a, Failed, s)
  }

  function WithParents(s: Store, path: seq<Component>, createParents: bool, links: nat): Reply {
    if createParents && ParentOf(path).Some? then DirsCreated(s, [], ParentOf(path).value, links) else Reply(Done, s)
  }

  function Renamed(s: Store, from: seq<Component>, to: seq<Component>, overwrite: bool, ignoreIfExists: bool,
                   createParents: bool, links: nat): Reply
  {
    var r := WithParents(s, to, createParents, links);
    if r.outcome.Done? then Moved(r.store, from, to, overwrite, ignoreIfExists, links) else r
  }

  /** What an operation does; `links` bounds the links one resolution may follow. */
  function Apply(s: Store, op: Op, links: nat): Reply {
    match op
    case TouchPath(path) => Touched(s, path, links)
    case WriteFile(path, content, recreateInode) => Written(s, path, content, recreateInode, links)
    case CreateSymlink(path, target) => Linked(s, path, target, links)
    case CreateDir(path) => DirsCreated(s, [], path, links)
    case CreateFile(path, overwrite, ignoreIfExists) => FileCreated(s, path, overwrite, ignoreIfExists, links)
    case Rename(from, to, overwrite, ignoreIfExists, createParents) =>
      Renamed(s, from, to, overwrite, ignoreIfExists, createParents, links)
    case CopyFile(source, target, overwrite, ignoreIfExists) => Copied(s, source, target, overwrite, ignoreIfExists, links)
    case RemoveDir(path, recursive, ignoreIfNotExists) => Removed(s, path, true, recursive, ignoreIfNotExists, links)
    case RemoveFile(path, ignoreIfNotExists) => Removed(s, path, false, false, ignoreIfNotExists, links)
    case Trash(path, recursive, ignoreIfNotExists) => MovedToTrash(s, path, recursive, ignoreIfNotExists, links)
    case Restore(key) => TakenFromTrash(s, key, links)
  }
}
