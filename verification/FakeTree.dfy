/**
 The tree of an in-memory filesystem: what is at a location, and how writing one location changes
 the rest.
 */
module FakeTree {
  import opened Paths
  import opened Wrappers

  datatype Component = RootDir | CurDir | ParentDir | Normal(name: Name)

  type Content = seq<bv8>

  datatype Entry =
    | File(inode: nat, content: Content)
    | Dir(inode: nat, entries: map<Name, Entry>)
    | Symlink(target: seq<Component>)

  /** The entry reached by going down name by name, through directories only. */
  function Walk(e: Entry, p: Path): Option<Entry>
    decreases |p|
  {
    if p == [] then Some(e)
    else if e.Dir? && p[0] in e.entries then Walk(e.entries[p[0]], p[1..])
    else None
  }

  predicate IsDirAt(e: Entry, p: Path) {
    Walk(e, p).Some? && Walk(e, p).value.Dir?
  }

  /** A location whose entry can be set: its parent is a directory. */
  predicate IsSlot(root: Entry, p: Path) {
    p != [] && IsDirAt(root, p[..|p| - 1])
  }

  /** The tree with `v` at a slot, or with nothing there. */
  function SetAt(e: Entry, p: Path, v: Option<Entry>): Entry
    requires p != []
    decreases |p|
  {
    if !e.Dir? then e
    else if |p| == 1 then
      Dir(e.inode, if v.Some? then e.entries[p[0] := v.value] else e.entries - {p[0]})
    else if p[0] in e.entries then
      Dir(e.inode, e.entries[p[0] := SetAt(e.entries[p[0]], p[1..], v)])
    else e
  }

  function Inode(e: Entry): Option<nat> {
    match e
    case File(inode, _) => Some(inode)
    case Dir(inode, _) => Some(inode)
    case Symlink(_) => None
  }

  function InodeAt(e: Entry, p: Path): Option<nat> {
    var found := Walk(e, p);
    if found.Some? then Inode(found.value) else None
  }

  // ---------- Walking ----------

  lemma {:induction false} WalkConcat(e: Entry, p: Path, q: Path)
    ensures Walk(e, p + q) == if Walk(e, p).Some? then Walk(Walk(e, p).value, q) else None
    decreases |p|
  {
    if p == [] {
      assert p + q == q;
    } else {
      assert (p + q)[0] == p[0] && (p + q)[1..] == p[1..] + q;
      if e.Dir? && p[0] in e.entries {
        WalkConcat(e.entries[p[0]], p[1..], q);
      }
    }
  }

  lemma WalkStep(e: Entry, p: Path, name: Name)
    ensures Walk(e, p + [name]) == if IsDirAt(e, p) && name in Walk(e, p).value.entries
                                   then Some(Walk(e, p).value.entries[name]) else None
  {
    WalkConcat(e, p, [name]);
    assert [name][1..] == [];
  }

  /** Everything above an entry is a directory. */
  lemma AncestorsAreDirs(e: Entry, p: Path, n: nat)
    requires Walk(e, p).Some? && n < |p|
    ensures IsDirAt(e, p[..n])
  {
    WalkConcat(e, p[..n], p[n..]);
    assert p[..n] + p[n..] == p;
  }

  lemma NothingBelowNothing(e: Entry, p: Path, q: Path)
    requires Walk(e, p).None? && Walk(e, q).Some?
    ensures !(p <= q)
  {
    if p <= q {
      assert p + q[|p|..] == q;
      WalkConcat(e, p, q[|p|..]);
    }
  }

  // ---------- Setting ----------

  /** At the slot and below it is the new entry; the rest keeps its kind, its inode and its other children. */
  lemma {:induction false} WalkAfterSet(e: Entry, p: Path, v: Option<Entry>, q: Path)
    requires IsSlot(e, p)
    ensures p <= q ==> Walk(SetAt(e, p, v), q) == if v.Some? then Walk(v.value, q[|p|..]) else None
    ensures !(p <= q) && !(q <= p) ==> Walk(SetAt(e, p, v), q) == Walk(e, q)
    ensures q <= p && q != p ==> IsDirAt(e, q) && Walk(SetAt(e, p, v), q) == Some(SetAt(Walk(e, q).value, p[|q|..], v))
    decreases |p|
  {
    assert Walk(e, []).Some?;
    if q == [] {
      SlotIsInDir(e, p);
      assert p[0..] == p;
    } else if |p| == 1 {
      assert p[..0] == [];
      assert q[1..] == q[|p|..];
      assert p <= q <==> p[0] == q[0];
    } else {
      SlotIsInDir(e, p);
      assert p[..|p| - 1][1..] == p[1..][..|p[1..]| - 1];
      var child := e.entries[p[0]];
      assert IsSlot(child, p[1..]);
      if q[0] == p[0] {
        WalkAfterSet(child, p[1..], v, q[1..]);
        assert p <= q <==> p[1..] <= q[1..];
        assert q <= p <==> q[1..] <= p[1..];
        if p <= q { assert q[1..][|p[1..]|..] == q[|p|..]; }
        if q <= p { assert p[1..][|q[1..]|..] == p[|q|..]; }
      }
    }
  }

  lemma SlotIsInDir(e: Entry, p: Path)
    requires IsSlot(e, p)
    ensures e.Dir?
    ensures |p| > 1 ==> p[0] in e.entries
  {
    if |p| > 1 {
      assert p[..|p| - 1][0] == p[0];
    }
  }

  lemma InodeAfterSet(e: Entry, p: Path, v: Option<Entry>, q: Path)
    requires IsSlot(e, p)
    ensures InodeAt(SetAt(e, p, v), q)
         == if p <= q then (if v.Some? then InodeAt(v.value, q[|p|..]) else None) else InodeAt(e, q)
  {
    WalkAfterSet(e, p, v, q);
    if q <= p && q != p {
      SetKeepsInode(Walk(e, q).value, p[|q|..], v);
    }
  }

  lemma SetKeepsInode(e: Entry, p: Path, v: Option<Entry>)
    requires p != []
    ensures Inode(SetAt(e, p, v)) == Inode(e) && SetAt(e, p, v).Dir? == e.Dir?
  {
  }

  /** Inodes of an entry are the inodes below its location. */
  lemma InodeBelow(e: Entry, p: Path, q: Path)
    requires Walk(e, p).Some?
    ensures InodeAt(e, p + q) == InodeAt(Walk(e, p).value, q)
  {
    WalkConcat(e, p, q);
  }

  // ---------- Setting twice ----------

  lemma {:induction false} SetTwice(e: Entry, p: Path, v: Option<Entry>, w: Option<Entry>)
    requires IsSlot(e, p)
    ensures SetAt(SetAt(e, p, v), p, w) == SetAt(e, p, w)
    decreases |p|
  {
    SlotIsInDir(e, p);
    if |p| > 1 {
      assert p[..|p| - 1][1..] == p[1..][..|p[1..]| - 1];
      SetTwice(e.entries[p[0]], p[1..], v, w);
    }
  }

  lemma {:induction false} SetToItself(e: Entry, p: Path)
    requires IsSlot(e, p)
    ensures SetAt(e, p, Walk(e, p)) == e
    decreases |p|
  {
    SlotIsInDir(e, p);
    if |p| > 1 {
      assert p[..|p| - 1][1..] == p[1..][..|p[1..]| - 1];
      SetToItself(e.entries[p[0]], p[1..]);
    } else {
      assert p[1..] == [];
      assert p[0] !in e.entries ==> e.entries - {p[0]} == e.entries;
    }
  }

  /** Writes at unrelated locations commute. */
  lemma {:induction false} SetsCommute(e: Entry, p: Path, v: Option<Entry>, q: Path, w: Option<Entry>)
    requires IsSlot(e, p) && IsSlot(e, q) && !(p <= q) && !(q <= p)
    ensures SetAt(SetAt(e, p, v), q, w) == SetAt(SetAt(e, q, w), p, v)
    decreases |p|
  {
    SlotIsInDir(e, p);
    SlotIsInDir(e, q);
    var a, b := SetAt(SetAt(e, p, v), q, w), SetAt(SetAt(e, q, w), p, v);
    if p[0] == q[0] {
      assert |p| > 1 && |q| > 1;
      assert p[..|p| - 1][1..] == p[1..][..|p[1..]| - 1];
      assert q[..|q| - 1][1..] == q[1..][..|q[1..]| - 1];
      assert p[1..] <= q[1..] ==> p <= q;
      assert q[1..] <= p[1..] ==> q <= p;
      SetsCommute(e.entries[p[0]], p[1..], v, q[1..], w);
    }
    assert a.entries == b.entries;
  }

  /** A slot stays one under a write that is not above it. */
  lemma SetKeepsSlot(e: Entry, p: Path, v: Option<Entry>, q: Path)
    requires IsSlot(e, p) && IsSlot(e, q) && !(p <= q && p != q)
    ensures IsSlot(SetAt(e, p, v), q)
  {
    var up := q[..|q| - 1];
    WalkAfterSet(e, p, v, up);
    assert p <= up ==> p <= q && p != q;
    if up <= p && up != p {
      SetKeepsInode(Walk(e, up).value, p[|up|..], v);
    }
  }
}
