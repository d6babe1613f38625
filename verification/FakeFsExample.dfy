/**
 A rename that leaves two entries with the same inode: it overwrites a link that its own old path
 goes through.
 */
module FakeFsExample {
  import opened Paths
  import opened Wrappers
  import opened FakeTree
  import opened Resolution
  import opened Inodes
  import opened FakeFs
  import opened FakeFsRuns

  /** `d/x/x` is a file and `l` is a link to `d`. */
  function Tree(d: Name, l: Name, x: Name): Entry {
    Dir(0, map[d := Dir(1, map[x := Inner(x)]), l := Symlink(Absolute([d]))])
  }

  function Inner(x: Name): Entry {
    Dir(2, map[x := File(3, [])])
  }

  function Before(d: Name, l: Name, x: Name): Store {
    Store(Tree(d, l, x), [], 4)
  }

  function Steps(d: Name, l: Name, x: Name): seq<Op> {
    [CreateDir(Absolute([d, x])), TouchPath(Absolute([d, x, x])), CreateSymlink(Absolute([l]), Absolute([d]))]
  }

  lemma ShortPaths(a: Name, b: Name)
    ensures Absolute([a]) == [RootDir, Normal(a)] && Absolute([a, b]) == [RootDir, Normal(a), Normal(b)]
  {
    assert [a][1..] == [] && [a, b][1..] == [b] && [b][1..] == [];
    assert Normals([b]) == [Normal(b)] + Normals([]) && Normals([a]) == [Normal(a)] + Normals([]);
    assert Normals([a, b]) == [Normal(a)] + Normals([b]);
  }

  lemma FirstStep(d: Name, x: Name, links: nat)
    ensures Apply(Empty(), CreateDir(Absolute([d, x])), links)
         == Reply(Done, Store(Dir(0, map[d := Dir(1, map[x := Dir(2, map[])])]), [], 3))
  {
    var path := Absolute([d, x]);
    ShortPaths(d, x);
    assert path == [RootDir, Normal(d), Normal(x)];
    var s1 := Store(Dir(0, map[d := Dir(1, map[])]), [], 2);
    assert [] + [path[0]] == [RootDir];
    assert [RootDir] + [path[1]] == Absolute([d]);
    assert Absolute([d]) + [path[2]] == path;
    assert IsSlot(Empty().root, [d]) && Walk(Empty().root, [d]).None?;
    SlotForAbsolute(Empty().root, [d], links);
    assert SetAt(Empty().root, [d], Some(Dir(1, map[]))) == s1.root;
    assert [d, x][..1] == [d] && [d][1..] == [] && [d, x][1..] == [x] && [x][1..] == [];
    assert Walk(s1.root, [d]) == Some(Dir(1, map[]));
    assert IsSlot(s1.root, [d, x]) && Walk(s1.root, [d, x]).None?;
    SlotForAbsolute(s1.root, [d, x], links);
    assert SetAt(Dir(1, map[]), [x], Some(Dir(2, map[]))) == Dir(1, map[x := Dir(2, map[])]);
    var s2 := Store(Dir(0, map[d := Dir(1, map[x := Dir(2, map[])])]), [], 3);
    assert SetAt(s1.root, [d, x], Some(Dir(2, map[]))) == s2.root;
    assert path[1..] == [Normal(d), Normal(x)] && [Normal(d), Normal(x)][1..] == [Normal(x)] && [Normal(x)][1..] == [];
    assert DirsCreated(s2, path, [], links) == Reply(Done, s2);
    assert DirsCreated(s1, Absolute([d]), [Normal(x)], links) == Reply(Done, s2);
    assert DirsCreated(Empty(), [RootDir], [Normal(d), Normal(x)], links) == Reply(Done, s2);
  }

  lemma SecondStep(d: Name, x: Name, links: nat)
    ensures Apply(Store(Dir(0, map[d := Dir(1, map[x := Dir(2, map[])])]), [], 3), TouchPath(Absolute([d, x, x])), links)
         == Reply(Done, Store(Dir(0, map[d := Dir(1, map[x := Inner(x)])]), [], 4))
  {
    var root := Dir(0, map[d := Dir(1, map[x := Dir(2, map[])])]);
    assert [d, x, x][..2] == [d, x] && [d, x][1..] == [x] && [x][1..] == [] && [d, x, x][1..] == [x, x] && [x, x][1..] == [x];
    assert Walk(Dir(1, map[x := Dir(2, map[])]), [x]) == Some(Dir(2, map[]));
    assert Walk(root, [d, x]) == Some(Dir(2, map[]));
    assert Walk(Dir(1, map[x := Dir(2, map[])]), [x, x]).None?;
    SlotForAbsolute(root, [d, x, x], links);
    assert Walk(root, [d, x, x]).None?;
    assert SetAt(Dir(2, map[]), [x], Some(File(3, []))) == Inner(x);
    assert SetAt(Dir(1, map[x := Dir(2, map[])]), [x, x], Some(File(3, []))) == Dir(1, map[x := Inner(x)]);
    assert SetAt(root, [d, x, x], Some(File(3, []))) == Dir(0, map[d := Dir(1, map[x := Inner(x)])]);
  }

  lemma ThirdStep(d: Name, l: Name, x: Name, links: nat)
    requires d != l
    ensures Apply(Store(Dir(0, map[d := Dir(1, map[x := Inner(x)])]), [], 4), CreateSymlink(Absolute([l]), Absolute([d])), links)
         == Reply(Done, Before(d, l, x))
  {
    var root := Dir(0, map[d := Dir(1, map[x := Inner(x)])]);
    assert [l][..0] == [];
    SlotForAbsolute(root, [l], links);
    assert SetAt(root, [l], Some(Symlink(Absolute([d])))) == Tree(d, l, x);
  }

  /** The state before the rename is reached from the empty filesystem, and its inodes are distinct. */
  lemma BeforeIsReachable(d: Name, l: Name, x: Name, links: nat)
    requires d != l
    ensures AfterRun(Empty(), Steps(d, l, x), links) == Some(Before(d, l, x)) && UniqueInodes(Before(d, l, x))
  {
    var ops := Steps(d, l, x);
    var s1 := Apply(Empty(), ops[0], links).store;
    var s2 := Apply(s1, ops[1], links).store;
    FirstStep(d, x, links);
    SecondStep(d, x, links);
    ThirdStep(d, l, x, links);
    assert ops[1..] == [ops[1], ops[2]] && ops[1..][1..] == [ops[2]] && ops[1..][1..][1..] == [];
    assert AfterRun(s2, [ops[2]], links) == Some(Before(d, l, x));
    EmptyIsUnique();
    OtherStepsKeepUnique(Empty(), ops[0], links);
    OtherStepsKeepUnique(s1, ops[1], links);
    OtherStepsKeepUnique(s2, ops[2], links);
  }

  lemma OldPathGoesThroughLink(d: Name, l: Name, x: Name, links: nat)
    requires d != l && links > 0
    ensures SlotFor(Tree(d, l, x), Absolute([l, x]), links) == Slot([d, x])
  {
    var root := Tree(d, l, x);
    AbsoluteParts([l, x]);
    assert [l, x][..1] == [l];
    ShortPaths(l, x);
    assert [] + [l] == [l] && [l][1..] == [] && [] + [d] == [d] && [d][1..] == [];
    assert Walk(root, [l]) == Some(Symlink(Absolute([d])));
    assert IsDirAt(root, [d]);
    CanonicalIff(root, [d], true);
    CanonicalIsFixed(root, [d], true, links - 1);
    assert Absolute([d]) + [] == Absolute([d]);
    assert Absolute([l])[1..] == [Normal(l)] && [Normal(l)][1..] == [];
    assert Resolve(root, Some([]), Absolute([d]), true, links - 1) == Found([d]);
    assert Resolve(root, Some([]), [Normal(l)], true, links) == Found([d]);
    assert [d] + [x] == [d, x];
  }

  lemma MoveCanRepeatInodes(d: Name, l: Name, x: Name, links: nat)
    requires d != l && links > 0
    ensures UniqueInodes(Before(d, l, x))
    ensures var r := Moved(Before(d, l, x), Absolute([l, x]), Absolute([l]), true, false, links);
            r.outcome.Done? && !UniqueInodes(r.store)
  {
    var s := Before(d, l, x);
    var p, q := [d, x], [l];
    BeforeIsReachable(d, l, x, links);
    OldPathGoesThroughLink(d, l, x, links);
    assert q[..0] == [] && p[..1] == [d] && p[1..] == [x] && [x][1..] == [] && [d][1..] == [] && [l][1..] == [];
    assert Walk(s.root.entries[d], [x]) == Some(Inner(x));
    assert Walk(s.root, p) == Some(Inner(x));
    SlotForAbsolute(s.root, q, links);
    var after := SetAt(s.root, q, Some(Inner(x)));
    assert after.entries[l] == Inner(x);
    assert Walk(after, q) == Some(Inner(x));
    assert [l, x][..1] == [l] && [l, x][1..] == [x];
    assert Walk(Inner(x), [x]) == Some(File(3, []));
    assert Walk(after, [l, x]) == Some(File(3, []));
    SlotForAbsolute(after, [l, x], links);
    MovedKeepsUniqueIff(s, Absolute([l, x]), Absolute([l]), true, false, links);
    assert !OneCopyLeft(s.root, p, q, [l, x]) by {
      assert p[0] != q[0] && [l, x][0] != p[0];
    }
  }

  /** The rename completes, and two entries have the same inode. */
  lemma RenameCanRepeatInodes(d: Name, l: Name, x: Name, links: nat)
    requires d != l && links > 0
    ensures UniqueInodes(Before(d, l, x))
    ensures var r := Apply(Before(d, l, x), Rename(Absolute([l, x]), Absolute([l]), true, false, false), links);
            r.outcome.Done? && !UniqueInodes(r.store)
  {
    MoveCanRepeatInodes(d, l, x, links);
  }

  function LinkTo(l: Name, target: seq<Component>): Entry {
    Dir(0, map[l := Symlink(target)])
  }

  lemma LoopLeadsBack(l: Name, links: nat)
    requires links > 0
    ensures SlotFor(LinkTo(l, [RootDir]), Absolute([l, l]), links) == Slot([l])
  {
    var root := LinkTo(l, [RootDir]);
    ShortPaths(l, l);
    AbsoluteParts([l, l]);
    assert [l, l][..1] == [l] && [] + [l] == [l] && [l][1..] == [];
    assert Absolute([l])[1..] == [Normal(l)] && [Normal(l)][1..] == [] && [RootDir] + [] == [RootDir] && [RootDir][1..] == [];
    assert Walk(root, [l]) == Some(Symlink([RootDir]));
    assert Resolve(root, Some([]), [RootDir], true, links - 1) == Found([]);
    assert Resolve(root, Some([]), [Normal(l)], true, links) == Found([]);
  }

  lemma DanglingLeadsNowhere(l: Name, x: Name, links: nat)
    requires l != x && links > 0
    ensures Resolve(LinkTo(l, Absolute([x])), None, Absolute([l, l]), false, links) == Missing
  {
    var root := LinkTo(l, Absolute([x]));
    ShortPaths(l, l);
    ShortPaths(x, x);
    assert [] + [l] == [l] && [l][1..] == [] && [] + [x] == [x] && [x][1..] == [];
    assert Walk(root, [l]) == Some(Symlink(Absolute([x]))) && x !in root.entries;
    assert Walk(root, [x]).None?;
    var rest := [Normal(x), Normal(l)];
    assert Absolute([x]) + [Normal(l)] == [RootDir] + rest && ([RootDir] + rest)[1..] == rest;
    assert Resolve(root, Some([]), rest, false, links - 1) == Missing;
    assert Absolute([l, l])[1..] == [Normal(l), Normal(l)] && [Normal(l), Normal(l)][1..] == [Normal(l)];
    assert Resolve(root, Some([]), [Normal(l), Normal(l)], false, links) == Missing;
  }

  /** A link made over a link that its own path goes through is not found by that path. */
  lemma LinkCanVanish(l: Name, x: Name, links: nat)
    requires l != x && links > 0
    ensures var s := Linked(Empty(), Absolute([l]), [RootDir], links).store;
            var r := Linked(s, Absolute([l, l]), Absolute([x]), links);
            r.outcome.Done? && Resolve(r.store.root, None, Absolute([l, l]), false, links) == Missing
  {
    assert [l][..0] == [];
    SlotForAbsolute(Empty().root, [l], links);
    assert SetAt(Empty().root, [l], Some(Symlink([RootDir]))) == LinkTo(l, [RootDir]);
    LoopLeadsBack(l, links);
    assert SetAt(LinkTo(l, [RootDir]), [l], Some(Symlink(Absolute([x])))) == LinkTo(l, Absolute([x]));
    DanglingLeadsNowhere(l, x, links);
  }
}
