/**
 Path resolution with symbolic links. A path is its components; only the first can be the root or
 the current directory in a path that was read from text.
 */
module Resolution {
  import opened Paths
  import opened Wrappers
  import opened FakeTree

  /** `Unfinished` is a resolution that follows more links than it was allowed to. */
  datatype Resolution = Found(names: Path) | Missing | Unfinished

  /** Where `path` leads from `at`; from nowhere, before any root and above it, only the root can be reached. */
  function Resolve(root: Entry, at: Option<Path>, path: seq<Component>, follow: bool, fuel: nat): Resolution
    decreases fuel, |path|
  {
    if path == [] then (if at.Some? then Found(at.value) else Missing)
    else match path[0]
      case RootDir => Resolve(root, Some([]), path[1..], follow, fuel)
      case CurDir => Resolve(root, at, path[1..], follow, fuel)
      case ParentDir => if at.None? then Missing else Resolve(root, Above(at.value), path[1..], follow, fuel)
      case Normal(name) =>
        if at.None? then Missing
        else
          var next := Walk(root, at.value + [name]);
          if next.None? then Missing
          else if next.value.Symlink? && (|path| > 1 || follow) then
            if fuel == 0 then Unfinished else Resolve(root, at, next.value.target + path[1..], follow, fuel - 1)
          else Resolve(root, Some(at.value + [name]), path[1..], follow, fuel)
  }

  function Above(p: Path): Option<Path> {
    if p == [] then None else Some(p[..|p| - 1])
  }

  function Normals(p: Path): seq<Component> {
    if p == [] then [] else [Normal(p[0])] + Normals(p[1..])
  }

  function Absolute(p: Path): seq<Component> {
    [RootDir] + Normals(p)
  }

  /** A canonical location: it exists, so all above it are directories, and it is no link if links are followed. */
  ghost predicate Canonical(root: Entry, p: Path, follow: bool) {
    && Walk(root, p).Some?
    && (forall n :: 0 <= n < |p| ==> IsDirAt(root, p[..n]))
    && (follow ==> !Walk(root, p).value.Symlink?)
  }

  lemma CanonicalIff(root: Entry, p: Path, follow: bool)
    ensures Canonical(root, p, follow) <==> Walk(root, p).Some? && (follow ==> !Walk(root, p).value.Symlink?)
  {
    if Walk(root, p).Some? {
      forall n | 0 <= n < |p|
        ensures IsDirAt(root, p[..n])
      {
        AncestorsAreDirs(root, p, n);
      }
    }
  }

  lemma {:induction false} FoundFromIsCanonical(root: Entry, at: Option<Path>, path: seq<Component>, follow: bool, fuel: nat)
    requires root.Dir?
    requires at.Some? ==> Canonical(root, at.value, follow || path != [])
    requires Resolve(root, at, path, follow, fuel).Found?
    ensures Canonical(root, Resolve(root, at, path, follow, fuel).names, follow)
    decreases fuel, |path|
  {
    if path != [] {
      match path[0] {
        case RootDir =>
          CanonicalIff(root, [], true);
          FoundFromIsCanonical(root, Some([]), path[1..], follow, fuel);
        case CurDir =>
          if at.Some? { CanonicalIff(root, at.value, true); }
          FoundFromIsCanonical(root, at, path[1..], follow, fuel);
        case ParentDir =>
          var up := Above(at.value);
          if up.Some? {
            assert IsDirAt(root, up.value);
            CanonicalIff(root, up.value, true);
          }
          FoundFromIsCanonical(root, up, path[1..], follow, fuel);
        case Normal(name) =>
          var to := at.value + [name];
          var next := Walk(root, to).value;
          if next.Symlink? && (|path| > 1 || follow) {
            FoundFromIsCanonical(root, at, next.target + path[1..], follow, fuel - 1);
          } else {
            CanonicalIff(root, to, follow || path[1..] != []);
            FoundFromIsCanonical(root, Some(to), path[1..], follow, fuel);
          }
      }
    }
  }

  /** Whatever a resolution finds is the walk of the path it returns. */
  lemma FoundIsCanonical(root: Entry, path: seq<Component>, follow: bool, fuel: nat)
    requires root.Dir? && Resolve(root, None, path, follow, fuel).Found?
    ensures Canonical(root, Resolve(root, None, path, follow, fuel).names, follow)
  {
    FoundFromIsCanonical(root, None, path, follow, fuel);
  }

  lemma {:induction false} NormalsLeadThere(root: Entry, at: Path, names: Path, follow: bool, fuel: nat)
    requires Walk(root, at + names).Some? && (follow ==> !Walk(root, at + names).value.Symlink?)
    ensures Resolve(root, Some(at), Normals(names), follow, fuel) == Found(at + names)
    decreases |names|
  {
    if names == [] {
      assert at + names == at;
    } else {
      var to := at + [names[0]];
      assert to + names[1..] == at + names;
      WalkConcat(root, to, names[1..]);
      if |names| > 1 {
        AncestorsAreDirs(root, at + names, |to|);
        assert (at + names)[..|to|] == to;
        assert |Normals(names)| > 1;
      } else {
        assert names[1..] == [];
      }
      NormalsLeadThere(root, to, names[1..], follow, fuel);
      assert Normals(names)[1..] == Normals(names[1..]);
    }
  }

  /** Resolving a canonical location returns it unchanged, and follows no link to do so. */
  lemma CanonicalIsFixed(root: Entry, p: Path, follow: bool, fuel: nat)
    requires Canonical(root, p, follow)
    ensures Resolve(root, None, Absolute(p), follow, fuel) == Found(p)
  {
    assert [] + p == p;
    assert Absolute(p)[1..] == Normals(p);
    NormalsLeadThere(root, [], p, follow, fuel);
  }

  // ---------- How many links are allowed ----------

  /** A resolution that ends does not depend on how many links it was allowed to follow. */
  lemma {:induction false} MoreFuel(root: Entry, at: Option<Path>, path: seq<Component>, follow: bool, fuel: nat, more: nat)
    requires fuel <= more && !Resolve(root, at, path, follow, fuel).Unfinished?
    ensures Resolve(root, at, path, follow, more) == Resolve(root, at, path, follow, fuel)
    decreases fuel, |path|
  {
    if path != [] {
      match path[0] {
        case RootDir => MoreFuel(root, Some([]), path[1..], follow, fuel, more);
        case CurDir => MoreFuel(root, at, path[1..], follow, fuel, more);
        case ParentDir =>
          if at.Some? { MoreFuel(root, Above(at.value), path[1..], follow, fuel, more); }
        case Normal(name) =>
          if at.Some? && Walk(root, at.value + [name]).Some? {
            var next := Walk(root, at.value + [name]).value;
            if next.Symlink? && (|path| > 1 || follow) {
              MoreFuel(root, at, next.target + path[1..], follow, fuel - 1, more - 1);
            } else {
              MoreFuel(root, Some(at.value + [name]), path[1..], follow, fuel, more);
            }
          }
      }
    }
  }

  // ---------- Resolving in two parts ----------

  /** A path may be replaced, up to any point, by what that part resolves to. */
  lemma {:induction false} ResolveInTwoParts(root: Entry, at: Option<Path>, p: seq<Component>, q: seq<Component>,
                                             follow: bool, f: nat, g: nat)
    requires q != [] || follow
    requires Resolve(root, at, p, true, f).Found?
    requires var c := Resolve(root, at, p, true, f).names; !Resolve(root, Some(c), q, follow, g).Unfinished?
    ensures var c := Resolve(root, at, p, true, f).names;
            Resolve(root, at, p + q, follow, f + g) == Resolve(root, Some(c), q, follow, g)
    decreases f, |p|
  {
    if p == [] {
      assert p + q == q;
      MoreFuel(root, at, q, follow, g, f + g);
    } else {
      assert (p + q)[0] == p[0] && (p + q)[1..] == p[1..] + q;
      match p[0] {
        case RootDir => ResolveInTwoParts(root, Some([]), p[1..], q, follow, f, g);
        case CurDir => ResolveInTwoParts(root, at, p[1..], q, follow, f, g);
        case ParentDir => ResolveInTwoParts(root, Above(at.value), p[1..], q, follow, f, g);
        case Normal(name) =>
          var next := Walk(root, at.value + [name]).value;
          if next.Symlink? {
            assert next.target + p[1..] + q == next.target + (p[1..] + q);
            assert |p + q| > 1 || follow;
            ResolveInTwoParts(root, at, next.target + p[1..], q, follow, f - 1, g);
          } else {
            ResolveInTwoParts(root, Some(at.value + [name]), p[1..], q, follow, f, g);
          }
      }
    }
  }

  lemma {:induction false} NowhereIsMissing(root: Entry, q: seq<Component>, follow: bool, fuel: nat)
    requires RootDir !in q
    ensures Resolve(root, None, q, follow, fuel) == Missing
    decreases |q|
  {
    if q != [] && q[0].CurDir? {
      NowhereIsMissing(root, q[1..], follow, fuel);
    }
  }

  /** What follows a part that leads nowhere cannot be found either. */
  lemma {:induction false} MissingInTwoParts(root: Entry, at: Option<Path>, p: seq<Component>, q: seq<Component>,
                                             follow: bool, fuel: nat)
    requires RootDir !in q && (q != [] || follow)
    requires Resolve(root, at, p, true, fuel).Missing?
    ensures Resolve(root, at, p + q, follow, fuel).Missing?
    decreases fuel, |p|
  {
    if p == [] {
      assert p + q == q;
      NowhereIsMissing(root, q, follow, fuel);
    } else {
      assert (p + q)[0] == p[0] && (p + q)[1..] == p[1..] + q;
      match p[0] {
        case RootDir => MissingInTwoParts(root, Some([]), p[1..], q, follow, fuel);
        case CurDir => MissingInTwoParts(root, at, p[1..], q, follow, fuel);
        case ParentDir =>
          if at.Some? { MissingInTwoParts(root, Above(at.value), p[1..], q, follow, fuel); }
        case Normal(name) =>
          if at.Some? && Walk(root, at.value + [name]).Some? {
            var next := Walk(root, at.value + [name]).value;
            if next.Symlink? {
              assert next.target + p[1..] + q == next.target + (p[1..] + q);
              assert |p + q| > 1 || follow;
              MissingInTwoParts(root, at, next.target + p[1..], q, follow, fuel - 1);
            } else {
              MissingInTwoParts(root, Some(at.value + [name]), p[1..], q, follow, fuel);
            }
          }
      }
    }
  }

  /** If the part needs more links than allowed, so does the whole. */
  lemma {:induction false} UnfinishedInTwoParts(root: Entry, at: Option<Path>, p: seq<Component>, q: seq<Component>,
                                                follow: bool, fuel: nat)
    requires (q != [] || follow) && Resolve(root, at, p, true, fuel).Unfinished?
    ensures Resolve(root, at, p + q, follow, fuel).Unfinished?
    decreases fuel, |p|
  {
    assert p != [];
    assert (p + q)[0] == p[0] && (p + q)[1..] == p[1..] + q;
    match p[0] {
      case RootDir => UnfinishedInTwoParts(root, Some([]), p[1..], q, follow, fuel);
      case CurDir => UnfinishedInTwoParts(root, at, p[1..], q, follow, fuel);
      case ParentDir => UnfinishedInTwoParts(root, Above(at.value), p[1..], q, follow, fuel);
      case Normal(name) =>
        var next := Walk(root, at.value + [name]).value;
        if next.Symlink? {
          assert |p + q| > 1 || follow;
          if fuel > 0 {
            assert next.target + p[1..] + q == next.target + (p[1..] + q);
            UnfinishedInTwoParts(root, at, next.target + p[1..], q, follow, fuel - 1);
          }
        } else {
          UnfinishedInTwoParts(root, Some(at.value + [name]), p[1..], q, follow, fuel);
        }
    }
  }

  // ---------- What the parts of a path mean ----------

  /** Where a canonical directory leads on. */
  lemma FromCanonical(root: Entry, c: Path, rest: seq<Component>, follow: bool, g: nat)
    requires Canonical(root, c, true) && (rest != [] || follow) && !Resolve(root, Some(c), rest, follow, g).Unfinished?
    ensures Resolve(root, None, Absolute(c) + rest, follow, g) == Resolve(root, Some(c), rest, follow, g)
  {
    CanonicalIsFixed(root, c, true, 0);
    ResolveInTwoParts(root, None, Absolute(c), rest, follow, 0, g);
  }

  /** A link that is not the end of a path, or is to be followed, stands for its target, which starts where the link is. */
  lemma LinkIsItsTarget(root: Entry, way: seq<Component>, c: Path, name: Name, rest: seq<Component>, follow: bool, f: nat, g: nat)
    requires root.Dir? && Resolve(root, None, way, true, f) == Found(c) && (rest != [] || follow)
    requires Walk(root, c + [name]).Some? && Walk(root, c + [name]).value.Symlink?
    requires !Resolve(root, Some(c), Walk(root, c + [name]).value.target + rest, follow, g).Unfinished?
    ensures Resolve(root, None, way + ([Normal(name)] + rest), follow, f + (g + 1))
         == Resolve(root, None, Absolute(c) + (Walk(root, c + [name]).value.target + rest), follow, g)
  {
    var target := Walk(root, c + [name]).value.target;
    assert ([Normal(name)] + rest)[1..] == rest;
    assert Resolve(root, Some(c), [Normal(name)] + rest, follow, g + 1) == Resolve(root, Some(c), target + rest, follow, g);
    ResolveInTwoParts(root, None, way, [Normal(name)] + rest, follow, f, g + 1);
    FoundIsCanonical(root, way, true, f);
    FromCanonical(root, c, target + rest, follow, g);
  }

  /** `.` changes nothing, and `..` goes to the directory above the one that the path has led to; above the root is nowhere. */
  lemma DotsMean(root: Entry, way: seq<Component>, c: Path, rest: seq<Component>, follow: bool, f: nat, g: nat)
    requires root.Dir? && Resolve(root, None, way, true, f) == Found(c) && (rest != [] || follow)
    requires !Resolve(root, Some(c), rest, follow, g).Unfinished?
    requires !Resolve(root, Above(c), rest, follow, g).Unfinished?
    ensures Resolve(root, None, way + ([CurDir] + rest), follow, f + g) == Resolve(root, None, way + rest, follow, f + g)
    ensures Resolve(root, None, way + ([ParentDir] + rest), follow, f + g)
         == Resolve(root, None, (if c == [] then [] else Absolute(c[..|c| - 1])) + rest, follow, g)
  {
    assert ([CurDir] + rest)[1..] == rest && ([ParentDir] + rest)[1..] == rest;
    ResolveInTwoParts(root, None, way, [CurDir] + rest, follow, f, g);
    ResolveInTwoParts(root, None, way, rest, follow, f, g);
    ResolveInTwoParts(root, None, way, [ParentDir] + rest, follow, f, g);
    FoundIsCanonical(root, way, true, f);
    if c != [] {
      var up := c[..|c| - 1];
      CanonicalIff(root, up, true);
      FromCanonical(root, up, rest, follow, g);
    } else {
      assert [] + rest == rest;
    }
  }

  // ---------- Writing elsewhere ----------

  lemma VacantSetKeepsWalk(root: Entry, slot: Path, e: Entry, p: Path)
    requires IsSlot(root, slot) && Walk(root, slot).None? && Walk(root, p).Some?
    ensures var found := Walk(SetAt(root, slot, Some(e)), p);
            && found.Some? && (found.value.Symlink? <==> Walk(root, p).value.Symlink?)
            && (found.value.Symlink? ==> found == Walk(root, p))
            && (found.value.Dir? <==> Walk(root, p).value.Dir?)
  {
    WalkAfterSet(root, slot, Some(e), p);
    NothingBelowNothing(root, slot, p);
    if p <= slot && p != slot {
      SetKeepsInode(Walk(root, p).value, slot[|p|..], Some(e));
    }
  }

  /** Putting an entry where nothing was changes no resolution that succeeded. */
  lemma {:induction false} VacantSetKeepsResolution(root: Entry, slot: Path, e: Entry,
                                                    at: Option<Path>, path: seq<Component>, follow: bool, fuel: nat)
    requires IsSlot(root, slot) && Walk(root, slot).None? && Resolve(root, at, path, follow, fuel).Found?
    ensures Resolve(SetAt(root, slot, Some(e)), at, path, follow, fuel) == Resolve(root, at, path, follow, fuel)
    decreases fuel, |path|
  {
    if path != [] {
      match path[0] {
        case RootDir => VacantSetKeepsResolution(root, slot, e, Some([]), path[1..], follow, fuel);
        case CurDir => VacantSetKeepsResolution(root, slot, e, at, path[1..], follow, fuel);
        case ParentDir => VacantSetKeepsResolution(root, slot, e, Above(at.value), path[1..], follow, fuel);
        case Normal(name) =>
          var to := at.value + [name];
          var next := Walk(root, to).value;
          VacantSetKeepsWalk(root, slot, e, to);
          if next.Symlink? && (|path| > 1 || follow) {
            VacantSetKeepsResolution(root, slot, e, at, next.target + path[1..], follow, fuel - 1);
          } else {
            VacantSetKeepsResolution(root, slot, e, Some(to), path[1..], follow, fuel);
          }
      }
    }
  }

  /** Neither does putting a file where a file was, or nothing. */
  lemma {:induction false} PutFileKeepsResolution(root: Entry, slot: Path, e: Entry,
                                                  at: Option<Path>, path: seq<Component>, follow: bool, fuel: nat)
    requires IsSlot(root, slot) && e.File? && (Walk(root, slot).None? || Walk(root, slot).value.File?)
    requires Resolve(root, at, path, follow, fuel).Found?
    ensures Resolve(SetAt(root, slot, Some(e)), at, path, follow, fuel) == Resolve(root, at, path, follow, fuel)
    decreases fuel, |path|
  {
    if path != [] {
      match path[0] {
        case RootDir => PutFileKeepsResolution(root, slot, e, Some([]), path[1..], follow, fuel);
        case CurDir => PutFileKeepsResolution(root, slot, e, at, path[1..], follow, fuel);
        case ParentDir => PutFileKeepsResolution(root, slot, e, Above(at.value), path[1..], follow, fuel);
        case Normal(name) =>
          var to := at.value + [name];
          var next := Walk(root, to).value;
          PutFileKeepsKind(root, slot, e, to);
          if next.Symlink? && (|path| > 1 || follow) {
            PutFileKeepsResolution(root, slot, e, at, next.target + path[1..], follow, fuel - 1);
          } else {
            PutFileKeepsResolution(root, slot, e, Some(to), path[1..], follow, fuel);
          }
      }
    }
  }

  lemma PutFileKeepsKind(root: Entry, slot: Path, e: Entry, p: Path)
    requires IsSlot(root, slot) && e.File? && (Walk(root, slot).None? || Walk(root, slot).value.File?)
    requires Walk(root, p).Some?
    ensures var found := Walk(SetAt(root, slot, Some(e)), p);
            && found.Some? && (found.value.Symlink? <==> Walk(root, p).value.Symlink?)
            && (found.value.Symlink? ==> found == Walk(root, p))
  {
    WalkAfterSet(root, slot, Some(e), p);
    if slot <= p {
      assert slot + p[|slot|..] == p;
      WalkConcat(root, slot, p[|slot|..]);
    } else if p <= slot {
      SetKeepsInode(Walk(root, p).value, slot[|p|..], Some(e));
    }
  }

  // ---------- Ways that meet the slot they lead to ----------

  /** Where a resolution first meets `slot`: what is left of the way then, and of the links allowed. */
  function Meeting(root: Entry, at: Option<Path>, path: seq<Component>, follow: bool, fuel: nat, slot: Path)
    : Option<(seq<Component>, nat)>
    decreases fuel, |path|
  {
    if path == [] then None
    else match path[0]
      case RootDir => Meeting(root, Some([]), path[1..], follow, fuel, slot)
      case CurDir => Meeting(root, at, path[1..], follow, fuel, slot)
      case ParentDir => if at.None? then None else Meeting(root, Above(at.value), path[1..], follow, fuel, slot)
      case Normal(name) =>
        if at.None? then None
        else
          var to := at.value + [name];
          var next := Walk(root, to);
          if to == slot then Some((path[1..], fuel))
          else if next.None? then None
          else if next.value.Symlink? && (|path| > 1 || follow) then
            if fuel == 0 then None else Meeting(root, at, next.value.target + path[1..], follow, fuel - 1, slot)
          else Meeting(root, Some(to), path[1..], follow, fuel, slot)
  }

  predicate GoesThrough(root: Entry, at: Option<Path>, path: seq<Component>, follow: bool, fuel: nat, slot: Path) {
    Meeting(root, at, path, follow, fuel, slot).Some?
  }

  /** What is left to resolve once the slot is met: the name of the slot, seen from its directory, and the rest. */
  function FromSlot(slot: Path, rest: seq<Component>): seq<Component>
    requires slot != []
  {
    [Normal(slot[|slot| - 1])] + rest
  }

  /** After a write at a slot a resolution goes as before up to where it meets the slot, and all the way if it never does. */
  lemma {:induction false} SetAndResolve(root: Entry, slot: Path, v: Option<Entry>,
                                         at: Option<Path>, path: seq<Component>, follow: bool, fuel: nat)
    requires IsSlot(root, slot) && (at.Some? ==> !(slot <= at.value))
    ensures var root' := SetAt(root, slot, v);
            Resolve(root', at, path, follow, fuel) ==
            match Meeting(root, at, path, follow, fuel, slot)
            case None => Resolve(root, at, path, follow, fuel)
            case Some(m) => Resolve(root', Some(slot[..|slot| - 1]), FromSlot(slot, m.0), follow, m.1)
    decreases fuel, |path|
  {
    if path != [] {
      match path[0] {
        case RootDir => SetAndResolve(root, slot, v, Some([]), path[1..], follow, fuel);
        case CurDir => SetAndResolve(root, slot, v, at, path[1..], follow, fuel);
        case ParentDir =>
          if at.Some? { SetAndResolve(root, slot, v, Above(at.value), path[1..], follow, fuel); }
        case Normal(name) =>
          if at.Some? {
            var to := at.value + [name];
            if to == slot {
              assert at.value == slot[..|slot| - 1] && path == FromSlot(slot, path[1..]);
            } else {
              assert !(slot <= to) by { NotBelowChild(slot, at.value, name); }
              WalkAfterSet(root, slot, v, to);
              if to <= slot {
                SetKeepsInode(Walk(root, to).value, slot[|to|..], v);
              }
              var next := Walk(root, to);
              if next.Some? {
                if next.value.Symlink? && (|path| > 1 || follow) {
                  if fuel > 0 { SetAndResolve(root, slot, v, at, next.value.target + path[1..], follow, fuel - 1); }
                } else {
                  SetAndResolve(root, slot, v, Some(to), path[1..], follow, fuel);
                }
              }
            }
          }
      }
    }
  }

  lemma NotBelowChild(slot: Path, at: Path, name: Name)
    ensures slot != at + [name] && !(slot <= at) ==> !(slot <= at + [name])
  {
    if slot <= at + [name] && |slot| <= |at| {
      assert slot == (at + [name])[..|slot|] == at[..|slot|];
    } else if slot <= at + [name] {
      assert slot == (at + [name])[..|slot|];
    }
  }

  /** A successful resolution never meets a slot where nothing is. */
  lemma VacantIsNotMet(root: Entry, slot: Path, path: seq<Component>, follow: bool, fuel: nat)
    requires IsSlot(root, slot) && Walk(root, slot).None? && Resolve(root, None, path, follow, fuel).Found?
    ensures !GoesThrough(root, None, path, follow, fuel, slot)
  {
    SetAndResolve(root, slot, None, None, path, follow, fuel);
    SetToItself(root, slot);
    assert slot[..|slot| - 1] + [slot[|slot| - 1]] == slot;
  }

  /** A canonical way goes through its own ancestors only. */
  lemma {:induction false} NormalsAvoid(root: Entry, at: Path, names: Path, fuel: nat, slot: Path)
    requires Walk(root, at + names).Some? && !Walk(root, at + names).value.Symlink? && !(slot <= at + names)
    ensures !GoesThrough(root, Some(at), Normals(names), true, fuel, slot)
    decreases |names|
  {
    if names != [] {
      var to := at + [names[0]];
      assert to + names[1..] == at + names;
      WalkConcat(root, to, names[1..]);
      assert (at + names)[..|to|] == to;
      assert !(slot <= to);
      if |names| > 1 {
        AncestorsAreDirs(root, at + names, |to|);
      } else {
        assert names[1..] == [];
      }
      NormalsAvoid(root, to, names[1..], fuel, slot);
      assert Normals(names)[1..] == Normals(names[1..]);
    }
  }

  /** No way up, and the root only at the start. */
  predicate IsPlain(path: seq<Component>) {
    forall i :: 0 <= i < |path| ==> !path[i].ParentDir? && (path[i].RootDir? ==> i == 0)
  }

  predicate IsDownward(path: seq<Component>) {
    forall i :: 0 <= i < |path| ==> path[i].Normal? || path[i].CurDir?
  }

  /** No link has a target with `..`. */
  ghost predicate PlainLinks(root: Entry) {
    forall q :: Walk(root, q).Some? && Walk(root, q).value.Symlink? ==> IsPlain(Walk(root, q).value.target)
  }

  /** What is left at a meeting leads down, if neither the path nor any link has `..`. */
  lemma {:induction false} PlainMeetsDownward(root: Entry, at: Option<Path>, path: seq<Component>, follow: bool, fuel: nat, slot: Path)
    requires PlainLinks(root) && IsPlain(path)
    ensures var m := Meeting(root, at, path, follow, fuel, slot); m.Some? ==> IsDownward(m.value.0)
    decreases fuel, |path|
  {
    if path != [] {
      match path[0] {
        case RootDir => PlainMeetsDownward(root, Some([]), path[1..], follow, fuel, slot);
        case CurDir => PlainMeetsDownward(root, at, path[1..], follow, fuel, slot);
        case ParentDir => assert false;
        case Normal(name) =>
          if at.Some? {
            var to := at.value + [name];
            var next := Walk(root, to);
            if to != slot && next.Some? {
              if next.value.Symlink? && (|path| > 1 || follow) {
                if fuel > 0 {
                  assert IsPlain(next.value.target + path[1..]);
                  PlainMeetsDownward(root, at, next.value.target + path[1..], follow, fuel - 1, slot);
                }
              } else {
                PlainMeetsDownward(root, Some(to), path[1..], follow, fuel, slot);
              }
            }
          }
      }
    }
  }

  /** Nothing is below a file. */
  lemma {:induction false} FileIsDeadEnd(root: Entry, slot: Path, rest: seq<Component>, follow: bool, fuel: nat)
    requires Walk(root, slot).Some? && Walk(root, slot).value.File? && IsDownward(rest)
    ensures var r := Resolve(root, Some(slot), rest, follow, fuel); r == Missing || r == Found(slot)
    decreases |rest|
  {
    if rest != [] {
      match rest[0] {
        case CurDir => FileIsDeadEnd(root, slot, rest[1..], follow, fuel);
        case Normal(name) => WalkStep(root, slot, name);
      }
    }
  }

  // ---------- The loop ----------

  /** The entries on the way to a location, the root first; none of them at nowhere. */
  ghost predicate StackOf(root: Entry, stack: seq<Entry>, p: Path) {
    if stack == [] then p == []
    else |stack| == |p| + 1 && forall n :: 0 <= n <= |p| ==> Walk(root, p[..n]) == Some(stack[n])
  }

  function Place(stack: seq<Entry>, p: Path): Option<Path> {
    if stack == [] then None else Some(p)
  }

  lemma PopStack(root: Entry, stack: seq<Entry>, p: Path)
    requires StackOf(root, stack, p) && stack != []
    ensures StackOf(root, stack[..|stack| - 1], if p == [] then [] else p[..|p| - 1])
    ensures Place(stack[..|stack| - 1], if p == [] then [] else p[..|p| - 1]) == Above(p)
  {
    if p != [] {
      var up, below := p[..|p| - 1], stack[..|stack| - 1];
      forall n | 0 <= n <= |up|
        ensures Walk(root, up[..n]) == Some(below[n])
      {
        assert up[..n] == p[..n];
      }
    }
  }

  lemma PushStack(root: Entry, stack: seq<Entry>, p: Path, name: Name)
    requires StackOf(root, stack, p) && stack != []
    ensures var top := stack[|stack| - 1];
            && Walk(root, p + [name]) == (if top.Dir? && name in top.entries then Some(top.entries[name]) else None)
            && (top.Dir? && name in top.entries ==> StackOf(root, stack + [top.entries[name]], p + [name]))
  {
    var top := stack[|stack| - 1];
    assert p[..|p|] == p;
    WalkStep(root, p, name);
    if top.Dir? && name in top.entries {
      forall n | 0 <= n <= |p + [name]|
        ensures Walk(root, (p + [name])[..n]) == Some((stack + [top.entries[name]])[n])
      {
        if n <= |p| {
          assert (p + [name])[..n] == p[..n];
        } else {
          assert (p + [name])[..n] == p + [name];
        }
      }
    }
  }

  /** The loop of the source: it keeps the entries of the way there, and starts over at each link. */
  method Canonicalize(root: Entry, target: seq<Component>, follow: bool, fuel: nat) returns (r: Resolution)
    ensures r == Resolve(root, None, target, follow, fuel)
  {
    var canonicalPath: Path, path, stack: seq<Entry>, left := [], target, [], fuel;
    while true
      invariant StackOf(root, stack, canonicalPath)
      invariant Resolve(root, None, target, follow, fuel) == Resolve(root, Place(stack, canonicalPath), path, follow, left)
      decreases left
    {
      var i, link := 0, None;
      while i < |path| && link.None?
        invariant 0 <= i <= |path| && StackOf(root, stack, canonicalPath)
        invariant Resolve(root, None, target, follow, fuel)
               == if link.None? then Resolve(root, Place(stack, canonicalPath), path[i..], follow, left)
                  else if left == 0 then Unfinished
                  else Resolve(root, Place(stack, canonicalPath), link.value + path[i..], follow, left - 1)
        decreases |path| - i
      {
        assert path[i..][1..] == path[i + 1..];
        match path[i] {
          case RootDir =>
            stack, canonicalPath := [root], [];
          case CurDir =>
          case ParentDir =>
            if stack == [] { return Missing; }
            PopStack(root, stack, canonicalPath);
            stack := stack[..|stack| - 1];
            canonicalPath := if canonicalPath == [] then [] else canonicalPath[..|canonicalPath| - 1];
          case Normal(name) =>
            if stack == [] { return Missing; }
            var current := stack[|stack| - 1];
            PushStack(root, stack, canonicalPath, name);
            if !current.Dir? || name !in current.entries { return Missing; }
            var entry := current.entries[name];
            if (i + 1 < |path| || follow) && entry.Symlink? {
              link := Some(entry.target);
            } else {
              stack, canonicalPath := stack + [entry], canonicalPath + [name];
            }
        }
        i := i + 1;
      }
      if link.None? { break; }
      if left == 0 { return Unfinished; }
      path, left := link.value + path[i..], left - 1;
    }
    return if stack == [] then Missing else Found(canonicalPath);
  }
}
