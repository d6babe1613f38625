/** Absolute paths as their names below the root; `a <= p` (a prefix) says that `p` starts with `a`. */
module Paths {
  type Name = string

  type Path = seq<Name>

  /** The order of names: character by character. */
  predicate NameLe(a: Name, b: Name) {
    a == [] || (b != [] && (a[0] < b[0] || (a[0] == b[0] && NameLe(a[1..], b[1..]))))
  }

  /** The order of paths: name by name. */
  predicate PathLe(a: Path, b: Path) {
    a == [] || (b != [] && if a[0] == b[0] then PathLe(a[1..], b[1..]) else NameLe(a[0], b[0]))
  }

  lemma {:induction false} NameLeIsTotalOrder(a: Name, b: Name, c: Name)
    ensures NameLe(a, b) || NameLe(b, a)
    ensures NameLe(a, b) && NameLe(b, a) ==> a == b
    ensures NameLe(a, b) && NameLe(b, c) ==> NameLe(a, c)
    decreases |a| + |b| + |c|
  {
    if a != [] && b != [] {
      NameLeIsTotalOrder(a[1..], b[1..], if c == [] then c else c[1..]);
      assert a[0] == b[0] && a[1..] == b[1..] ==> a == b;
    }
  }

  lemma {:induction false} PathLeIsTotal(a: Path, b: Path)
    ensures PathLe(a, b) || PathLe(b, a)
  {
    if a != [] && b != [] {
      NameLeIsTotalOrder(a[0], b[0], []);
      PathLeIsTotal(a[1..], b[1..]);
    }
  }

  lemma {:induction false} PathLeIsTransitive(a: Path, b: Path, c: Path)
    requires PathLe(a, b) && PathLe(b, c)
    ensures PathLe(a, c)
  {
    if a != [] {
      NameLeIsTotalOrder(a[0], b[0], c[0]);
      NameLeIsTotalOrder(b[0], c[0], []);
      NameLeIsTotalOrder(a[0], b[0], []);
      if a[0] == b[0] == c[0] {
        PathLeIsTransitive(a[1..], b[1..], c[1..]);
      }
    }
  }

  /** A path never sorts before its strict ancestors. */
  lemma {:induction false} AncestorsSortFirst(a: Path, p: Path)
    requires a < p
    ensures PathLe(a, p) && !PathLe(p, a)
  {
    if a != [] {
      AncestorsSortFirst(a[1..], p[1..]);
    }
  }

  ghost predicate IsSorted(s: seq<Path>) {
    forall i, j :: 0 <= i < j < |s| ==> PathLe(s[i], s[j])
  }

  function Inserted(s: seq<Path>, p: Path): (r: seq<Path>)
    ensures forall x :: x in r <==> x in s || x == p
  {
    if s == [] then [p]
    else if PathLe(p, s[0]) then [p] + s
    else
      assert s == [s[0]] + s[1..];
      [s[0]] + Inserted(s[1..], p)
  }

  function Sorted(s: seq<Path>): (r: seq<Path>)
    ensures forall x :: x in r <==> x in s
  {
    if s == [] then []
    else
      assert s == [s[0]] + s[1..];
      Inserted(Sorted(s[1..]), s[0])
  }

  lemma {:induction false} InsertedIsSorted(s: seq<Path>, p: Path)
    requires IsSorted(s)
    ensures IsSorted(Inserted(s, p))
  {
    if s != [] {
      PathLeIsTotal(p, s[0]);
      if PathLe(p, s[0]) {
        forall j | 0 <= j < |s|
          ensures PathLe(p, s[j])
        {
          if j > 0 {
            PathLeIsTransitive(p, s[0], s[j]);
          }
        }
      } else {
        var rest := Inserted(s[1..], p);
        InsertedIsSorted(s[1..], p);
        forall j | 0 <= j < |rest|
          ensures PathLe(s[0], rest[j])
        {
          assert rest[j] in rest;
          if rest[j] != p {
            var k :| 0 <= k < |s[1..]| && s[1..][k] == rest[j];
            assert s[k + 1] == rest[j];
          }
        }
      }
    }
  }

  lemma {:induction false} SortedIsSorted(s: seq<Path>)
    ensures IsSorted(Sorted(s))
  {
    if s != [] {
      SortedIsSorted(s[1..]);
      InsertedIsSorted(Sorted(s[1..]), s[0]);
    }
  }
}
