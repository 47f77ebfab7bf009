/** The order in which Python's `sorted` visits `pathlib` paths: two paths
    compare as the lists of their parts, and two parts as strings, code
    point by code point. A path is modelled as the sequence of its parts. */
module PathOrder {

  type Path = seq<string>

  /** `a < b` on Python strings. */
  predicate StrLess(a: string, b: string) {
    if a == [] then b != []
    else if b == [] then false
    else if a[0] != b[0] then a[0] < b[0]
    else StrLess(a[1..], b[1..])
  }

  /** `p < q` on paths: lexicographic on the parts. */
  predicate PathLess(p: Path, q: Path) {
    if p == [] then q != []
    else if q == [] then false
    else if p[0] != q[0] then StrLess(p[0], q[0])
    else PathLess(p[1..], q[1..])
  }

  predicate PathLe(p: Path, q: Path) {
    p == q || PathLess(p, q)
  }

  // ---------------------------------------------------------------------
  // Both orders are strict total orders

  lemma {:induction false} StrLessIrreflexive(a: string)
    ensures !StrLess(a, a)
  {
    if a != [] {
      StrLessIrreflexive(a[1..]);
    }
  }

  lemma {:induction false} StrLessTransitive(a: string, b: string, c: string)
    requires StrLess(a, b) && StrLess(b, c)
    ensures StrLess(a, c)
  {
    if a != [] && b != [] && c != [] && a[0] == b[0] && b[0] == c[0] {
      StrLessTransitive(a[1..], b[1..], c[1..]);
    }
  }

  lemma {:induction false} StrLessTotal(a: string, b: string)
    ensures StrLess(a, b) || a == b || StrLess(b, a)
  {
    if a != [] && b != [] && a[0] == b[0] {
      StrLessTotal(a[1..], b[1..]);
      if a[1..] == b[1..] {
        assert a == [a[0]] + a[1..] && b == [b[0]] + b[1..];
      }
    }
  }

  lemma {:induction false} PathLessIrreflexive(p: Path)
    ensures !PathLess(p, p)
  {
    if p != [] {
      PathLessIrreflexive(p[1..]);
    }
  }

  lemma {:induction false} PathLessTransitive(p: Path, q: Path, r: Path)
    requires PathLess(p, q) && PathLess(q, r)
    ensures PathLess(p, r)
  {
    if p != [] && q != [] && r != [] {
      if p[0] == q[0] && q[0] == r[0] {
        PathLessTransitive(p[1..], q[1..], r[1..]);
      } else if p[0] != q[0] && q[0] != r[0] {
        StrLessTransitive(p[0], q[0], r[0]);
        if p[0] == r[0] {
          StrLessIrreflexive(p[0]);
        }
      }
    }
  }

  lemma {:induction false} PathLessTotal(p: Path, q: Path)
    ensures PathLess(p, q) || p == q || PathLess(q, p)
  {
    if p != [] && q != [] {
      if p[0] == q[0] {
        PathLessTotal(p[1..], q[1..]);
        if p[1..] == q[1..] {
          assert p == [p[0]] + p[1..] && q == [q[0]] + q[1..];
        }
      } else {
        StrLessTotal(p[0], q[0]);
      }
    }
  }

  lemma PathLeTransitive(p: Path, q: Path, r: Path)
    requires PathLe(p, q) && PathLe(q, r)
    ensures PathLe(p, r)
  {
    if p != q && q != r {
      PathLessTransitive(p, q, r);
    }
  }

  // ---------------------------------------------------------------------
  // `sorted`

  predicate Sorted(xs: seq<Path>) {
    forall i, j :: 0 <= i < j < |xs| ==> PathLe(xs[i], xs[j])
  }

  /** Inserts `x` before the first element it does not follow. */
  function Insert(x: Path, xs: seq<Path>): (r: seq<Path>)
    ensures multiset(r) == multiset(xs) + multiset{x}
    ensures |r| == |xs| + 1
  {
    if xs == [] then [x]
    else if PathLe(x, xs[0]) then [x] + xs
    else
      assert xs == [xs[0]] + xs[1..];
      [xs[0]] + Insert(x, xs[1..])
  }

  /** A lower bound of `x` and of every element of `xs` bounds `Insert(x, xs)`. */
  lemma {:induction false} InsertLowerBound(b: Path, x: Path, xs: seq<Path>)
    requires PathLe(b, x) && forall k :: 0 <= k < |xs| ==> PathLe(b, xs[k])
    ensures forall k :: 0 <= k < |Insert(x, xs)| ==> PathLe(b, Insert(x, xs)[k])
  {
    if xs != [] && !PathLe(x, xs[0]) {
      InsertLowerBound(b, x, xs[1..]);
      var r := Insert(x, xs);
      forall k | 0 <= k < |r| ensures PathLe(b, r[k]) {
        if k > 0 {
          assert r[k] == Insert(x, xs[1..])[k - 1];
        }
      }
    }
  }

  /** A lower bound of a sorted list can go in front of it. */
  lemma ConsSorted(x: Path, xs: seq<Path>)
    requires Sorted(xs) && forall k :: 0 <= k < |xs| ==> PathLe(x, xs[k])
    ensures Sorted([x] + xs)
  {
    var r := [x] + xs;
    forall i, j | 0 <= i < j < |r| ensures PathLe(r[i], r[j]) {
      assert r[j] == xs[j - 1];
      if i > 0 {
        assert r[i] == xs[i - 1];
      }
    }
  }

  lemma {:induction false} InsertSorted(x: Path, xs: seq<Path>)
    requires Sorted(xs)
    ensures Sorted(Insert(x, xs))
  {
    if xs != [] {
      if PathLe(x, xs[0]) {
        forall k | 0 <= k < |xs| ensures PathLe(x, xs[k]) {
          PathLeTransitive(x, xs[0], xs[k]);
        }
        ConsSorted(x, xs);
      } else {
        var tail := xs[1..];
        InsertSorted(x, tail);
        PathLessTotal(x, xs[0]);
        forall k | 0 <= k < |tail| ensures PathLe(xs[0], tail[k]) {
          assert tail[k] == xs[k + 1];
        }
        InsertLowerBound(xs[0], x, tail);
        ConsSorted(xs[0], Insert(x, tail));
      }
    }
  }

  /** `sorted(paths)`: insertion sort under the path order. */
  function SortPaths(xs: seq<Path>): (r: seq<Path>)
    ensures multiset(r) == multiset(xs) && |r| == |xs|
  {
    if xs == [] then []
    else
      assert xs == [xs[0]] + xs[1..];
      Insert(xs[0], SortPaths(xs[1..]))
  }

  lemma {:induction false} SortPathsSorted(xs: seq<Path>)
    ensures Sorted(SortPaths(xs))
  {
    if xs != [] {
      SortPathsSorted(xs[1..]);
      InsertSorted(xs[0], SortPaths(xs[1..]));
    }
  }

  /** Two sorted arrangements of the same paths start with the same one. */
  lemma SameLeast(xs: seq<Path>, ys: seq<Path>)
    requires Sorted(xs) && Sorted(ys) && multiset(xs) == multiset(ys) && xs != []
    ensures ys != [] && xs[0] == ys[0]
  {
    assert xs[0] in multiset(ys);
    var i :| 0 <= i < |ys| && ys[i] == xs[0];
    assert ys[0] in multiset(xs);
    var j :| 0 <= j < |xs| && xs[j] == ys[0];
    assert PathLe(ys[0], xs[0]) by {
      if i > 0 {
        assert PathLe(ys[0], ys[i]);
      }
    }
    assert PathLe(xs[0], ys[0]) by {
      if j > 0 {
        assert PathLe(xs[0], xs[j]);
      }
    }
    if xs[0] != ys[0] {
      PathLessTransitive(xs[0], ys[0], xs[0]);
      PathLessIrreflexive(xs[0]);
      assert false;
    }
  }

  lemma TailsAgree(xs: seq<Path>, ys: seq<Path>)
    requires xs != [] && ys != [] && xs[0] == ys[0] && multiset(xs) == multiset(ys)
    ensures multiset(xs[1..]) == multiset(ys[1..])
  {
    assert xs == [xs[0]] + xs[1..] && ys == [ys[0]] + ys[1..];
    assert multiset(xs[1..]) == multiset(xs) - multiset{xs[0]};
    assert multiset(ys[1..]) == multiset(ys) - multiset{ys[0]};
  }

  /** There is only one sorted arrangement of a multiset of paths. */
  lemma {:induction false} SortedUnique(xs: seq<Path>, ys: seq<Path>)
    requires Sorted(xs) && Sorted(ys) && multiset(xs) == multiset(ys)
    ensures xs == ys
  {
    if xs != [] {
      SameLeast(xs, ys);
      TailsAgree(xs, ys);
      SortedUnique(xs[1..], ys[1..]);
      assert xs == [xs[0]] + xs[1..] && ys == [ys[0]] + ys[1..];
    }
  }

  /** Sorting does not depend on the order paths are discovered in. */
  lemma SortPathsCanonical(xs: seq<Path>, ys: seq<Path>)
    requires multiset(xs) == multiset(ys)
    ensures SortPaths(xs) == SortPaths(ys)
  {
    SortPathsSorted(xs);
    SortPathsSorted(ys);
    SortedUnique(SortPaths(xs), SortPaths(ys));
  }
}
