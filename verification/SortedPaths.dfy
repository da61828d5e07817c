/** The order in which the documentation gates list files: by path components, as Python compares them. */
module SortedPaths {

  type Path = seq<string>

  predicate TextLeq(a: string, b: string) {
    a == "" || (b != "" && (a[0] < b[0] || (a[0] == b[0] && TextLeq(a[1..], b[1..]))))
  }

  predicate PathLeq(a: Path, b: Path) {
    a == [] || (b != [] && if a[0] == b[0] then PathLeq(a[1..], b[1..]) else TextLeq(a[0], b[0]))
  }

  predicate IsSorted(paths: seq<Path>) { forall i, j | 0 <= i < j < |paths| :: PathLeq(paths[i], paths[j]) }

  function Insert(path: Path, sorted: seq<Path>): seq<Path> {
    if sorted == [] then [path]
    else if PathLeq(path, sorted[0]) then [path] + sorted
    else [sorted[0]] + Insert(path, sorted[1..])
  }

  /** Python's `sorted` on paths. */
  function Sort(paths: seq<Path>): seq<Path> {
    if paths == [] then [] else Insert(paths[0], Sort(paths[1..]))
  }

  // ---------------------------------------------------------------------------
  // The order is total
  // ---------------------------------------------------------------------------

  lemma {:induction false} TextTotal(a: string, b: string)
    ensures TextLeq(a, b) || TextLeq(b, a)
    ensures TextLeq(a, b) && TextLeq(b, a) ==> a == b
    decreases |a|
  {
    if a != "" && b != "" && a[0] == b[0] {
      TextTotal(a[1..], b[1..]);
      assert a == [a[0]] + a[1..] && b == [b[0]] + b[1..];
    }
  }

  lemma {:induction false} TextTransitive(a: string, b: string, c: string)
    requires TextLeq(a, b) && TextLeq(b, c)
    ensures TextLeq(a, c)
    decreases |a|
  {
    if a != "" && a[0] == b[0] == c[0] {
      TextTransitive(a[1..], b[1..], c[1..]);
    }
  }

  lemma {:induction false} PathTotal(a: Path, b: Path)
    ensures PathLeq(a, b) || PathLeq(b, a)
    ensures PathLeq(a, b) && PathLeq(b, a) ==> a == b
    decreases |a|
  {
    hide TextLeq;
    if a != [] && b != [] {
      TextTotal(a[0], b[0]);
      if a[0] == b[0] {
        PathTotal(a[1..], b[1..]);
        assert a == [a[0]] + a[1..] && b == [b[0]] + b[1..];
      }
    }
  }

  lemma {:induction false} PathTransitive(a: Path, b: Path, c: Path)
    requires PathLeq(a, b) && PathLeq(b, c)
    ensures PathLeq(a, c)
    decreases |a|
  {
    hide TextLeq;
    if a != [] {
      TextTotal(a[0], b[0]);
      if a[0] == b[0] == c[0] {
        PathTransitive(a[1..], b[1..], c[1..]);
      } else if a[0] != b[0] && b[0] != c[0] {
        TextTransitive(a[0], b[0], c[0]);
        TextTotal(b[0], c[0]);
      }
    }
  }

  // ---------------------------------------------------------------------------
  // Sorting
  // ---------------------------------------------------------------------------

  lemma {:induction false} InsertSorted(path: Path, sorted: seq<Path>)
    requires IsSorted(sorted)
    ensures IsSorted(Insert(path, sorted)) && multiset(Insert(path, sorted)) == multiset{path} + multiset(sorted)
    decreases |sorted|
  {
    hide PathLeq, IsSorted;
    if sorted == [] {
      OneSorted(path);
    } else {
      var first, rest := sorted[0], sorted[1..];
      assert sorted == [first] + rest;
      PathTotal(path, first);
      SortedCons(first, rest);
      if PathLeq(path, first) {
        forall q | q in sorted ensures PathLeq(path, q) {
          if q != first {
            PathTransitive(path, first, q);
          }
        }
        SortedCons(path, sorted);
      } else {
        InsertSorted(path, rest);
        var r := Insert(path, rest);
        forall q | q in r ensures PathLeq(first, q) {
          assert q in multiset(r);
        }
        SortedCons(first, r);
      }
    }
  }

  lemma OneSorted(path: Path)
    ensures IsSorted([path])
  {
  }

  /** A list is sorted when its rest is, and its first path comes before all of the rest. */
  lemma SortedCons(first: Path, rest: seq<Path>)
    ensures IsSorted([first] + rest) <==> IsSorted(rest) && forall q | q in rest :: PathLeq(first, q)
  {
    hide PathLeq;
    var all := [first] + rest;
    assert forall k | 0 <= k < |rest| :: all[k + 1] == rest[k];
    if IsSorted(all) {
      forall i, j | 0 <= i < j < |rest| ensures PathLeq(rest[i], rest[j]) {
        assert PathLeq(all[i + 1], all[j + 1]);
      }
      forall q | q in rest ensures PathLeq(first, q) {
        var k :| 0 <= k < |rest| && rest[k] == q;
        assert PathLeq(all[0], all[k + 1]);
      }
    }
    if IsSorted(rest) && forall q | q in rest :: PathLeq(first, q) {
      forall i, j | 0 <= i < j < |all| ensures PathLeq(all[i], all[j]) {
        assert all[j] == rest[j - 1];
        if i > 0 {
          assert all[i] == rest[i - 1] && PathLeq(rest[i - 1], rest[j - 1]);
        }
      }
    }
  }

  lemma NothingSorted()
    ensures IsSorted([])
  {
  }

  lemma {:induction false} SortSorts(paths: seq<Path>)
    ensures IsSorted(Sort(paths)) && multiset(Sort(paths)) == multiset(paths)
    decreases |paths|
  {
    hide IsSorted, Insert;
    if paths == [] {
      NothingSorted();
    } else {
      SortSorts(paths[1..]);
      InsertSorted(paths[0], Sort(paths[1..]));
      assert paths == [paths[0]] + paths[1..];
    }
  }

  /** Sorted lists of the same paths are the same list: how a list is sorted makes no difference. */
  lemma {:induction false} SortedIsUnique(a: seq<Path>, b: seq<Path>)
    requires IsSorted(a) && IsSorted(b) && multiset(a) == multiset(b)
    ensures a == b
    decreases |a|
  {
    hide PathLeq, IsSorted;
    SameLength(a, b);
    if a != [] {
      var x, y := a[0], b[0];
      assert a == [x] + a[1..] && b == [y] + b[1..];
      SortedCons(x, a[1..]);
      SortedCons(y, b[1..]);
      LeastFirst(a, b);
      LeastFirst(b, a);
      PathTotal(x, y);
      SameRest(x, a[1..], b[1..]);
      SortedIsUnique(a[1..], b[1..]);
    }
  }

  lemma SameLength(a: seq<Path>, b: seq<Path>)
    requires multiset(a) == multiset(b)
    ensures |a| == |b|
  {
    assert |a| == |multiset(a)| && |b| == |multiset(b)|;
  }

  lemma SameRest(x: Path, a: seq<Path>, b: seq<Path>)
    requires multiset([x] + a) == multiset([x] + b)
    ensures multiset(a) == multiset(b)
  {
    assert multiset(a) == multiset([x] + a) - multiset{x};
    assert multiset(b) == multiset([x] + b) - multiset{x};
  }

  lemma LeastFirst(a: seq<Path>, b: seq<Path>)
    requires IsSorted(a) && a != [] && b != [] && multiset(a) == multiset(b)
    ensures PathLeq(a[0], b[0])
  {
    hide PathLeq;
    assert b[0] in multiset(b);
    var k :| 0 <= k < |a| && a[k] == b[0];
    PathTotal(a[0], a[0]);
  }

  /** `Sort` is the one sorted list of the given paths. */
  lemma SortExact(paths: seq<Path>, r: seq<Path>)
    ensures r == Sort(paths) <==> IsSorted(r) && multiset(r) == multiset(paths)
  {
    SortSorts(paths);
    if IsSorted(r) && multiset(r) == multiset(paths) {
      SortedIsUnique(r, Sort(paths));
    }
  }

  // ---------------------------------------------------------------------------
  // The order, by the first difference
  // ---------------------------------------------------------------------------

  /** The sequences agree up to here, where they differ. */
  predicate FirstDifference<T(==)>(a: seq<T>, b: seq<T>, k: nat) {
    k < |a| && k < |b| && a[..k] == b[..k] && a[k] != b[k]
  }

  /** A text comes before its continuations, and otherwise by the first character that differs. */
  lemma {:induction false} TextLeqExactly(a: string, b: string)
    ensures TextLeq(a, b) <==> a <= b || exists k: nat :: FirstDifference(a, b, k) && a[k] < b[k]
    decreases |a|
  {
    if a != "" && b != "" && a[0] == b[0] {
      TextLeqExactly(a[1..], b[1..]);
      DifferenceBehind(a, b);
      if k: nat :| FirstDifference(a[1..], b[1..], k) && a[1..][k] < b[1..][k] {
        assert FirstDifference(a, b, k + 1);
      }
    } else if a != "" && b != "" {
      assert FirstDifference(a, b, 0);
    }
  }

  lemma DifferenceBehind<T>(a: seq<T>, b: seq<T>)
    requires a != [] && b != [] && a[0] == b[0]
    ensures a <= b <==> a[1..] <= b[1..]
    ensures forall k: nat :: FirstDifference(a, b, k) <==> k > 0 && FirstDifference(a[1..], b[1..], k - 1)
  {
    assert a == [a[0]] + a[1..] && b == [b[0]] + b[1..];
    forall k: nat | k > 0 ensures FirstDifference(a, b, k) <==> FirstDifference(a[1..], b[1..], k - 1) {
      if k <= |a| && k <= |b| {
        assert a[..k] == [a[0]] + a[1..][..k - 1] && b[..k] == [b[0]] + b[1..][..k - 1];
        assert a[1..][..k - 1] == a[..k][1..] && b[1..][..k - 1] == b[..k][1..];
      }
    }
  }

  /** Paths likewise, by the first component that differs. */
  lemma {:induction false} PathLeqExactly(a: Path, b: Path)
    ensures PathLeq(a, b) <==> a <= b || exists k: nat :: FirstDifference(a, b, k) && TextLeq(a[k], b[k])
    decreases |a|
  {
    hide TextLeq;
    if a != [] && b != [] && a[0] == b[0] {
      PathLeqExactly(a[1..], b[1..]);
      DifferenceBehind(a, b);
      if k: nat :| FirstDifference(a[1..], b[1..], k) && TextLeq(a[1..][k], b[1..][k]) {
        assert FirstDifference(a, b, k + 1);
      }
    } else if a != [] && b != [] {
      assert FirstDifference(a, b, 0);
    }
  }
}
