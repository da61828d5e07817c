/**
 The heap of scheduled times: a binary min-heap in a list whose first cell is unused, and a mapping from
 each time to its place.
 */
module TimeHeap {

  type Places = map<nat, nat>

  /** A mapping of the contract: zero where nothing was written. */
  function At(places: Places, t: nat): nat { if t in places then places[t] else 0 }

  /** Every time is where the mapping says, and nothing else has a place. */
  ghost predicate IsPlaced(heap: seq<nat>, places: Places) {
    && |heap| > 0
    && (forall i | 1 <= i < |heap| :: heap[i] > 0 && At(places, heap[i]) == i)
    && (forall t | At(places, t) != 0 :: At(places, t) < |heap| && heap[At(places, t)] == t)
  }

  predicate IsHeap(heap: seq<nat>) { forall i | 2 <= i < |heap| :: heap[i / 2] <= heap[i] }

  /** The times in the heap. */
  ghost function Times(heap: seq<nat>): set<nat> { set i | 1 <= i < |heap| :: heap[i] }

  /** A heap but that cell `k` may be smaller than its parent. */
  predicate IsHeapUpTo(heap: seq<nat>, k: nat) {
    && (forall i | 2 <= i < |heap| && i != k :: heap[i / 2] <= heap[i])
    && (forall i | 2 <= i < |heap| && i / 2 == k && k >= 2 :: heap[k / 2] <= heap[i])
  }

  /** A heap but that cell `k` may be larger than its children. */
  predicate IsHeapFrom(heap: seq<nat>, k: nat) {
    && (forall i | 2 <= i < |heap| && i / 2 != k :: heap[i / 2] <= heap[i])
    && (forall i | 2 <= i < |heap| && i / 2 == k && k >= 2 :: heap[k / 2] <= heap[i])
  }

  lemma {:induction false} RootIsLeast(heap: seq<nat>, i: nat)
    requires IsHeap(heap) && 1 <= i < |heap|
    ensures heap[1] <= heap[i]
    decreases i
  {
    if i > 1 {
      RootIsLeast(heap, i / 2);
    }
  }

  /** Two cells exchanged, and their places with them. */
  function Swapped(heap: seq<nat>, i: nat, j: nat): seq<nat>
    requires i < |heap| && j < |heap|
  {
    heap[i := heap[j]][j := heap[i]]
  }

  lemma SwapKeepsPlaces(heap: seq<nat>, places: Places, i: nat, j: nat)
    requires IsPlaced(heap, places) && 1 <= i < |heap| && 1 <= j < |heap| && i != j
    ensures IsPlaced(Swapped(heap, i, j), places[heap[j] := i][heap[i] := j])
    ensures Times(Swapped(heap, i, j)) == Times(heap)
  {
    var swapped := Swapped(heap, i, j);
    var places' := places[heap[j] := i][heap[i] := j];
    assert At(places, heap[i]) == i && At(places, heap[j]) == j;
    forall t | At(places', t) != 0 ensures At(places', t) < |swapped| && swapped[At(places', t)] == t {
      if t != heap[i] && t != heap[j] {
        assert At(places', t) == At(places, t);
      }
    }
    forall k | 1 <= k < |swapped| ensures swapped[k] > 0 && At(places', swapped[k]) == k {
      if k != i && k != j {
        assert swapped[k] == heap[k] && At(places, heap[k]) == k;
      }
    }
    forall t ensures t in Times(heap) <==> t in Times(swapped) {
      if k :| 1 <= k < |heap| && heap[k] == t {
        assert swapped[if k == i then j else if k == j then i else k] == t;
      }
      if k :| 1 <= k < |heap| && swapped[k] == t {
        assert heap[if k == i then j else if k == j then i else k] == t;
      }
    }
  }

  /** Exchanged with its larger parent, a cell may still be too small one level up. */
  lemma SwapUp(heap: seq<nat>, k: nat)
    requires IsHeapUpTo(heap, k) && 2 <= k < |heap| && heap[k] < heap[k / 2]
    ensures IsHeapUpTo(Swapped(heap, k, k / 2), k / 2)
  {
    var p := k / 2;
    var swapped := Swapped(heap, k, p);
    forall i | 2 <= i < |heap| && i != p ensures swapped[i / 2] <= swapped[i] {
      if i / 2 == k {
        assert swapped[i] == heap[i] && swapped[k] == heap[p];
      } else if i == k {
      } else if i / 2 == p {
        assert swapped[p] == heap[k] && swapped[i] == heap[i];
      }
    }
    forall i | 2 <= i < |heap| && i / 2 == p && p >= 2 ensures swapped[p / 2] <= swapped[i] {
      assert swapped[p / 2] == heap[p / 2];
      assert heap[p / 2] <= heap[p];
    }
  }

  predicate IsSmallestChild(heap: seq<nat>, k: nat, c: nat) {
    && k >= 1 && c < |heap| && (c == 2 * k || c == 2 * k + 1)
    && forall i | 2 <= i < |heap| && i / 2 == k :: heap[c] <= heap[i]
  }

  /** Exchanged with its smaller child, a cell may still be too large one level down. */
  lemma SwapDown(heap: seq<nat>, k: nat, c: nat)
    requires IsHeapFrom(heap, k) && IsSmallestChild(heap, k, c) && heap[c] < heap[k]
    ensures IsHeapFrom(Swapped(heap, k, c), c)
  {
    var swapped := Swapped(heap, k, c);
    forall i | 2 <= i < |heap| && i / 2 != c ensures swapped[i / 2] <= swapped[i] {
      if i / 2 == k {
        assert swapped[k] == heap[c];
      } else if i == k {
        assert heap[k / 2] <= heap[c];
      }
    }
    forall i | 2 <= i < |heap| && i / 2 == c ensures swapped[c / 2] <= swapped[i] {
      assert c / 2 == k && swapped[k] == heap[c] && swapped[i] == heap[i];
    }
  }

  /** A new time at the end. */
  lemma Pushed(heap: seq<nat>, places: Places, t: nat)
    requires IsPlaced(heap, places) && IsHeap(heap) && t > 0 && At(places, t) == 0
    ensures IsPlaced(heap + [t], places[t := |heap|]) && IsHeapUpTo(heap + [t], |heap|)
    ensures Times(heap + [t]) == Times(heap) + {t}
  {
    var h := heap + [t];
    var places' := places[t := |heap|];
    forall x | At(places', x) != 0 ensures At(places', x) < |h| && h[At(places', x)] == x {
      if x != t {
        assert At(places', x) == At(places, x);
      }
    }
    forall k | 1 <= k < |h| ensures h[k] > 0 && At(places', h[k]) == k {
      if k < |heap| {
        assert h[k] == heap[k] && At(places, heap[k]) == k;
      }
    }
    forall x ensures x in Times(h) <==> x in Times(heap) + {t} {
      if k :| 1 <= k < |h| && h[k] == x {
        assert k < |heap| ==> heap[k] == x;
      }
      if k :| 1 <= k < |heap| && heap[k] == x {
        assert h[k] == x;
      }
      assert h[|heap|] == t;
    }
  }

  /** The last time taken off. */
  lemma Popped(heap: seq<nat>, places: Places)
    requires IsPlaced(heap, places) && IsHeap(heap) && |heap| > 1
    ensures var last := heap[|heap| - 1];
      && IsPlaced(heap[..|heap| - 1], places[last := 0]) && IsHeap(heap[..|heap| - 1])
      && Times(heap[..|heap| - 1]) == Times(heap) - {last}
  {
    var n := |heap| - 1;
    var last, h := heap[n], heap[..n];
    var places' := places[last := 0];
    assert At(places, last) == n;
    forall x | At(places', x) != 0 ensures At(places', x) < |h| && h[At(places', x)] == x {
      assert x != last && At(places', x) == At(places, x);
    }
    forall k | 1 <= k < |h| ensures h[k] > 0 && At(places', h[k]) == k {
      assert h[k] == heap[k] && At(places, heap[k]) == k;
    }
    forall x ensures x in Times(h) <==> x in Times(heap) - {last} {
      if k :| 1 <= k < |heap| && heap[k] == x && x != last {
        assert h[k] == x;
      }
      if k :| 1 <= k < |h| && h[k] == x {
        assert heap[k] == x && At(places, heap[k]) == k && At(places, last) == n;
      }
    }
  }

  /** The last time moved into the cell of one that is taken out. */
  lemma Moved(heap: seq<nat>, places: Places, k: nat)
    requires IsPlaced(heap, places) && IsHeap(heap) && 1 <= k < |heap| - 1
    ensures var last := heap[|heap| - 1];
      var h := heap[k := last][..|heap| - 1];
      && IsPlaced(h, places[heap[k] := 0][last := k])
      && Times(h) == Times(heap) - {heap[k]}
      && (if k > 1 && h[k] < h[k / 2] then IsHeapUpTo(h, k) else IsHeapFrom(h, k))
  {
    var n := |heap| - 1;
    var h := heap[k := heap[n]][..n];
    MovedPlaces(heap, places, k, h);
    MovedTimes(heap, places, k, h);
    MovedOrder(heap, k, h);
  }

  lemma MovedPlaces(heap: seq<nat>, places: Places, k: nat, h: seq<nat>)
    requires IsPlaced(heap, places) && 1 <= k < |heap| - 1 && h == heap[k := heap[|heap| - 1]][..|heap| - 1]
    ensures IsPlaced(h, places[heap[k] := 0][heap[|heap| - 1] := k])
  {
    var n := |heap| - 1;
    var last, gone := heap[n], heap[k];
    var places' := places[gone := 0][last := k];
    assert At(places, last) == n && At(places, gone) == k;
    forall x | At(places', x) != 0 ensures At(places', x) < |h| && h[At(places', x)] == x {
      if x != last {
        assert x != gone && At(places', x) == At(places, x);
      }
    }
    forall i | 1 <= i < |h| ensures h[i] > 0 && At(places', h[i]) == i {
      if i != k {
        assert h[i] == heap[i] && At(places, heap[i]) == i;
      }
    }
  }

  lemma MovedTimes(heap: seq<nat>, places: Places, k: nat, h: seq<nat>)
    requires IsPlaced(heap, places) && 1 <= k < |heap| - 1 && h == heap[k := heap[|heap| - 1]][..|heap| - 1]
    ensures Times(h) == Times(heap) - {heap[k]}
  {
    var n, gone := |heap| - 1, heap[k];
    assert At(places, heap[n]) == n && At(places, gone) == k;
    forall x | x in Times(heap) && x != gone ensures x in Times(h) {
      var i :| 1 <= i < |heap| && heap[i] == x;
      assert h[if i == n then k else i] == x;
    }
    forall x | x in Times(h) ensures x in Times(heap) && x != gone {
      var i :| 1 <= i < |h| && h[i] == x;
      var j := if i == k then n else i;
      assert heap[j] == x && At(places, heap[j]) == j;
    }
  }

  lemma MovedOrder(heap: seq<nat>, k: nat, h: seq<nat>)
    requires IsHeap(heap) && 1 <= k < |heap| - 1 && h == heap[k := heap[|heap| - 1]][..|heap| - 1]
    ensures if k > 1 && h[k] < h[k / 2] then IsHeapUpTo(h, k) else IsHeapFrom(h, k)
  {
    forall i | 2 <= i < |h| && i / 2 == k && k >= 2 ensures h[k / 2] <= h[i] {
      assert heap[k / 2] <= heap[k] && heap[k] <= heap[i];
    }
    if k > 1 && h[k] < h[k / 2] {
      forall i | 2 <= i < |h| && i != k ensures h[i / 2] <= h[i] {
        if i / 2 == k {
          assert heap[k / 2] <= heap[k] && heap[k] <= heap[i];
        }
      }
    }
  }

  /** The times in the heap are those with a place. */
  lemma PlacedTimes(heap: seq<nat>, places: Places, t: nat)
    requires IsPlaced(heap, places)
    ensures t in Times(heap) <==> At(places, t) != 0
  {
    if At(places, t) != 0 {
      assert heap[At(places, t)] == t;
    }
  }
}
