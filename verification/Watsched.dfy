/** The recognisers of the schedule census: how much a predicted order moves, and whether it is one swap of two loads. */
module Watsched {
  import opened Wrappers

  /** An order of `n` instructions: position `p` holds the instruction that was `order[p]`-th. */
  ghost predicate Permutation(order: seq<nat>) {
    && (forall i | 0 <= i < |order| :: order[i] < |order|)
    && (forall i, j | 0 <= i < j < |order| :: order[i] != order[j])
  }

  ghost predicate Identity(order: seq<nat>) {
    forall i | 0 <= i < |order| :: order[i] == i
  }

  // ---- the `moved` count ----

  /** The positions `i < j` stand in the wrong order. */
  predicate Inverted(order: seq<nat>, i: nat, j: nat) {
    i < j < |order| && order[j] < order[i]
  }

  /** Position `p` belongs to some inversion. */
  ghost predicate Moved(order: seq<nat>, p: nat) {
    exists q: nat :: Inverted(order, p, q) || Inverted(order, q, p)
  }

  ghost function MovedSet(order: seq<nat>, n: nat): set<nat> {
    set p: nat | p < n && Moved(order, p)
  }

  predicate HasAbove(s: seq<nat>, x: nat) {
    exists i :: 0 <= i < |s| && s[i] > x
  }

  predicate HasBelow(s: seq<nat>, x: nat) {
    exists i :: 0 <= i < |s| && s[i] < x
  }

  lemma MovedByNeighbours(order: seq<nat>, p: nat)
    requires p < |order|
    ensures Moved(order, p) <==> HasAbove(order[..p], order[p]) || HasBelow(order[p + 1..], order[p])
  {
    var front, back := order[..p], order[p + 1..];
    if i :| 0 <= i < |front| && front[i] > order[p] {
      assert Inverted(order, i, p);
    }
    if i :| 0 <= i < |back| && back[i] < order[p] {
      assert Inverted(order, p, p + 1 + i);
    }
    if q: nat :| Inverted(order, p, q) {
      assert back[q - p - 1] < order[p];
    }
    if q: nat :| Inverted(order, q, p) {
      assert front[q] > order[p];
    }
  }

  /** Counts the positions that belong to some inversion. */
  method CountMoved(order: seq<nat>) returns (moved: nat)
    ensures moved == |MovedSet(order, |order|)|
  {
    moved := 0;
    for p := 0 to |order|
      invariant moved == |MovedSet(order, p)|
    {
      MovedByNeighbours(order, p);
      hide Moved;
      assert MovedSet(order, p + 1) == MovedSet(order, p) + (if Moved(order, p) then {p} else {});
      if HasAbove(order[..p], order[p]) || HasBelow(order[p + 1..], order[p]) {
        moved := moved + 1;
      }
    }
  }

  /** Distinct numbers from `lo` to below `hi`: there are at most as many as places. */
  lemma {:induction false} Pigeonhole(s: seq<nat>, lo: nat, hi: nat)
    requires lo <= hi && (forall i | 0 <= i < |s| :: lo <= s[i] < hi)
    requires forall i, j | 0 <= i < j < |s| :: s[i] != s[j]
    ensures |s| <= hi - lo
    decreases hi
  {
    if s != [] {
      assert lo <= s[0] < hi;
      if k :| 0 <= k < |s| && s[k] == hi - 1 {
        Pigeonhole(s[..k] + s[k + 1..], lo, hi - 1);
      } else {
        Pigeonhole(s, lo, hi - 1);
      }
    }
  }

  /** In a permutation, an element that takes part in no inversion is in its own place. */
  lemma StillIsFixed(order: seq<nat>, p: nat)
    requires Permutation(order) && p < |order| && !Moved(order, p)
    ensures order[p] == p
  {
    forall q | 0 <= q < p
      ensures order[q] < order[p]
    {
      assert !Inverted(order, q, p);
    }
    forall q | p < q < |order|
      ensures order[p] < order[q]
    {
      assert !Inverted(order, p, q);
    }
    Pigeonhole(order[..p], 0, order[p]);
    Pigeonhole(order[p + 1..], order[p] + 1, |order|);
  }

  /** Nothing moved exactly when the order is the identity. */
  lemma NoneMovedIffIdentity(order: seq<nat>)
    requires Permutation(order)
    ensures |MovedSet(order, |order|)| == 0 <==> Identity(order)
  {
    if MovedSet(order, |order|) == {} {
      forall p | 0 <= p < |order|
        ensures order[p] == p
      {
        assert p !in MovedSet(order, |order|);
        StillIsFixed(order, p);
      }
    }
    if Identity(order) {
      assert MovedSet(order, |order|) == {};
    }
  }

  /** No order, permutation or not, moves exactly one element: what moves, moves against another. */
  lemma NeverExactlyOne(order: seq<nat>)
    ensures |MovedSet(order, |order|)| != 1
  {
    var m := MovedSet(order, |order|);
    if p :| p in m {
      var q: nat :| Inverted(order, p, q) || Inverted(order, q, p);
      assert Moved(order, q);
      assert {p, q} <= m;
      assert |m - {p} - {q}| == |m| - 2;
    }
  }

  lemma SwapMovesTwo(order: seq<nat>, k: nat)
    requires SwapAt(order, k)
    ensures MovedSet(order, |order|) == {k, k + 1}
  {
    assert Inverted(order, k, k + 1);
    assert Moved(order, k) && Moved(order, k + 1);
    forall p: nat | p < |order| && Moved(order, p)
      ensures p == k || p == k + 1
    {
      var q: nat :| Inverted(order, p, q) || Inverted(order, q, p);
    }
  }

  // ---- the load-swap recogniser ----

  /** The identity, but for `k` and `k + 1`, which are exchanged. */
  ghost predicate SwapAt(order: seq<nat>, k: nat) {
    && k + 1 < |order|
    && order[k] == k + 1 && order[k + 1] == k
    && (forall i | 0 <= i < |order| && i != k && i != k + 1 :: order[i] == i)
  }

  /** The first `k` places are the identity but for the exchange at `swapped`. */
  ghost predicate SwapSoFar(order: seq<nat>, k: nat, swapped: Option<nat>) {
    && k <= |order|
    && (swapped.Some? ==> swapped.value + 1 < k && order[swapped.value] == swapped.value + 1 && order[swapped.value + 1] == swapped.value)
    && (forall i | 0 <= i < k && (swapped.Some? ==> i != swapped.value && i != swapped.value + 1) :: order[i] == i)
  }

  /** Scans a predicted order for exactly one exchange of neighbours, both loads. */
  method LoadSwap(order: seq<nat>, isLoad: seq<bool>) returns (r: Option<nat>)
    requires |isLoad| == |order|
    ensures forall k: nat :: r == Some(k) <==> SwapAt(order, k) && isLoad[k] && isLoad[k + 1]
  {
    var swapped: Option<nat>, othersOk := None, true;
    var k := 0;
    while k < |order|
      invariant k <= |order|
      invariant swapped.Some? ==> swapped.value + 1 < k && order[swapped.value] == swapped.value + 1
      invariant othersOk ==> SwapSoFar(order, k, swapped)
      invariant othersOk && swapped.Some? ==> isLoad[swapped.value] && isLoad[swapped.value + 1]
      invariant !othersOk ==> forall j: nat :: SwapAt(order, j) ==> !(isLoad[j] && isLoad[j + 1])
      invariant forall j: nat :: SwapAt(order, j) ==> j + 1 < k || k <= j
    {
      if k + 1 < |order| && order[k] == k + 1 && order[k + 1] == k {
        if swapped.Some? || !(isLoad[k] && isLoad[k + 1]) {
          othersOk := false;
        }
        swapped := Some(k);
        k := k + 2;
      } else {
        if order[k] != k {
          othersOk := false;
        }
        k := k + 1;
      }
    }
    if swapped.Some? && othersOk {
      assert SwapAt(order, swapped.value);
      return swapped;
    }
    return None;
  }

  lemma OnlyOnce(order: seq<nat>, p: nat, q: nat)
    requires Permutation(order) && p < |order| && q < |order|
    ensures order[p] == order[q] ==> p == q
  {
    assert p < q ==> order[p] != order[q];
    assert q < p ==> order[q] != order[p];
  }

  lemma TwoMovedAreSwapped(order: seq<nat>, a: nat, b: nat)
    requires Permutation(order) && a < b && MovedSet(order, |order|) == {a, b}
    ensures b == a + 1 && SwapAt(order, a)
  {
    var m := MovedSet(order, |order|);
    forall p: nat | p < |order| && p != a && p != b
      ensures order[p] == p && !Moved(order, p)
    {
      assert p !in m;
      StillIsFixed(order, p);
    }
    assert a in m && b in m;
    var q: nat :| Inverted(order, a, q) || Inverted(order, q, a);
    assert Moved(order, q);
    assert q in m;
    OnlyOnce(order, a, order[a]);
    OnlyOnce(order, b, order[b]);
    assert order[a] == b && order[b] == a;
    assert order[a + 1] == if a + 1 == b then a else a + 1;
    assert Inverted(order, a, a + 1);
    assert Moved(order, a + 1);
    assert a + 1 in m;
  }

  /** The two recognisers agree: a permutation moves exactly two elements just when it exchanges two neighbours. */
  lemma TwoMovedIffSwap(order: seq<nat>)
    requires Permutation(order)
    ensures |MovedSet(order, |order|)| == 2 <==> exists k: nat :: SwapAt(order, k)
  {
    var m := MovedSet(order, |order|);
    if |m| == 2 {
      var a :| a in m;
      assert |m - {a}| == 1;
      var b :| b in m - {a};
      assert |m - {a} - {b}| == 0;
      assert m == {a, b} == {b, a};
      if a < b {
        TwoMovedAreSwapped(order, a, b);
      } else {
        TwoMovedAreSwapped(order, b, a);
      }
    }
    if k: nat :| SwapAt(order, k) {
      SwapMovesTwo(order, k);
      assert |{k, k + 1}| == 2;
    }
  }
}
