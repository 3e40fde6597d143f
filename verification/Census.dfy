/** The interval instruments of the over-decode census: merged runs, and targets inside an instruction. */
module Census {
  /** `(start, length)` */
  type Extent = (nat, nat)

  // ---- runs ----

  predicate InOrder(p: Extent, q: Extent) {
    p.0 < q.0 || (p.0 == q.0 && p.1 <= q.1)
  }

  ghost predicate Ordered(b: seq<Extent>) {
    forall i, j | 0 <= i < j < |b| :: InOrder(b[i], b[j])
  }

  lemma Appended(lo: seq<Extent>, hi: seq<Extent>)
    requires Ordered(lo) && Ordered(hi) && forall p, q | p in lo && q in hi :: InOrder(p, q)
    ensures Ordered(lo + hi)
  {
    hide InOrder;
  }

  lemma InsertOrdered(lo: seq<Extent>, p: Extent, hi: seq<Extent>)
    requires Ordered(lo + hi)
    requires (forall q | q in lo :: InOrder(q, p)) && (hi != [] ==> InOrder(p, hi[0]))
    ensures Ordered(lo + [p] + hi)
  {
    forall i | 0 <= i < |lo|
      ensures (lo + hi)[i] == lo[i]
    {
    }
    forall j | 0 <= j < |hi|
      ensures (lo + hi)[|lo| + j] == hi[j] && InOrder(p, hi[j])
    {
      assert j == 0 || InOrder((lo + hi)[|lo|], (lo + hi)[|lo| + j]);
    }
    hide InOrder;
    forall q, r | q in lo && r in hi
      ensures InOrder(q, r)
    {
      var i :| 0 <= i < |lo| && lo[i] == q;
      var j :| 0 <= j < |hi| && hi[j] == r;
      assert InOrder((lo + hi)[i], (lo + hi)[|lo| + j]);
    }
    Appended(lo, [p]);
    Appended(lo + [p], hi);
  }

  /** The host's sort. */
  method Sort(a: seq<Extent>) returns (b: seq<Extent>)
    ensures multiset(b) == multiset(a) && Ordered(b)
  {
    b := [];
    for n := 0 to |a|
      invariant multiset(b) == multiset(a[..n]) && Ordered(b)
    {
      hide Ordered;
      var k := 0;
      while k < |b| && InOrder(b[k], a[n])
        invariant 0 <= k <= |b|
        invariant forall i | 0 <= i < k :: InOrder(b[i], a[n])
      {
        k := k + 1;
      }
      assert b == b[..k] + b[k..];
      InsertOrdered(b[..k], a[n], b[k..]);
      b := b[..k] + [a[n]] + b[k..];
      assert a[..n + 1] == a[..n] + [a[n]];
    }
    assert a[..|a|] == a;
  }

  predicate In(x: nat, p: Extent) {
    p.0 <= x < p.0 + p.1
  }

  /** An address some extent covers. */
  ghost predicate Covered(a: seq<Extent>, x: nat) {
    exists p :: p in a && In(x, p)
  }

  /** How many extents start between `lo` and `hi`, both included. */
  ghost function Starts(a: seq<Extent>, lo: nat, hi: nat): nat {
    if a == [] then 0 else Starts(a[..|a| - 1], lo, hi) + (if lo <= a[|a| - 1].0 <= hi then 1 else 0)
  }

  datatype Run = Run(start: nat, end: nat, count: nat)

  ghost function Total(out: seq<Run>): nat {
    if out == [] then 0 else Total(out[..|out| - 1]) + out[|out| - 1].count
  }

  /** Runs in order with a gap between each and the next. */
  ghost predicate Gapped(out: seq<Run>) {
    && (forall i | 0 <= i < |out| :: out[i].start <= out[i].end)
    && (forall i, j | 0 <= i < j < |out| :: out[i].end < out[j].start)
  }

  ghost predicate InRun(out: seq<Run>, x: nat) {
    exists i :: 0 <= i < |out| && out[i].start <= x < out[i].end
  }

  ghost predicate SameCover(a: seq<Extent>, out: seq<Run>) {
    forall x: nat :: InRun(out, x) <==> Covered(a, x)
  }

  ghost predicate CountsStarts(a: seq<Extent>, r: Run) {
    r.count == Starts(a, r.start, r.end) > 0
  }

  ghost predicate Counting(a: seq<Extent>, out: seq<Run>) {
    forall i | 0 <= i < |out| :: CountsStarts(a, out[i])
  }

  /** `out` are the runs of `a`: they cover what the extents cover, and each counts the extents that start in it,
      of which there is one at least; no extent is left out. */
  ghost predicate RunsOf(a: seq<Extent>, out: seq<Run>) {
    Gapped(out) && SameCover(a, out) && Counting(a, out) && Total(out) == |a|
  }

  /** No start is behind the end of the last run. */
  ghost predicate StartsBelow(b: seq<Extent>, out: seq<Run>) {
    out != [] && forall i | 0 <= i < |b| :: b[i].0 <= out[|out| - 1].end
  }

  /** Where the scan stands after the extents `b`: no start is behind the last run's end. */
  ghost predicate Scanned(b: seq<Extent>, out: seq<Run>) {
    && RunsOf(b, out)
    && (out == [] <==> b == [])
    && (b != [] ==> StartsBelow(b, out) && out[|out| - 1].start <= b[|b| - 1].0)
  }

  lemma {:induction false} StartsSame(b: seq<Extent>, lo: nat, hi: nat, hi': nat)
    requires hi <= hi' && forall i | 0 <= i < |b| :: b[i].0 <= hi
    ensures Starts(b, lo, hi) == Starts(b, lo, hi')
  {
    if b != [] {
      StartsSame(b[..|b| - 1], lo, hi, hi');
    }
  }

  lemma {:induction false} StartsNone(b: seq<Extent>, lo: nat, hi: nat)
    requires forall i | 0 <= i < |b| :: b[i].0 < lo
    ensures Starts(b, lo, hi) == 0
  {
    if b != [] {
      StartsNone(b[..|b| - 1], lo, hi);
    }
  }

  lemma StartsSnoc(b: seq<Extent>, p: Extent, lo: nat, hi: nat)
    ensures Starts(b + [p], lo, hi) == Starts(b, lo, hi) + (if lo <= p.0 <= hi then 1 else 0)
  {
    assert (b + [p])[..|b|] == b;
  }

  lemma CoveredSnoc(b: seq<Extent>, p: Extent, x: nat)
    ensures Covered(b + [p], x) <==> Covered(b, x) || In(x, p)
  {
    if Covered(b, x) {
      var q :| q in b && In(x, q);
      assert q in b + [p];
    }
    assert p in b + [p];
  }

  lemma TotalSnoc(out: seq<Run>, r: Run)
    ensures Total(out + [r]) == Total(out) + r.count
  {
    assert (out + [r])[..|out|] == out;
  }

  /** The extent `p` starts inside the last run, or touches it: the run grows. */
  ghost function Grown(out: seq<Run>, p: Extent): seq<Run>
    requires out != []
  {
    var r := out[|out| - 1];
    out[..|out| - 1] + [Run(r.start, if r.end < p.0 + p.1 then p.0 + p.1 else r.end, r.count + 1)]
  }

  lemma GrownCovers(out: seq<Run>, p: Extent, x: nat)
    requires out != [] && out[|out| - 1].start <= p.0 <= out[|out| - 1].end
    ensures InRun(Grown(out, p), x) <==> InRun(out, x) || In(x, p)
  {
    var out', n := Grown(out, p), |out| - 1;
    if InRun(out, x) {
      var i :| 0 <= i < |out| && out[i].start <= x < out[i].end;
      assert out'[i].start <= x < out'[i].end;
    }
    if In(x, p) {
      assert out'[n].start <= x < out'[n].end;
    }
    if InRun(out', x) && !In(x, p) {
      var i :| 0 <= i < |out'| && out'[i].start <= x < out'[i].end;
      assert out[i].start <= x < out[i].end;
    }
  }

  lemma GrownSameCover(b: seq<Extent>, out: seq<Run>, p: Extent)
    requires SameCover(b, out) && out != [] && out[|out| - 1].start <= p.0 <= out[|out| - 1].end
    ensures SameCover(b + [p], Grown(out, p))
  {
    hide InRun, Covered, Grown, In;
    forall x: nat
      ensures InRun(Grown(out, p), x) <==> Covered(b + [p], x)
    {
      GrownCovers(out, p, x);
      CoveredSnoc(b, p, x);
    }
  }

  lemma GrownCounts(b: seq<Extent>, out: seq<Run>, p: Extent)
    requires Counting(b, out) && StartsBelow(b, out) && Gapped(out)
    requires out[|out| - 1].start <= p.0 <= out[|out| - 1].end
    ensures Counting(b + [p], Grown(out, p))
  {
    hide Starts, Gapped;
    var out' := Grown(out, p);
    forall i | 0 <= i < |out'|
      ensures CountsStarts(b + [p], out'[i])
    {
      var r := out'[i];
      assert CountsStarts(b, out[i]);
      StartsSnoc(b, p, r.start, r.end);
      if i == |out| - 1 {
        StartsSame(b, r.start, out[i].end, r.end);
      } else {
        GapAt(out, i, |out| - 1);
      }
    }
  }

  lemma GapAt(out: seq<Run>, i: nat, j: nat)
    requires Gapped(out) && i < j < |out|
    ensures out[i].start <= out[i].end < out[j].start <= out[j].end
  {
  }

  lemma GrownTotal(out: seq<Run>, p: Extent)
    requires out != []
    ensures Total(Grown(out, p)) == Total(out) + 1
  {
    var n := |out| - 1;
    assert out == out[..n] + [out[n]];
    TotalSnoc(out[..n], out[n]);
    TotalSnoc(out[..n], Grown(out, p)[n]);
  }

  lemma GrownGapped(out: seq<Run>, p: Extent)
    requires Gapped(out) && out != [] && p.0 <= out[|out| - 1].end
    ensures Gapped(Grown(out, p))
  {
  }

  lemma GrowStep(b: seq<Extent>, out: seq<Run>, p: Extent)
    requires Scanned(b, out) && out != [] && b[|b| - 1].0 <= p.0 <= out[|out| - 1].end
    ensures Scanned(b + [p], Grown(out, p))
  {
    hide InRun, Covered, Starts, Total, SameCover, Counting, Gapped;
    GrownSameCover(b, out, p);
    GrownCounts(b, out, p);
    GrownTotal(out, p);
    GrownGapped(out, p);
  }

  lemma PushCovers(out: seq<Run>, p: Extent, x: nat)
    ensures InRun(out + [Run(p.0, p.0 + p.1, 1)], x) <==> InRun(out, x) || In(x, p)
  {
    var out' := out + [Run(p.0, p.0 + p.1, 1)];
    if InRun(out, x) {
      var i :| 0 <= i < |out| && out[i].start <= x < out[i].end;
      assert out'[i].start <= x < out'[i].end;
    }
    if In(x, p) {
      assert out'[|out|].start <= x < out'[|out|].end;
    }
    if InRun(out', x) && !In(x, p) {
      var i :| 0 <= i < |out'| && out'[i].start <= x < out'[i].end;
      assert out[i].start <= x < out[i].end;
    }
  }

  lemma PushSameCover(b: seq<Extent>, out: seq<Run>, p: Extent)
    requires SameCover(b, out)
    ensures SameCover(b + [p], out + [Run(p.0, p.0 + p.1, 1)])
  {
    hide InRun, Covered, In;
    forall x: nat
      ensures InRun(out + [Run(p.0, p.0 + p.1, 1)], x) <==> Covered(b + [p], x)
    {
      PushCovers(out, p, x);
      CoveredSnoc(b, p, x);
    }
  }

  lemma PushCounts(b: seq<Extent>, out: seq<Run>, p: Extent)
    requires Counting(b, out) && Gapped(out)
    requires if out == [] then b == [] else StartsBelow(b, out) && out[|out| - 1].end < p.0
    ensures Counting(b + [p], out + [Run(p.0, p.0 + p.1, 1)])
  {
    hide Starts, Gapped;
    var out' := out + [Run(p.0, p.0 + p.1, 1)];
    forall i | 0 <= i < |out'|
      ensures CountsStarts(b + [p], out'[i])
    {
      var r := out'[i];
      StartsSnoc(b, p, r.start, r.end);
      if i == |out| {
        StartsNone(b, r.start, r.end);
      } else {
        assert CountsStarts(b, out[i]);
        if i < |out| - 1 {
          GapAt(out, i, |out| - 1);
        }
      }
    }
  }

  lemma PushGapped(out: seq<Run>, r: Run)
    requires Gapped(out) && r.start <= r.end && (out != [] ==> out[|out| - 1].end < r.start)
    ensures Gapped(out + [r])
  {
    forall i | 0 <= i < |out|
      ensures out[i].end < r.start
    {
      if i < |out| - 1 {
        assert out[i].end < out[|out| - 1].start;
      }
    }
  }

  lemma PushStep(b: seq<Extent>, out: seq<Run>, p: Extent)
    requires Scanned(b, out) && (out != [] ==> out[|out| - 1].end < p.0)
    ensures Scanned(b + [p], out + [Run(p.0, p.0 + p.1, 1)])
  {
    hide InRun, Covered, Starts, Total, SameCover, Counting, Gapped;
    var r := Run(p.0, p.0 + p.1, 1);
    PushGapped(out, r);
    PushSameCover(b, out, p);
    PushCounts(b, out, p);
    TotalSnoc(out, r);
  }

  /** Merges extents into contiguous runs. */
  method Runs(a: seq<Extent>) returns (out: seq<Run>)
    ensures RunsOf(a, out)
  {
    hide Scanned, Ordered, RunsOf, Grown;
    var b := Sort(a);
    out := [];
    NothingScanned();
    for n := 0 to |b|
      invariant Scanned(b[..n], out)
    {
      assert b[..n + 1] == b[..n] + [b[n]];
      LastStart(b, n, out);
      var (s, l) := b[n];
      if out != [] && s <= out[|out| - 1].end {
        GrowStep(b[..n], out, b[n]);
        GrownInPlace(out, b[n]);
        var r := out[|out| - 1];
        out := out[|out| - 1 := Run(r.start, if r.end < s + l then s + l else r.end, r.count + 1)];
      } else {
        PushStep(b[..n], out, b[n]);
        out := out + [Run(s, s + l, 1)];
      }
    }
    assert b[..|b|] == b;
    ScannedIs(b, out);
    SameExtents(a, b, out);
  }

  lemma NothingScanned()
    ensures Scanned([], [])
  {
  }

  lemma ScannedIs(b: seq<Extent>, out: seq<Run>)
    requires Scanned(b, out)
    ensures RunsOf(b, out)
  {
  }

  lemma GrownInPlace(out: seq<Run>, p: Extent)
    requires out != []
    ensures var r := out[|out| - 1];
            Grown(out, p) == out[|out| - 1 := Run(r.start, if r.end < p.0 + p.1 then p.0 + p.1 else r.end, r.count + 1)]
  {
  }

  lemma LastStart(b: seq<Extent>, n: nat, out: seq<Run>)
    requires n < |b| && Scanned(b[..n], out) && Ordered(b)
    ensures out != [] ==> n > 0 && b[n - 1].0 <= b[n].0
  {
    if n > 0 {
      assert InOrder(b[n - 1], b[n]);
    }
  }

  lemma {:induction false} StartsOfSame(a: seq<Extent>, b: seq<Extent>, lo: nat, hi: nat)
    requires multiset(a) == multiset(b)
    ensures Starts(a, lo, hi) == Starts(b, lo, hi) && |a| == |b|
    decreases |a|
  {
    assert |a| == |multiset(a)| == |multiset(b)| == |b|;
    if a != [] {
      var p := a[|a| - 1];
      assert a == a[..|a| - 1] + [p];
      assert p in multiset(b);
      var k :| 0 <= k < |b| && b[k] == p;
      var rest := b[..k] + b[k + 1..];
      assert b == b[..k] + [p] + b[k + 1..];
      assert multiset(rest) == multiset(b) - multiset{p};
      assert multiset(a[..|a| - 1]) == multiset(a) - multiset{p};
      StartsOfSame(a[..|a| - 1], rest, lo, hi);
      StartsRemoved(b[..k], p, b[k + 1..], lo, hi);
    }
  }

  lemma {:induction false} StartsRemoved(b: seq<Extent>, p: Extent, c: seq<Extent>, lo: nat, hi: nat)
    ensures Starts(b + [p] + c, lo, hi) == Starts(b + c, lo, hi) + (if lo <= p.0 <= hi then 1 else 0)
    decreases |c|
  {
    if c == [] {
      assert b + [p] + c == b + [p] && b + c == b;
      StartsSnoc(b, p, lo, hi);
    } else {
      var c', q := c[..|c| - 1], c[|c| - 1];
      assert b + [p] + c == (b + [p] + c') + [q] && b + c == (b + c') + [q];
      StartsSnoc(b + [p] + c', q, lo, hi);
      StartsSnoc(b + c', q, lo, hi);
      StartsRemoved(b, p, c', lo, hi);
    }
  }

  /** What the runs are does not depend on the order of the extents. */
  lemma SameExtents(a: seq<Extent>, b: seq<Extent>, out: seq<Run>)
    requires multiset(a) == multiset(b) && RunsOf(b, out)
    ensures RunsOf(a, out)
  {
    hide InRun, Starts, Total, Gapped;
    forall x: nat
      ensures Covered(a, x) <==> Covered(b, x)
    {
      assert forall p :: p in a <==> p in multiset(a);
      assert forall p :: p in b <==> p in multiset(b);
    }
    hide Covered;
    forall i | 0 <= i < |out|
      ensures Starts(a, out[i].start, out[i].end) == Starts(b, out[i].start, out[i].end)
    {
      StartsOfSame(a, b, out[i].start, out[i].end);
    }
    StartsOfSame(a, b, 0, 0);
  }

  // ---- a set of extents has one list of runs ----

  /** The extents that start in some run, its end included. */
  ghost function Held(a: seq<Extent>, out: seq<Run>): nat {
    if out == [] then 0 else Held(a, out[..|out| - 1]) + Starts(a, out[|out| - 1].start, out[|out| - 1].end)
  }

  ghost predicate StartsIn(out: seq<Run>, x: nat) {
    exists i :: 0 <= i < |out| && out[i].start <= x <= out[i].end
  }

  lemma {:induction false} TotalIsHeld(a: seq<Extent>, out: seq<Run>)
    requires Counting(a, out)
    ensures Total(out) == Held(a, out)
  {
    hide Starts;
    if out != [] {
      TotalIsHeld(a, out[..|out| - 1]);
    }
  }

  lemma {:induction false} HeldSnoc(a: seq<Extent>, p: Extent, out: seq<Run>)
    requires Gapped(out)
    ensures Held(a + [p], out) == Held(a, out) + (if StartsIn(out, p.0) then 1 else 0)
  {
    hide Starts;
    if out != [] {
      var n := |out| - 1;
      FrontOfRuns(out);
      HeldSnoc(a, p, out[..n]);
      StartsSnoc(a, p, out[n].start, out[n].end);
      StartsInSnoc(out, p.0);
    }
  }

  /** A start lies in one run at most. */
  lemma StartsInSnoc(out: seq<Run>, x: nat)
    requires Gapped(out) && out != []
    ensures var n := |out| - 1;
            && (StartsIn(out, x) <==> StartsIn(out[..n], x) || out[n].start <= x <= out[n].end)
            && !(StartsIn(out[..n], x) && out[n].start <= x <= out[n].end)
  {
    var n := |out| - 1;
    if i :| 0 <= i < |out| && out[i].start <= x <= out[i].end && i < n {
      assert out[..n][i].start <= x <= out[..n][i].end;
    }
    if i :| 0 <= i < n && out[..n][i].start <= x <= out[..n][i].end {
      assert out[i].start <= x <= out[i].end < out[n].start;
    }
  }

  /** If no extent is left out, every start lies in some run. */
  lemma {:induction false} HeldAll(a: seq<Extent>, out: seq<Run>)
    requires Gapped(out)
    ensures Held(a, out) <= |a|
    ensures Held(a, out) == |a| ==> forall k | 0 <= k < |a| :: StartsIn(out, a[k].0)
  {
    hide Gapped, StartsIn;
    if a == [] {
      HeldNone(out);
    } else {
      var n := |a| - 1;
      assert a == a[..n] + [a[n]];
      HeldAll(a[..n], out);
      HeldSnoc(a[..n], a[n], out);
    }
  }

  lemma {:induction false} HeldNone(out: seq<Run>)
    ensures Held([], out) == 0
  {
    if out != [] {
      HeldNone(out[..|out| - 1]);
    }
  }

  /** The places around a run are not covered. */
  lemma RunEdges(out: seq<Run>, i: nat)
    requires Gapped(out) && i < |out|
    ensures out[i].start <= out[i].end && !InRun(out, out[i].end) && (out[i].start > 0 ==> !InRun(out, out[i].start - 1))
    ensures out[i].start == out[i].end ==> !InRun(out, out[i].start)
    ensures forall x: nat | out[i].start <= x < out[i].end :: InRun(out, x)
  {
  }

  lemma {:induction false} StartsSome(a: seq<Extent>, lo: nat, hi: nat) returns (k: nat)
    requires Starts(a, lo, hi) > 0
    ensures k < |a| && lo <= a[k].0 <= hi
  {
    if lo <= a[|a| - 1].0 <= hi {
      k := |a| - 1;
    } else {
      k := StartsSome(a[..|a| - 1], lo, hi);
    }
  }

  /** Runs over the same addresses that meet are the same interval. */
  lemma MeetingRuns(out: seq<Run>, out': seq<Run>, i: nat, j: nat)
    requires Gapped(out) && Gapped(out') && (forall x: nat :: InRun(out, x) <==> InRun(out', x))
    requires i < |out| && j < |out'| && out[i].start <= out'[j].end && out'[j].start <= out[i].end
    ensures out[i].start == out'[j].start && out[i].end == out'[j].end
  {
    RunEdges(out, i);
    RunEdges(out', j);
    hide InRun, Gapped;
    var (s, e, s', e') := (out[i].start, out[i].end, out'[j].start, out'[j].end);
    assert s > 0 ==> !InRun(out', s - 1);
    assert s' > 0 ==> !InRun(out, s' - 1);
    assert !InRun(out', e) && !InRun(out, e');
  }

  lemma EachRunIsThere(a: seq<Extent>, out: seq<Run>, out': seq<Run>, r: Run)
    requires RunsOf(a, out) && RunsOf(a, out') && r in out
    ensures r in out'
  {
    hide InRun, Covered, Starts, Total, Gapped;
    var i :| 0 <= i < |out| && out[i] == r;
    assert CountsStarts(a, out[i]);
    var k := StartsSome(a, r.start, r.end);
    TotalIsHeld(a, out');
    HeldAll(a, out');
    assert StartsIn(out', a[k].0);
    var j :| 0 <= j < |out'| && out'[j].start <= a[k].0 <= out'[j].end;
    MeetingRuns(out, out', i, j);
    assert CountsStarts(a, out'[j]);
  }

  lemma {:induction false} SortedRunsEqual(out: seq<Run>, out': seq<Run>)
    requires Gapped(out) && Gapped(out') && forall r :: r in out <==> r in out'
    ensures out == out'
  {
    assert out == [] <==> out' == [] by {
      assert |out| > 0 ==> out[0] in out;
      assert |out'| > 0 ==> out'[0] in out';
    }
    if out != [] {
      var m, n := |out| - 1, |out'| - 1;
      LastRuns(out, out');
      FrontOfRuns(out);
      FrontOfRuns(out');
      hide Gapped;
      forall r
        ensures r in out[..m] <==> r in out'[..n]
      {
        assert r in out <==> r in out';
      }
      SortedRunsEqual(out[..m], out'[..n]);
      assert out == out[..m] + [out[m]] && out' == out'[..n] + [out'[n]];
    }
  }

  lemma LastRuns(out: seq<Run>, out': seq<Run>)
    requires Gapped(out) && Gapped(out') && out != [] && out' != [] && forall r :: r in out <==> r in out'
    ensures out[|out| - 1] == out'[|out'| - 1]
  {
    var m, n := |out| - 1, |out'| - 1;
    assert out[m] in out' && out'[n] in out;
    var i :| 0 <= i < |out'| && out'[i] == out[m];
    var j :| 0 <= j < |out| && out[j] == out'[n];
    assert out'[i].start <= out'[n].start && out[j].start <= out[m].start;
  }

  lemma FrontOfRuns(out: seq<Run>)
    requires Gapped(out) && out != []
    ensures Gapped(out[..|out| - 1])
    ensures forall r :: r in out[..|out| - 1] <==> r in out && r != out[|out| - 1]
  {
    var n := |out| - 1;
    assert forall i | 0 <= i < n :: out[i] != out[n];
    assert out == out[..n] + [out[n]];
  }

  /** The runs of a list of extents are one list, whatever finds them. */
  lemma RunsUnique(a: seq<Extent>, out: seq<Run>, out': seq<Run>)
    requires RunsOf(a, out) && RunsOf(a, out')
    ensures out == out'
  {
    forall r
      ensures r in out <==> r in out'
    {
      if r in out {
        EachRunIsThere(a, out, out', r);
      }
      if r in out' {
        EachRunIsThere(a, out', out, r);
      }
    }
    hide SameCover, Counting, Total;
    SortedRunsEqual(out, out');
  }

  // ---- offcut starts and targets ----

  /** Instructions in strictly increasing order of their starts. */
  ghost predicate Listing(insns: seq<Extent>) {
    forall i, j | 0 <= i < j < |insns| :: insns[i].0 < insns[j].0
  }

  /** **A2**: the starts that lie inside the extent of the instruction before. */
  function OffcutStarts(insns: seq<Extent>): seq<nat> {
    if |insns| < 2 then []
    else
      var n := |insns| - 1;
      OffcutStarts(insns[..n]) + (if insns[n].0 < insns[n - 1].0 + insns[n - 1].1 then [insns[n].0] else [])
  }

  /** `t` lies strictly inside an instruction: behind its start, before its end. */
  ghost predicate Inside(insns: seq<Extent>, t: nat) {
    exists i :: 0 <= i < |insns| && insns[i].0 < t < insns[i].0 + insns[i].1
  }

  /** The host's binary search: the number of instructions that start before `t`. */
  function Before(insns: seq<Extent>, t: nat): (n: nat)
    ensures n <= |insns|
  {
    if insns == [] || insns[|insns| - 1].0 < t then |insns| else Before(insns[..|insns| - 1], t)
  }

  predicate Offcut(insns: seq<Extent>, t: nat) {
    var i := Before(insns, t);
    if i < |insns| && insns[i].0 == t then false
    else i > 0 && t < insns[i - 1].0 + insns[i - 1].1
  }

  lemma {:induction false} BeforeIs(insns: seq<Extent>, t: nat)
    requires Listing(insns)
    ensures forall i | 0 <= i < |insns| :: insns[i].0 < t <==> i < Before(insns, t)
  {
    if insns != [] && insns[|insns| - 1].0 >= t {
      BeforeIs(insns[..|insns| - 1], t);
    }
  }

  /** `t` is the start of instruction `n`, and lies inside the one before. */
  ghost predicate InNeighbour(insns: seq<Extent>, n: nat, t: nat) {
    0 < n < |insns| && insns[n].0 == t && t < insns[n - 1].0 + insns[n - 1].1
  }

  lemma {:induction false} OffcutStartsAre(insns: seq<Extent>, t: nat)
    ensures t in OffcutStarts(insns) <==> exists n: nat :: InNeighbour(insns, n, t)
  {
    if |insns| >= 2 {
      var m := |insns| - 1;
      OffcutStartsAre(insns[..m], t);
      if n: nat :| InNeighbour(insns, n, t) && n < m {
        assert InNeighbour(insns[..m], n, t);
      }
      if t in OffcutStarts(insns[..m]) {
        var n: nat :| InNeighbour(insns[..m], n, t);
        assert InNeighbour(insns, n, t);
      }
      if InNeighbour(insns, m, t) {
        assert t in OffcutStarts(insns);
      }
    }
  }

  /** The scan of neighbours finds something exactly when some start lies strictly inside some instruction. */
  lemma OffcutStartsIff(insns: seq<Extent>)
    requires Listing(insns)
    ensures OffcutStarts(insns) != [] <==> exists j :: 0 <= j < |insns| && Inside(insns, insns[j].0)
  {
    hide OffcutStarts;
    if OffcutStarts(insns) != [] {
      var t := OffcutStarts(insns)[0];
      assert t in OffcutStarts(insns);
      OffcutStartsAre(insns, t);
      var n: nat :| InNeighbour(insns, n, t);
      assert insns[n - 1].0 < t;
      assert Inside(insns, insns[n].0);
    }
    if j :| 0 <= j < |insns| && Inside(insns, insns[j].0) {
      var i :| 0 <= i < |insns| && insns[i].0 < insns[j].0 < insns[i].0 + insns[i].1;
      assert i < j;
      OffcutStartsAre(insns, insns[i + 1].0);
      assert InNeighbour(insns, i + 1, insns[i + 1].0);
    }
  }

  /** The farthest end among the first `n` instructions. */
  function Farthest(insns: seq<Extent>, n: nat): (e: nat)
    requires n <= |insns|
  {
    if n == 0 then 0
    else
      var before, end := Farthest(insns, n - 1), insns[n - 1].0 + insns[n - 1].1;
      if before < end then end else before
  }

  lemma {:induction false} FarthestReaches(insns: seq<Extent>, n: nat, t: nat)
    requires n <= |insns|
    ensures t < Farthest(insns, n) <==> exists i :: 0 <= i < n && t < insns[i].0 + insns[i].1
  {
    if n > 0 {
      FarthestReaches(insns, n - 1, t);
      assert t < insns[n - 1].0 + insns[n - 1].1 ==> exists i :: 0 <= i < n && t < insns[i].0 + insns[i].1;
    }
  }

  /** But it lists only the starts inside their neighbour: the start of `j` lies inside an instruction and is not
      listed exactly when the instruction before has ended and an earlier one has not. */
  predicate Passed(insns: seq<Extent>, j: nat)
    requires j < |insns|
  {
    j > 0 && insns[j - 1].0 + insns[j - 1].1 <= insns[j].0 < Farthest(insns, j)
  }

  lemma MissedIffPassed(insns: seq<Extent>, j: nat)
    requires Listing(insns) && j < |insns|
    ensures Inside(insns, insns[j].0) && insns[j].0 !in OffcutStarts(insns) <==> Passed(insns, j)
  {
    var t := insns[j].0;
    OffcutStartsAre(insns, t);
    FarthestReaches(insns, j, t);
    InsideIsBefore(insns, j);
    hide OffcutStarts, Inside, Farthest;
    assert (exists n: nat :: InNeighbour(insns, n, t)) <==> j > 0 && InNeighbour(insns, j, t) by {
      if n: nat :| InNeighbour(insns, n, t) {
        assert n == j;
      }
    }
  }

  /** Only an instruction before can hold a start inside. */
  lemma InsideIsBefore(insns: seq<Extent>, j: nat)
    requires Listing(insns) && j < |insns|
    ensures Inside(insns, insns[j].0) <==> exists i :: 0 <= i < j && insns[j].0 < insns[i].0 + insns[i].1
  {
    var t := insns[j].0;
    if i :| 0 <= i < |insns| && insns[i].0 < t < insns[i].0 + insns[i].1 {
      assert !(j < i) && i != j;
      assert i < j && t < insns[i].0 + insns[i].1;
    }
    if i :| 0 <= i < j && t < insns[i].0 + insns[i].1 {
      assert insns[i].0 < t < insns[i].0 + insns[i].1;
    }
  }

  /** A2 lists every start inside an instruction exactly when none is passed over. */
  lemma ListsAllIffNonePassed(insns: seq<Extent>)
    requires Listing(insns)
    ensures (forall j | 0 <= j < |insns| && Inside(insns, insns[j].0) :: insns[j].0 in OffcutStarts(insns))
            <==> forall j | 0 <= j < |insns| :: !Passed(insns, j)
  {
    hide Inside, OffcutStarts, Passed, Listing;
    forall j: nat | j < |insns|
      ensures Inside(insns, insns[j].0) && insns[j].0 !in OffcutStarts(insns) <==> Passed(insns, j)
    {
      MissedIffPassed(insns, j);
    }
  }

  lemma SomeStartsAreMissed()
    ensures var insns := [(0, 10), (2, 2), (6, 2)];
            Listing(insns) && Passed(insns, 2) && Inside(insns, 6) && 6 !in OffcutStarts(insns)
  {
    var insns := [(0, 10), (2, 2), (6, 2)];
    assert Farthest(insns, 1) == 10 && Farthest(insns, 2) == 10;
    MissedIffPassed(insns, 2);
  }

  /** Ends in order pass none over. */
  lemma OrderedEndsMissNone(insns: seq<Extent>, j: nat)
    requires Listing(insns) && j < |insns|
    requires forall i, k | 0 <= i < k < |insns| :: insns[i].0 + insns[i].1 <= insns[k].0 + insns[k].1
    ensures !Passed(insns, j)
  {
    if j > 0 {
      FarthestReaches(insns, j, insns[j].0);
      if i :| 0 <= i < j && insns[j].0 < insns[i].0 + insns[i].1 {
        assert i == j - 1 || insns[i].0 + insns[i].1 <= insns[j - 1].0 + insns[j - 1].1;
      }
    }
  }

  lemma OffcutIsInside(insns: seq<Extent>, t: nat)
    requires Listing(insns) && Offcut(insns, t)
    ensures Inside(insns, t)
  {
    BeforeIs(insns, t);
    var i := Before(insns, t);
    assert insns[i - 1].0 < t;
  }

  /** A target inside an instruction that the search does not find shows an offcut start. */
  lemma MissedShowsOffcutStart(insns: seq<Extent>, t: nat)
    requires Listing(insns) && Inside(insns, t) && !Offcut(insns, t)
    ensures OffcutStarts(insns) != []
  {
    hide OffcutStarts, Before;
    OffcutStartsIff(insns);
    BeforeIs(insns, t);
    var n := Before(insns, t);
    var i :| 0 <= i < |insns| && insns[i].0 < t < insns[i].0 + insns[i].1;
    assert i < n;
    if n < |insns| && insns[n].0 == t {
      assert Inside(insns, insns[n].0);
    } else {
      assert insns[i].0 < insns[i + 1].0 < insns[i].0 + insns[i].1;
      assert Inside(insns, insns[i + 1].0);
    }
  }

  /** The binary search finds exactly the targets inside an instruction, for every target, if and only if the
      scan of neighbours found nothing. */
  lemma OffcutIffClean(insns: seq<Extent>)
    requires Listing(insns)
    ensures OffcutStarts(insns) == [] <==> forall t: nat :: Offcut(insns, t) <==> Inside(insns, t)
  {
    if OffcutStarts(insns) == [] {
      forall t: nat
        ensures Offcut(insns, t) <==> Inside(insns, t)
      {
        if Offcut(insns, t) {
          OffcutIsInside(insns, t);
        } else if Inside(insns, t) {
          MissedShowsOffcutStart(insns, t);
        }
      }
    } else {
      OffcutStartsIff(insns);
      var j :| 0 <= j < |insns| && Inside(insns, insns[j].0);
      BeforeIs(insns, insns[j].0);
      assert Before(insns, insns[j].0) == j by {
        assert j >= Before(insns, insns[j].0);
        assert j == 0 || insns[j - 1].0 < insns[j].0;
      }
      assert !Offcut(insns, insns[j].0);
    }
  }

  /** **A3**: the flow edges whose target the search finds inside an instruction, in their order. */
  function OffcutFlow(edges: seq<(nat, nat)>, insns: seq<Extent>): seq<(nat, nat)> {
    if edges == [] then []
    else OffcutFlow(edges[..|edges| - 1], insns) + (if Offcut(insns, edges[|edges| - 1].1) then [edges[|edges| - 1]] else [])
  }

  predicate Executable(exec: seq<(nat, nat)>, t: nat) {
    exists i :: 0 <= i < |exec| && exec[i].0 <= t <= exec[i].1
  }

  function CodeTargets(targets: seq<nat>, exec: seq<(nat, nat)>): seq<nat> {
    if targets == [] then []
    else CodeTargets(targets[..|targets| - 1], exec) + (if Executable(exec, targets[|targets| - 1]) then [targets[|targets| - 1]] else [])
  }

  function Offcuts(ts: seq<nat>, insns: seq<Extent>): seq<nat> {
    if ts == [] then []
    else Offcuts(ts[..|ts| - 1], insns) + (if Offcut(insns, ts[|ts| - 1]) then [ts[|ts| - 1]] else [])
  }

  /** **A4**: the code-targeted relocation targets inside an instruction, and how many were code-targeted. */
  function OffcutTargets(targets: seq<nat>, insns: seq<Extent>, exec: seq<(nat, nat)>): (seq<nat>, nat) {
    var code := CodeTargets(targets, exec);
    (Offcuts(code, insns), |code|)
  }

  /** On clean instructions A3 reports exactly the edges into the middle of one, each as often as it occurs. */
  lemma {:induction false} FlowReportIsExact(edges: seq<(nat, nat)>, insns: seq<Extent>, e: (nat, nat))
    requires Listing(insns) && OffcutStarts(insns) == []
    ensures multiset(OffcutFlow(edges, insns))[e] == if Inside(insns, e.1) then multiset(edges)[e] else 0
  {
    OffcutIffClean(insns);
    hide Inside, Offcut;
    if edges != [] {
      FlowReportIsExact(edges[..|edges| - 1], insns, e);
      assert edges == edges[..|edges| - 1] + [edges[|edges| - 1]];
    }
  }

  /** And A4 exactly the executable targets in the middle of one. */
  lemma {:induction false} TargetReportIsExact(targets: seq<nat>, insns: seq<Extent>, exec: seq<(nat, nat)>, t: nat)
    requires Listing(insns) && OffcutStarts(insns) == []
    ensures multiset(OffcutTargets(targets, insns, exec).0)[t]
            == if Executable(exec, t) && Inside(insns, t) then multiset(targets)[t] else 0
  {
    OffcutIffClean(insns);
    CodeTargetsAre(targets, exec, t);
    OffcutsAre(CodeTargets(targets, exec), insns, t);
  }

  lemma {:induction false} CodeTargetsAre(targets: seq<nat>, exec: seq<(nat, nat)>, t: nat)
    ensures multiset(CodeTargets(targets, exec))[t] == if Executable(exec, t) then multiset(targets)[t] else 0
  {
    hide Executable;
    if targets != [] {
      CodeTargetsAre(targets[..|targets| - 1], exec, t);
      assert targets == targets[..|targets| - 1] + [targets[|targets| - 1]];
    }
  }

  lemma {:induction false} OffcutsAre(ts: seq<nat>, insns: seq<Extent>, t: nat)
    ensures multiset(Offcuts(ts, insns))[t] == if Offcut(insns, t) then multiset(ts)[t] else 0
  {
    hide Offcut;
    if ts != [] {
      OffcutsAre(ts[..|ts| - 1], insns, t);
      assert ts == ts[..|ts| - 1] + [ts[|ts| - 1]];
    }
  }

  /** The places of the targets the blocks of `exec` hold. */
  ghost function CodePlaces(targets: seq<nat>, exec: seq<(nat, nat)>): set<nat> {
    set i: nat | i < |targets| && exists k :: 0 <= k < |exec| && exec[k].0 <= targets[i] <= exec[k].1
  }

  /** What A4's findings are out of: how many of the targets are in executable memory. */
  lemma {:induction false} DenominatorIs(targets: seq<nat>, insns: seq<Extent>, exec: seq<(nat, nat)>)
    ensures OffcutTargets(targets, insns, exec).1 == |CodePlaces(targets, exec)|
  {
    if targets == [] {
      assert CodePlaces(targets, exec) == {};
    } else {
      var n := |targets| - 1;
      DenominatorIs(targets[..n], insns, exec);
      if Executable(exec, targets[n]) {
        assert CodePlaces(targets, exec) == CodePlaces(targets[..n], exec) + {n};
      } else {
        assert CodePlaces(targets, exec) == CodePlaces(targets[..n], exec);
      }
    }
  }
}
