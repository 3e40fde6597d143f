/** The longest common subsequence of two token sequences: what it is, and the method that finds its length
    by interning, peeling the common ends and filling two rows of a table. */
module Lcs {
  /** `m` matches positions of `a` with positions of `b` that hold equal elements, both in increasing order:
      a common subsequence, with the places it is taken from. */
  ghost predicate Common<T(!new)>(a: seq<T>, b: seq<T>, m: seq<(nat, nat)>) {
    && (forall k | 0 <= k < |m| :: m[k].0 < |a| && m[k].1 < |b| && a[m[k].0] == b[m[k].1])
    && (forall i, j | 0 <= i < j < |m| :: m[i].0 < m[j].0 && m[i].1 < m[j].1)
  }

  /** `n` is the length of a longest common subsequence. */
  ghost predicate IsLongest<T(!new)>(a: seq<T>, b: seq<T>, n: nat) {
    && (exists m :: Common(a, b, m) && |m| == n)
    && (forall m | Common(a, b, m) :: |m| <= n)
  }

  function Max(x: nat, y: nat): nat {
    if x < y then y else x
  }

  /** The table entry for the prefixes `a` and `b`. */
  function Table<T(==)>(a: seq<T>, b: seq<T>): nat
    decreases |a| + |b|
  {
    if a == [] || b == [] then 0
    else
      var a', b' := a[..|a| - 1], b[..|b| - 1];
      if a[|a| - 1] == b[|b| - 1] then Table(a', b') + 1 else Max(Table(a', b), Table(a, b'))
  }

  // ---- the table is the maximum over all common subsequences ----

  lemma {:induction false} AtMostTable<T(!new)>(a: seq<T>, b: seq<T>, m: seq<(nat, nat)>)
    requires Common(a, b, m)
    ensures |m| <= Table(a, b)
    decreases |a| + |b|
  {
    if m != [] {
      var last := m[|m| - 1];
      var a', b' := a[..|a| - 1], b[..|b| - 1];
      forall k | 0 <= k < |m| - 1
        ensures m[k].0 < |a| - 1 && m[k].1 < |b| - 1
      {
        assert m[k].0 < last.0 && m[k].1 < last.1;
      }
      if a[|a| - 1] == b[|b| - 1] {
        AtMostTable(a', b', m[..|m| - 1]);
      } else if last.0 < |a| - 1 {
        AtMostTable(a', b, m);
      } else {
        AtMostTable(a, b', m);
      }
    }
  }

  lemma {:induction false} TableReached<T(!new)>(a: seq<T>, b: seq<T>) returns (m: seq<(nat, nat)>)
    ensures Common(a, b, m) && |m| == Table(a, b)
    decreases |a| + |b|
  {
    if a == [] || b == [] {
      m := [];
    } else {
      var a', b' := a[..|a| - 1], b[..|b| - 1];
      if a[|a| - 1] == b[|b| - 1] {
        m := TableReached(a', b');
        m := m + [(|a'|, |b'|)];
      } else if Table(a', b) < Table(a, b') {
        m := TableReached(a, b');
      } else {
        m := TableReached(a', b);
      }
    }
  }

  lemma TableIsLongest<T(!new)>(a: seq<T>, b: seq<T>, n: nat)
    ensures IsLongest(a, b, n) <==> n == Table(a, b)
  {
    var m := TableReached(a, b);
    forall m' | Common(a, b, m')
      ensures |m'| <= Table(a, b)
    {
      AtMostTable(a, b, m');
    }
  }

  // ---- peeling the ends loses nothing ----

  /** A matching behind a common first element. */
  ghost function Shifted(m: seq<(nat, nat)>): seq<(nat, nat)> {
    [(0, 0)] + seq(|m|, k requires 0 <= k < |m| => (m[k].0 + 1, m[k].1 + 1))
  }

  lemma ShiftedCommon<T(!new)>(x: T, a: seq<T>, b: seq<T>, m: seq<(nat, nat)>)
    requires Common(a, b, m)
    ensures Common([x] + a, [x] + b, Shifted(m))
  {
  }

  /** A matching without its first pair, where the rest lies behind a first element. */
  ghost function Unshifted(m: seq<(nat, nat)>): (r: seq<(nat, nat)>)
    requires m != [] && forall k | 0 < k < |m| :: m[k].0 > 0 && m[k].1 > 0
  {
    seq(|m| - 1, k requires 0 <= k < |m| - 1 => (m[k + 1].0 - 1, m[k + 1].1 - 1))
  }

  lemma UnshiftedCommon<T(!new)>(x: T, a: seq<T>, b: seq<T>, m: seq<(nat, nat)>)
    requires Common([x] + a, [x] + b, m) && m != []
    ensures forall k | 0 < k < |m| :: m[k].0 > 0 && m[k].1 > 0
    ensures Common(a, b, Unshifted(m))
  {
    forall k | 0 < k < |m|
      ensures m[k].0 > 0 && m[k].1 > 0
    {
      assert m[0].0 < m[k].0 && m[0].1 < m[k].1;
    }
    var m' := Unshifted(m);
    forall k | 0 <= k < |m'|
      ensures m'[k].0 < |a| && m'[k].1 < |b| && a[m'[k].0] == b[m'[k].1]
    {
      assert ([x] + a)[m[k + 1].0] == ([x] + b)[m[k + 1].1];
    }
  }

  lemma PeelFirst<T(!new)>(x: T, a: seq<T>, b: seq<T>)
    ensures Table([x] + a, [x] + b) == Table(a, b) + 1
  {
    hide Table, Common;
    var m := TableReached(a, b);
    ShiftedCommon(x, a, b, m);
    AtMostTable([x] + a, [x] + b, Shifted(m));
    var m' := TableReached([x] + a, [x] + b);
    if m' != [] {
      UnshiftedCommon(x, a, b, m');
      AtMostTable(a, b, Unshifted(m'));
    }
  }

  lemma {:induction false} PeelPrefix<T(!new)>(a: seq<T>, b: seq<T>, lo: nat)
    requires lo <= |a| && lo <= |b| && a[..lo] == b[..lo]
    ensures Table(a, b) == lo + Table(a[lo..], b[lo..])
  {
    if lo == 0 {
      assert a[0..] == a && b[0..] == b;
    } else {
      assert a[..lo][0] == b[..lo][0];
      assert a == [a[0]] + a[1..] && b == [a[0]] + b[1..];
      PeelFirst(a[0], a[1..], b[1..]);
      assert a[1..][..lo - 1] == a[..lo][1..] && b[1..][..lo - 1] == b[..lo][1..];
      PeelPrefix(a[1..], b[1..], lo - 1);
      assert a[1..][lo - 1..] == a[lo..] && b[1..][lo - 1..] == b[lo..];
    }
  }

  lemma {:induction false} PeelSuffix<T(!new)>(a: seq<T>, b: seq<T>, hi: nat)
    requires hi <= |a| && hi <= |b| && a[|a| - hi..] == b[|b| - hi..]
    ensures Table(a, b) == hi + Table(a[..|a| - hi], b[..|b| - hi])
  {
    if hi == 0 {
      assert a[..|a|] == a && b[..|b|] == b;
    } else {
      var a', b' := a[..|a| - 1], b[..|b| - 1];
      assert a[|a| - 1] == a[|a| - hi..][hi - 1] == b[|b| - hi..][hi - 1] == b[|b| - 1];
      assert a'[|a'| - (hi - 1)..] == a[|a| - hi..][..hi - 1];
      assert b'[|b'| - (hi - 1)..] == b[|b| - hi..][..hi - 1];
      PeelSuffix(a', b', hi - 1);
      assert a'[..|a'| - (hi - 1)] == a[..|a| - hi] && b'[..|b'| - (hi - 1)] == b[..|b| - hi];
    }
  }

  // ---- interning keeps the length ----

  /** The id table gives every token it holds its own number, below the number of tokens it holds. */
  ghost predicate Ids<T(!new)>(ids: map<T, nat>) {
    && (forall t <- ids :: ids[t] < |ids|)
    && (forall t <- ids, u <- ids :: ids[t] == ids[u] ==> t == u)
  }

  ghost predicate Interned<T(!new)>(ids: map<T, nat>, a: seq<T>, ia: seq<nat>) {
    |ia| == |a| && forall k | 0 <= k < |a| :: a[k] in ids && ia[k] == ids[a[k]]
  }

  lemma {:induction false} InterningKeeps<T(!new)>(ids: map<T, nat>, a: seq<T>, b: seq<T>, ia: seq<nat>, ib: seq<nat>)
    requires Ids(ids) && Interned(ids, a, ia) && Interned(ids, b, ib)
    ensures Table(ia, ib) == Table(a, b)
    decreases |a| + |b|
  {
    if a != [] && b != [] {
      InterningKeeps(ids, a[..|a| - 1], b[..|b| - 1], ia[..|a| - 1], ib[..|b| - 1]);
      InterningKeeps(ids, a[..|a| - 1], b, ia[..|a| - 1], ib);
      InterningKeeps(ids, a, b[..|b| - 1], ia, ib[..|b| - 1]);
    }
  }

  // ---- the method ----

  lemma NewId<T(!new)>(ids: map<T, nat>, t: T)
    requires Ids(ids) && t !in ids
    ensures Ids(ids[t := |ids|])
  {
    var ids' := ids[t := |ids|];
    assert |ids'| == |ids| + 1;
    assert forall u <- ids' :: u == t || (u in ids && ids'[u] == ids[u] < |ids|);
  }

  ghost predicate Extends<T(!new)>(ids: map<T, nat>, ids': map<T, nat>) {
    forall t :: t in ids ==> t in ids' && ids'[t] == ids[t]
  }

  method Intern<T(==, !new)>(a: seq<T>, ids: map<T, nat>) returns (ia: seq<nat>, ids': map<T, nat>)
    requires Ids(ids)
    ensures Ids(ids') && Extends(ids, ids') && Interned(ids', a, ia)
  {
    hide Ids;
    ia, ids' := [], ids;
    for k := 0 to |a|
      invariant Ids(ids') && Extends(ids, ids') && Interned(ids', a[..k], ia)
    {
      var next := |ids'|;
      if a[k] !in ids' {
        NewId(ids', a[k]);
        ids' := ids'[a[k] := next];
      }
      ia := ia + [ids'[a[k]]];
    }
    assert a[..|a|] == a;
  }

  /** The two-row table. */
  method LastEntry(a: seq<nat>, b: seq<nat>) returns (n: nat)
    ensures n == Table(a, b)
  {
    var prev := new nat[|b| + 1](_ => 0);
    var cur := new nat[|b| + 1](_ => 0);
    for i := 0 to |a|
      invariant prev != cur && fresh(prev) && fresh(cur) && prev.Length == cur.Length == |b| + 1
      invariant forall j | 0 <= j <= |b| :: prev[j] == Table(a[..i], b[..j])
      invariant cur[0] == 0
    {
      assert a[..i + 1][..i] == a[..i];
      for j := 0 to |b|
        invariant forall j' | 0 <= j' <= |b| :: prev[j'] == Table(a[..i], b[..j'])
        invariant forall j' | 0 <= j' <= j :: cur[j'] == Table(a[..i + 1], b[..j'])
      {
        assert b[..j + 1][..j] == b[..j];
        cur[j + 1] := if a[i] == b[j] then prev[j] + 1 else Max(cur[j], prev[j + 1]);
      }
      prev, cur := cur, prev;
    }
    assert a[..|a|] == a && b[..|b|] == b;
    n := prev[|b|];
  }

  method PeeledLength(a: seq<nat>, b: seq<nat>) returns (n: nat)
    ensures n == Table(a, b)
  {
    hide Table;
    var lo := 0;
    while lo < |a| && lo < |b| && a[lo] == b[lo]
      invariant lo <= |a| && lo <= |b| && a[..lo] == b[..lo]
    {
      lo := lo + 1;
    }
    var hi := 0;
    while hi < |a| - lo && hi < |b| - lo && a[|a| - 1 - hi] == b[|b| - 1 - hi]
      invariant hi <= |a| - lo && hi <= |b| - lo && a[|a| - hi..] == b[|b| - hi..]
    {
      hi := hi + 1;
    }
    PeelBoth(a, b, lo, hi);
    n := LastEntry(a[lo..|a| - hi], b[lo..|b| - hi]);
    n := lo + hi + n;
  }

  lemma PeelBoth<T(!new)>(a: seq<T>, b: seq<T>, lo: nat, hi: nat)
    requires lo + hi <= |a| && lo + hi <= |b|
    requires a[..lo] == b[..lo] && a[|a| - hi..] == b[|b| - hi..]
    ensures Table(a, b) == lo + hi + Table(a[lo..|a| - hi], b[lo..|b| - hi])
  {
    hide Table;
    PeelPrefix(a, b, lo);
    Behind(a, lo, hi);
    Behind(b, lo, hi);
    PeelSuffix(a[lo..], b[lo..], hi);
  }

  lemma Behind<T>(a: seq<T>, lo: nat, hi: nat)
    requires lo + hi <= |a|
    ensures a[lo..][|a[lo..]| - hi..] == a[|a| - hi..] && a[lo..][..|a[lo..]| - hi] == a[lo..|a| - hi]
  {
  }

  /** The length of a longest common subsequence. */
  method Length<T(==, !new)>(a: seq<T>, b: seq<T>) returns (n: nat)
    ensures IsLongest(a, b, n)
    ensures n == Table(a, b)
  {
    assert Ids<T>(map[]);
    var ia, ids := Intern(a, map[]);
    var ib, ids' := Intern(b, ids);
    assert Interned(ids', a, ia);
    InterningKeeps(ids', a, b, ia, ib);
    n := PeeledLength(ia, ib);
    TableIsLongest(a, b, n);
  }

  // ---- what the score needs of it ----

  lemma {:induction false} Symmetric<T>(a: seq<T>, b: seq<T>)
    ensures Table(a, b) == Table(b, a)
    decreases |a| + |b|
  {
    if a != [] && b != [] {
      Symmetric(a[..|a| - 1], b[..|b| - 1]);
      Symmetric(a[..|a| - 1], b);
      Symmetric(a, b[..|b| - 1]);
    }
  }

  lemma {:induction false} AtMostEither<T>(a: seq<T>, b: seq<T>)
    ensures Table(a, b) <= |a| && Table(a, b) <= |b|
    decreases |a| + |b|
  {
    if a != [] && b != [] {
      AtMostEither(a[..|a| - 1], b[..|b| - 1]);
      AtMostEither(a[..|a| - 1], b);
      AtMostEither(a, b[..|b| - 1]);
    }
  }

  /** Only equal sequences are wholly common. */
  lemma {:induction false} WholeOnlyIfEqual<T>(a: seq<T>, b: seq<T>)
    requires |a| == |b|
    ensures Table(a, b) == |a| <==> a == b
  {
    if a != [] {
      var a', b' := a[..|a| - 1], b[..|b| - 1];
      WholeOnlyIfEqual(a', b');
      AtMostEither(a', b);
      AtMostEither(a, b');
      assert a == a' + [a[|a| - 1]] && b == b' + [b[|b| - 1]];
    }
  }
}
