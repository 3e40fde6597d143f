/** The run-length coded table of code lengths at the head of a `wpack` member. */
module CodeLengths {
  import opened Bits
  import opened BitStream
  import opened ShannonCode

  function Repeat(n: nat, x: nat): (r: seq<nat>)
    ensures |r| == n && forall i | 0 <= i < n :: r[i] == x
  {
    if n == 0 then [] else Repeat(n - 1, x) + [x]
  }

  /** What one entry byte stands for: a run of symbols without a code, or a run of equal code lengths. */
  function Entries(e: byte): seq<nat> {
    if e >= 128 then Repeat(e % 128 + 1, 0) else Repeat(e / 16 + 1, e % 16 + 1)
  }

  /** The code lengths of symbol 0, 1, ... that the `n` entries from byte `at` on spell; 0 is "no code". */
  function Flatten(data: seq<byte>, at: nat, n: nat): seq<nat> {
    if n == 0 then [] else Flatten(data, at, n - 1) + Entries(ByteAt(data, at + n - 1))
  }

  /** The whole table of a member that starts at byte `at`: an entry count less one, then the entries. */
  function Lengths(data: seq<byte>, at: nat): seq<nat> {
    Flatten(data, at + 1, ByteAt(data, at) + 1)
  }

  function TableEnd(data: seq<byte>, at: nat): nat {
    at + 2 + ByteAt(data, at)
  }

  /** The symbols with a code, in order. */
  function Coded(flat: seq<nat>): (r: seq<nat>)
    ensures forall s :: s in r <==> 0 <= s < |flat| && flat[s] != 0
    ensures |r| <= |flat|
  {
    if flat == [] then []
    else Coded(flat[..|flat| - 1]) + (if flat[|flat| - 1] != 0 then [|flat| - 1] else [])
  }

  /** A table the decoder accepts: some symbol has a code, and no symbol past the alphabet has one. */
  predicate Usable(flat: seq<nat>) {
    && (exists s :: 0 <= s < |flat| && flat[s] != 0)
    && (forall s | NUM_CHARS <= s < |flat| :: flat[s] == 0)
  }

  /** The alphabet in numbers: 256 bytes and 58 lengths of a match. */
  lemma UsableIs(flat: seq<nat>)
    ensures Usable(flat) <==> (exists s :: 0 <= s < |flat| && flat[s] != 0) && forall s | 314 <= s < |flat| :: flat[s] == 0
  {
  }

  /** `order` is the answer of a sort of `idx` by code length; how it breaks ties is the sort's own affair. */
  ghost predicate SortedByLength(order: seq<nat>, idx: seq<nat>, flat: seq<nat>) {
    && multiset(order) == multiset(idx)
    && (forall i | 0 <= i < |order| :: order[i] < |flat|)
    && (forall i, j | 0 <= i < j < |order| :: flat[order[i]] <= flat[order[j]])
  }

  /** The symbols of a code in the order they are numbered, and their lengths in that order. */
  function Numbered(order: seq<nat>): (r: seq<nat>)
    ensures |r| == |order| && forall k | 0 <= k < |r| :: r[k] == order[|order| - 1 - k]
  {
    seq(|order|, k requires 0 <= k < |order| => order[|order| - 1 - k])
  }

  ghost function LensOf(syms: seq<nat>, flat: seq<nat>): (r: seq<nat>)
    requires forall k | 0 <= k < |syms| :: syms[k] < |flat|
    ensures |r| == |syms| && forall k | 0 <= k < |r| :: r[k] == flat[syms[k]]
  {
    seq(|syms|, k requires 0 <= k < |syms| => flat[syms[k]])
  }

  lemma {:induction false} FlattenBounds(data: seq<byte>, at: nat, n: nat)
    ensures forall s | 0 <= s < |Flatten(data, at, n)| :: Flatten(data, at, n)[s] <= MAX_CODE_BITS
  {
    hide Entries, ByteAt;
    if n > 0 {
      FlattenBounds(data, at, n - 1);
      EntryBounds(ByteAt(data, at + n - 1));
    }
  }

  lemma EntryBounds(e: byte)
    ensures forall s | 0 <= s < |Entries(e)| :: Entries(e)[s] <= MAX_CODE_BITS
  {
    hide Repeat;
  }

  /** Distinct symbols below 314, so that a permutation of them fits the 314-entry map. */
  lemma {:induction false} CodedBelow(flat: seq<nat>, bound: nat)
    requires forall s | bound <= s < |flat| :: flat[s] == 0
    ensures |Coded(flat)| <= bound
  {
    if |flat| > bound {
      CodedBelow(flat[..|flat| - 1], bound);
    }
  }

  lemma SortedElements(order: seq<nat>, idx: seq<nat>, flat: seq<nat>)
    requires SortedByLength(order, idx, flat)
    ensures |order| == |idx|
    ensures forall i | 0 <= i < |order| :: order[i] in idx
  {
    assert |multiset(order)| == |multiset(idx)|;
    forall i | 0 <= i < |order|
      ensures order[i] in idx
    {
      assert order[i] in multiset(order);
    }
  }

  /** A sorted order of a usable table, read backwards, is a code with the longest words first. */
  lemma NumberedIsCode(data: seq<byte>, at: nat, order: seq<nat>)
    requires Usable(Lengths(data, at))
    requires SortedByLength(order, Coded(Lengths(data, at)), Lengths(data, at))
    ensures var flat := Lengths(data, at);
            var syms := Numbered(order);
            && 0 < |syms| <= NUM_CHARS
            && (forall k | 0 <= k < |syms| :: syms[k] < |flat| && syms[k] < NUM_CHARS)
            && LongestFirst(LensOf(syms, flat))
  {
    FlattenBounds(data, at + 1, ByteAt(data, at) + 1);
    SortedIsCode(order, Lengths(data, at));
  }

  lemma SortedIsCode(order: seq<nat>, flat: seq<nat>)
    requires Usable(flat) && SortedByLength(order, Coded(flat), flat)
    requires forall s | 0 <= s < |flat| :: flat[s] <= MAX_CODE_BITS
    ensures var syms := Numbered(order);
            && 0 < |syms| <= NUM_CHARS
            && (forall k | 0 <= k < |syms| :: syms[k] < |flat| && syms[k] < NUM_CHARS)
            && LongestFirst(LensOf(syms, flat))
  {
    var idx := Coded(flat);
    CodedBelow(flat, NUM_CHARS);
    SortedElements(order, idx, flat);
    var s0 :| 0 <= s0 < |flat| && flat[s0] != 0;
    assert s0 in idx;
    var syms := Numbered(order);
    forall k | 0 <= k < |syms|
      ensures syms[k] < NUM_CHARS && 1 <= flat[syms[k]] <= MAX_CODE_BITS
    {
      assert order[|order| - 1 - k] in idx;
    }
  }

  /** Every run of up to eight equal lengths from 1 to 16 has its entry, and so has every gap of up to 128 symbols. */
  lemma EntrySpells(n: nat, l: nat)
    ensures 1 <= n <= 8 && 1 <= l <= 16 ==> Entries(16 * (n - 1) + l - 1) == seq(n, _ => l)
    ensures 1 <= n <= 128 ==> Entries(128 + n - 1) == seq(n, _ => 0)
  {
    hide Repeat;
  }

  // ---- how the table grows, entry by entry and symbol by symbol ----

  lemma {:induction false} FlattenPrefix(data: seq<byte>, at: nat, m: nat, n: nat)
    requires m <= n
    ensures Flatten(data, at, m) <= Flatten(data, at, n)
    decreases n
  {
    hide Entries, ByteAt;
    if m < n {
      FlattenPrefix(data, at, m, n - 1);
    }
  }

  lemma FlattenNext(data: seq<byte>, at: nat, n: nat)
    ensures Flatten(data, at, 0) == []
    ensures Flatten(data, at, n + 1) == Flatten(data, at, n) + Entries(ByteAt(data, at + n))
  {
  }

  lemma CodedPush(flat: seq<nat>, x: nat)
    ensures Coded([]) == [] && Coded(flat + [x]) == Coded(flat) + (if x != 0 then [|flat|] else [])
  {
    assert (flat + [x])[..|flat|] == flat;
  }

  lemma {:induction false} CodedSkip(flat: seq<nat>, n: nat)
    ensures Coded(flat + Repeat(n, 0)) == Coded(flat)
  {
    hide Coded;
    if n == 0 {
      assert flat + Repeat(n, 0) == flat;
    } else {
      CodedSkip(flat, n - 1);
      CodedPush(flat + Repeat(n - 1, 0), 0);
      assert flat + Repeat(n, 0) == flat + Repeat(n - 1, 0) + [0];
    }
  }

  lemma {:induction false} CodedEmpty(flat: seq<nat>)
    ensures Coded(flat) == [] <==> forall s | 0 <= s < |flat| :: flat[s] == 0
  {
    assert forall s: nat :: s in Coded(flat) <==> 0 <= s < |flat| && flat[s] != 0;
    if Coded(flat) != [] {
      assert Coded(flat)[0] in Coded(flat);
    }
  }
}
