/** The Shannon-Fano code of a `wpack` member: code intervals, the decoder's lookup tables, and why the
    lookup finds the one symbol whose code word comes next. Symbols are listed longest code first, the order
    in which the decoder numbers them; `lens[k]` is the code length of the k-th of them. */
module ShannonCode {
  import opened Bits

  const NUM_CHARS := 314
  const MAX_CODE_BITS := 16
  const SPACE := 65536

  /** What `shannon_trie` leaves behind for the decode loop. */
  datatype Tables = Tables(minCodeLen: nat, minVal: seq<nat>, mapOffset: seq<nat>, charMap: seq<nat>)

  ghost predicate LongestFirst(lens: seq<nat>) {
    && (forall k | 0 <= k < |lens| :: 1 <= lens[k] <= MAX_CODE_BITS)
    && (forall i, j | 0 <= i < j < |lens| :: lens[j] <= lens[i])
  }

  /** How many 16-bit windows a code word of `len` bits covers. */
  function Size(len: nat): nat
    requires len <= MAX_CODE_BITS
  {
    Pow2(16 - len)
  }

  /** The first window of the k-th symbol: the windows of the symbols before it, added up. */
  ghost function Start(lens: seq<nat>, k: nat): nat
    requires LongestFirst(lens) && k <= |lens|
  {
    if k == 0 then 0 else Start(lens, k - 1) + Size(lens[k - 1])
  }

  /** The Kraft sum, scaled by 2^16. */
  ghost function Kraft(lens: seq<nat>): nat
    requires LongestFirst(lens)
  {
    Start(lens, |lens|)
  }

  ghost predicate Owns(lens: seq<nat>, k: nat, v: nat)
    requires LongestFirst(lens)
  {
    k < |lens| && Start(lens, k) <= v < Start(lens, k + 1)
  }

  ghost predicate Complete(lens: seq<nat>) {
    LongestFirst(lens) && Kraft(lens) == SPACE
  }

  ghost predicate ClassHead(lens: seq<nat>, k: nat)
    requires k < |lens|
  {
    k == 0 || lens[k - 1] != lens[k]
  }

  /** `t` are the tables of the symbols `syms` with code lengths `lens`. */
  ghost predicate HasTables(t: Tables, syms: seq<nat>, lens: seq<nat>) {
    && LongestFirst(lens)
    && 0 < |lens| == |syms| <= NUM_CHARS
    && t.minCodeLen == lens[|lens| - 1]
    && |t.minVal| == |t.mapOffset| == MAX_CODE_BITS + 1
    && |t.charMap| == NUM_CHARS
    && (forall k | 0 <= k < |syms| :: t.charMap[k] == syms[k])
    && (forall k | |syms| <= k < NUM_CHARS :: t.charMap[k] == 0)
    && (forall k {:trigger ClassHead(lens, k)} | 0 <= k < |lens| && ClassHead(lens, k) ::
          t.minVal[lens[k]] == Start(lens, k) % SPACE && t.mapOffset[lens[k]] == k)
    && (forall l | 0 <= l <= MAX_CODE_BITS && l !in lens :: t.minVal[l] == 0xFFFF && t.mapOffset[l] == 0)
  }

  /** The length the decode loop stops at for the window `v`; 17 is the "bad code" exit. */
  function LengthFrom(t: Tables, v: nat, l: nat): nat
    requires |t.minVal| == MAX_CODE_BITS + 1
    decreases 17 - l
  {
    if l > MAX_CODE_BITS then 17
    else if v < t.minVal[l] then LengthFrom(t, v, l + 1)
    else l
  }

  /** The `CharMap` entry the decode loop reads for the window `v` at code length `l`. */
  function Entry(t: Tables, v: nat, l: nat): nat
    requires l <= MAX_CODE_BITS && |t.minVal| == |t.mapOffset| == MAX_CODE_BITS + 1 && t.minVal[l] <= v
  {
    t.mapOffset[l] + Shr(v - t.minVal[l], 16 - l)
  }

  // ---- intervals ----

  lemma {:induction false} StartMonotone(lens: seq<nat>, i: nat, j: nat)
    requires LongestFirst(lens) && i <= j <= |lens|
    ensures Start(lens, i) <= Start(lens, j)
    ensures i < j ==> Start(lens, i) < Start(lens, j)
    decreases j - i
  {
    if i < j {
      StartMonotone(lens, i, j - 1);
    }
  }

  /** No window has two owners. */
  lemma OwnerUnique(lens: seq<nat>, i: nat, j: nat, v: nat)
    requires LongestFirst(lens) && Owns(lens, i, v) && Owns(lens, j, v)
    ensures i == j
  {
    if i < j {
      StartMonotone(lens, i + 1, j);
    } else if j < i {
      StartMonotone(lens, j + 1, i);
    }
  }

  /** Every window below the Kraft sum has an owner. */
  lemma {:induction false} OwnerExists(lens: seq<nat>, v: nat, n: nat) returns (k: nat)
    requires LongestFirst(lens) && n <= |lens| && v < Start(lens, n)
    ensures k < n && Owns(lens, k, v)
  {
    if v < Start(lens, n - 1) {
      k := OwnerExists(lens, v, n - 1);
    } else {
      k := n - 1;
    }
  }

  /** The first symbol of k's length class. */
  ghost function Head(lens: seq<nat>, k: nat): (h: nat)
    requires k < |lens|
    ensures h <= k && lens[h] == lens[k] && ClassHead(lens, h)
  {
    if ClassHead(lens, k) then k else Head(lens, k - 1)
  }

  lemma {:induction false} StartInClass(lens: seq<nat>, k: nat)
    requires LongestFirst(lens) && k < |lens|
    ensures Start(lens, k) == Start(lens, Head(lens, k)) + (k - Head(lens, k)) * Size(lens[k])
  {
    hide Size;
    if !ClassHead(lens, k) {
      StartInClass(lens, k - 1);
      Distribute(k - 1 - Head(lens, k), 1, Size(lens[k]));
    }
  }

  /** The table row of a length some symbol has. */
  lemma HeadRow(t: Tables, syms: seq<nat>, lens: seq<nat>, k: nat)
    requires HasTables(t, syms, lens) && Kraft(lens) <= SPACE && k < |lens|
    ensures t.minVal[lens[k]] == Start(lens, Head(lens, k)) <= Start(lens, k)
    ensures t.mapOffset[lens[k]] == Head(lens, k)
  {
    var h := Head(lens, k);
    StartMonotone(lens, h, k);
    StartMonotone(lens, h, |lens|);
    hide Start, Head, LongestFirst, ClassHead;
  }

  lemma {:induction false} LengthFromFirst(t: Tables, v: nat, l: nat, stop: nat)
    requires |t.minVal| == MAX_CODE_BITS + 1 && l <= stop <= MAX_CODE_BITS
    requires t.minVal[stop] <= v
    requires forall m | l <= m < stop :: v < t.minVal[m]
    ensures LengthFrom(t, v, l) == stop
    decreases stop - l
  {
    if l < stop {
      LengthFromFirst(t, v, l + 1, stop);
    }
  }

  /** The loop never runs past a length whose `MinVal` the window has reached. */
  lemma {:induction false} LengthFromAtMost(t: Tables, v: nat, l: nat, stop: nat)
    requires |t.minVal| == MAX_CODE_BITS + 1 && l <= stop <= MAX_CODE_BITS
    requires t.minVal[stop] <= v
    ensures l <= LengthFrom(t, v, l) <= stop && t.minVal[LengthFrom(t, v, l)] <= v
    decreases stop - l
  {
    if v < t.minVal[l] {
      LengthFromAtMost(t, v, l + 1, stop);
    }
  }

  /** "bad code" cannot be raised, whatever the code lengths: the longest class starts at window 0. */
  lemma NeverBadCode(t: Tables, syms: seq<nat>, lens: seq<nat>, v: nat)
    requires HasTables(t, syms, lens)
    ensures t.minCodeLen <= LengthFrom(t, v, t.minCodeLen) <= MAX_CODE_BITS
    ensures t.minVal[LengthFrom(t, v, t.minCodeLen)] <= v
  {
    assert ClassHead(lens, 0);
    LengthFromAtMost(t, v, t.minCodeLen, lens[0]);
  }

  /** A length shorter than the owner's turns the window away, present or absent. */
  lemma ShorterMisses(t: Tables, syms: seq<nat>, lens: seq<nat>, v: nat, k: nat, m: nat)
    requires HasTables(t, syms, lens) && Kraft(lens) <= SPACE && Owns(lens, k, v)
    requires t.minCodeLen <= m < lens[k]
    ensures v < t.minVal[m]
  {
    if m in lens {
      var j :| 0 <= j < |lens| && lens[j] == m;
      HeadRow(t, syms, lens, j);
      StartMonotone(lens, k + 1, Head(lens, j));
    } else {
      StartMonotone(lens, k + 1, |lens| - 1);
      StartMonotone(lens, |lens| - 1, |lens|);
    }
  }

  lemma RowHas(t: Tables, syms: seq<nat>, lens: seq<nat>, k: nat)
    requires HasTables(t, syms, lens) && k < |lens|
    ensures k < |syms| == |lens| && k < |t.charMap| && t.charMap[k] == syms[k]
    ensures |t.minVal| == |t.mapOffset| == MAX_CODE_BITS + 1
    ensures 1 <= t.minCodeLen <= lens[k] <= MAX_CODE_BITS && t.minCodeLen == lens[|lens| - 1]
  {
  }

  /** The lookup reads the entry of the window's owner; the 0xFFFF of a length no symbol has never stops it. */
  lemma LookupFindsOwner(t: Tables, syms: seq<nat>, lens: seq<nat>, v: nat, k: nat)
    requires HasTables(t, syms, lens) && Kraft(lens) <= SPACE && Owns(lens, k, v)
    ensures LengthFrom(t, v, t.minCodeLen) == lens[k]
    ensures t.minVal[lens[k]] <= v && Entry(t, v, lens[k]) == k
  {
    RowHas(t, syms, lens, k);
    HeadRow(t, syms, lens, k);
    EntryOfOwner(lens, v, k);
    hide HasTables, Owns, LengthFrom;
    forall m | t.minCodeLen <= m < lens[k]
      ensures v < t.minVal[m]
    {
      ShorterMisses(t, syms, lens, v, k, m);
    }
    LengthFromFirst(t, v, t.minCodeLen, lens[k]);
  }

  lemma EntryOfOwner(lens: seq<nat>, v: nat, k: nat)
    requires LongestFirst(lens) && Owns(lens, k, v)
    ensures v >= Start(lens, Head(lens, k))
    ensures Head(lens, k) + Shr(v - Start(lens, Head(lens, k)), 16 - lens[k]) == k
  {
    StartMonotone(lens, Head(lens, k), k);
    StartInClass(lens, k);
    ShrLowAre(v - Start(lens, Head(lens, k)), 16 - lens[k], k - Head(lens, k), v - Start(lens, k));
  }

  /** A window at or above the Kraft sum is read as the shortest length, from an entry no symbol has. */
  lemma LookupPastCode(t: Tables, syms: seq<nat>, lens: seq<nat>, v: nat)
    requires HasTables(t, syms, lens) && Kraft(lens) <= v < SPACE
    ensures LengthFrom(t, v, t.minCodeLen) == t.minCodeLen
    ensures t.minVal[t.minCodeLen] <= v && Entry(t, v, t.minCodeLen) >= |lens|
  {
    HeadRow(t, syms, lens, |lens| - 1);
    LengthFromFirst(t, v, t.minCodeLen, t.minCodeLen);
    EntryPastCode(lens, v);
  }

  lemma EntryPastCode(lens: seq<nat>, v: nat)
    requires LongestFirst(lens) && |lens| > 0 && Kraft(lens) <= v
    ensures var h := Head(lens, |lens| - 1);
            v >= Start(lens, h) && h + Shr(v - Start(lens, h), 16 - lens[|lens| - 1]) >= |lens|
  {
    var n := |lens|;
    var h := Head(lens, n - 1);
    KraftFromHead(lens);
    hide Pow2, Shr, Head, Start, LongestFirst;
    ShrAtLeast(v - Start(lens, h), 16 - lens[n - 1], n - h);
  }

  lemma ShrAtLeast(x: nat, m: nat, q: nat)
    requires x >= q * Pow2(m)
    ensures Shr(x, m) >= q
  {
    ShrLow(x, m);
    LowBound(x, m);
    if Shr(x, m) < q {
      Distribute(q, Shr(x, m), Pow2(m));
      MulAtLeast(q - Shr(x, m), Pow2(m));
    }
  }

  /** For a code that is not over-subscribed, every window is decoded to an assigned symbol exactly when
      the Kraft sum is full. */
  lemma AssignedIffComplete(t: Tables, syms: seq<nat>, lens: seq<nat>)
    requires HasTables(t, syms, lens) && Kraft(lens) <= SPACE
    ensures Complete(lens) <==>
            forall v: nat | v < SPACE ::
              var l := LengthFrom(t, v, t.minCodeLen);
              l <= MAX_CODE_BITS && t.minVal[l] <= v && Entry(t, v, l) < |lens|
  {
    if Complete(lens) {
      forall v: nat | v < SPACE
        ensures var l := LengthFrom(t, v, t.minCodeLen);
                l <= MAX_CODE_BITS && t.minVal[l] <= v && Entry(t, v, l) < |lens|
      {
        var k := OwnerExists(lens, v, |lens|);
        LookupFindsOwner(t, syms, lens, v, k);
      }
    } else {
      var v := Kraft(lens);
      LookupPastCode(t, syms, lens, v);
      assert LengthFrom(t, v, t.minCodeLen) == t.minCodeLen;
    }
  }

  /** The window `v` reads an entry past the end of the list. */
  predicate ReadsPast(t: Tables, v: nat)
    requires |t.minVal| == |t.mapOffset| == MAX_CODE_BITS + 1
  {
    var l := LengthFrom(t, v, t.minCodeLen);
    l <= MAX_CODE_BITS && t.minVal[l] <= v && Entry(t, v, l) >= NUM_CHARS
  }

  /** The last window does, at the shortest length. */
  predicate Overruns(t: Tables)
    requires |t.minVal| == |t.mapOffset| == MAX_CODE_BITS + 1
  {
    var l := t.minCodeLen;
    l <= MAX_CODE_BITS && t.minVal[l] <= SPACE - 1 && Entry(t, SPACE - 1, l) >= NUM_CHARS
  }

  lemma {:induction false} ShrMonotone(x: nat, y: nat, n: nat)
    requires x <= y
    ensures Shr(x, n) <= Shr(y, n)
  {
    if n > 0 {
      ShrMonotone(x / 2, y / 2, n - 1);
    }
  }

  lemma PastIsOverrun(t: Tables, syms: seq<nat>, lens: seq<nat>, v: nat)
    requires HasTables(t, syms, lens) && Kraft(lens) <= SPACE && v < SPACE && ReadsPast(t, v)
    ensures Overruns(t)
  {
    if v < Kraft(lens) {
      var k := OwnerExists(lens, v, |lens|);
      LookupFindsOwner(t, syms, lens, v, k);
    } else {
      LookupPastCode(t, syms, lens, v);
      var l := t.minCodeLen;
      ShrMonotone(v - t.minVal[l], SPACE - 1 - t.minVal[l], 16 - l);
    }
  }

  /** A code within the space sends some window past the end of the list exactly when it sends the last one there. */
  lemma PastIffOverruns(t: Tables, syms: seq<nat>, lens: seq<nat>)
    requires HasTables(t, syms, lens) && Kraft(lens) <= SPACE
    ensures (exists v: nat :: v < SPACE && ReadsPast(t, v)) <==> Overruns(t)
  {
    RowHas(t, syms, lens, 0);
    hide HasTables, Entry;
    if v: nat :| v < SPACE && ReadsPast(t, v) {
      PastIsOverrun(t, syms, lens, v);
    }
    if Overruns(t) {
      assert ReadsPast(t, SPACE - 1);
    }
  }

  lemma CompleteNeverOverruns(t: Tables, syms: seq<nat>, lens: seq<nat>)
    requires HasTables(t, syms, lens) && Complete(lens)
    ensures !Overruns(t)
  {
    RowHas(t, syms, lens, |lens| - 1);
    var k := OwnerExists(lens, SPACE - 1, |lens|);
    LookupFindsOwner(t, syms, lens, SPACE - 1, k);
    hide HasTables, Entry, Owns;
    if t.minVal[t.minCodeLen] < SPACE {
      LengthFromFirst(t, SPACE - 1, t.minCodeLen, t.minCodeLen);
    }
  }

  /** In code lengths: the windows left over, counted in the shortest length's size, reach past the list. */
  lemma OverrunsIffRoom(t: Tables, syms: seq<nat>, lens: seq<nat>)
    requires HasTables(t, syms, lens) && Kraft(lens) <= SPACE
    ensures Overruns(t) <==>
            Kraft(lens) < SPACE && |lens| + Shr(SPACE - 1 - Kraft(lens), 16 - lens[|lens| - 1]) >= NUM_CHARS
  {
    hide Head, Shr, Start;
    var n := |lens|;
    RowHas(t, syms, lens, n - 1);
    HeadRow(t, syms, lens, n - 1);
    hide HasTables;
    if Kraft(lens) == SPACE {
      CompleteNeverOverruns(t, syms, lens);
    } else {
      EntryOfLast(lens);
    }
  }

  /** Above the code the entries go on, one for each size of the shortest length. */
  lemma EntryOfLast(lens: seq<nat>)
    requires LongestFirst(lens) && |lens| > 0 && Kraft(lens) < SPACE
    ensures var n := |lens|;
            var h := Head(lens, n - 1);
            Start(lens, h) < SPACE
            && h + Shr(SPACE - 1 - Start(lens, h), 16 - lens[n - 1]) == n + Shr(SPACE - 1 - Kraft(lens), 16 - lens[n - 1])
  {
    var n := |lens|;
    var h, m := Head(lens, n - 1), 16 - lens[n - 1];
    KraftFromHead(lens);
    hide Pow2, Shr, Head, Start, LongestFirst;
    ShrPlus(SPACE - 1 - Start(lens, h), n - h, SPACE - 1 - Kraft(lens), m);
  }

  lemma KraftFromHead(lens: seq<nat>)
    requires LongestFirst(lens) && |lens| > 0
    ensures var h := Head(lens, |lens| - 1);
            Start(lens, h) + (|lens| - h) * Pow2(16 - lens[|lens| - 1]) == Kraft(lens) >= Start(lens, h)
  {
    var n := |lens|;
    var h := Head(lens, n - 1);
    StartInClass(lens, n - 1);
    StartMonotone(lens, h, n);
    assert Start(lens, n) == Start(lens, n - 1) + Size(lens[n - 1]);
    hide Pow2, Head, Start, LongestFirst;
    Distribute(n - 1 - h, 1, Pow2(16 - lens[n - 1]));
  }

  lemma ShrPlus(y: nat, q: nat, x: nat, m: nat)
    requires y == q * Pow2(m) + x
    ensures Shr(y, m) == q + Shr(x, m)
  {
    hide Pow2, Shr, Low;
    ShrLow(x, m);
    LowBound(x, m);
    Distribute(q, Shr(x, m), Pow2(m));
    ShrLowAre(y, m, q + Shr(x, m), Low(x, m));
  }

  /** The order of the symbols inside a length class does not change which bits a symbol takes. */
  lemma TieOrderKeepsLengths(t: Tables, syms: seq<nat>, t': Tables, syms': seq<nat>, lens: seq<nat>, v: nat)
    requires HasTables(t, syms, lens) && HasTables(t', syms', lens)
    ensures LengthFrom(t, v, t.minCodeLen) == LengthFrom(t', v, t'.minCodeLen)
    ensures var l := LengthFrom(t, v, t.minCodeLen);
            l <= MAX_CODE_BITS && t.minVal[l] <= v && t'.minVal[l] <= v && Entry(t, v, l) == Entry(t', v, l)
  {
    forall l: nat | l <= MAX_CODE_BITS
      ensures t.minVal[l] == t'.minVal[l] && t.mapOffset[l] == t'.mapOffset[l]
    {
      SameRow(t, syms, t', syms', lens, l);
    }
    assert t.minVal == t'.minVal && t.mapOffset == t'.mapOffset;
    NeverBadCode(t, syms, lens, v);
    RowHas(t, syms, lens, 0);
    RowHas(t', syms', lens, 0);
    hide HasTables, LengthFrom, Shr;
    SameLength(t, t', v, t.minCodeLen);
  }

  lemma SameRow(t: Tables, syms: seq<nat>, t': Tables, syms': seq<nat>, lens: seq<nat>, l: nat)
    requires HasTables(t, syms, lens) && HasTables(t', syms', lens) && l <= MAX_CODE_BITS
    ensures t.minVal[l] == t'.minVal[l] && t.mapOffset[l] == t'.mapOffset[l]
  {
    if l in lens {
      var j :| 0 <= j < |lens| && lens[j] == l;
      assert t.minVal[lens[Head(lens, j)]] == t'.minVal[lens[Head(lens, j)]];
    }
  }

  lemma {:induction false} SameLength(t: Tables, t': Tables, v: nat, l: nat)
    requires |t.minVal| == MAX_CODE_BITS + 1 && t.minVal == t'.minVal
    ensures LengthFrom(t, v, l) == LengthFrom(t', v, l)
    decreases 17 - l
  {
    if l <= MAX_CODE_BITS {
      SameLength(t, t', v, l + 1);
    }
  }
}
