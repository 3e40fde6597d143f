/** The code words of a Shannon-Fano code: when the windows of a symbol are those that start with its code word,
    and why the lookup then reads the word that stands in the stream. */
module CodeWords {
  import opened Bits
  import opened BitStream
  import opened ShannonCode

  /** The `lens[k]` bits that stand for the k-th symbol. */
  ghost function CodeWord(lens: seq<nat>, k: nat): nat
    requires LongestFirst(lens) && k < |lens|
  {
    Shr(Start(lens, k), 16 - lens[k])
  }

  lemma SizeTimes(a: nat, b: nat)
    requires a <= b <= MAX_CODE_BITS
    ensures Size(a) == Pow2(b - a) * Size(b)
  {
    Pow2Add(b - a, 16 - b);
  }

  /** What a complete code leaves above a symbol is a multiple of the symbol's own size. */
  lemma {:induction false} RoomAbove(lens: seq<nat>, k: nat, j: nat) returns (q: nat)
    requires Complete(lens) && k <= j <= |lens| && k < |lens|
    ensures Start(lens, j) + q * Size(lens[k]) == SPACE
    decreases |lens| - j
  {
    if j == |lens| {
      q := 0;
    } else {
      var q' := RoomAbove(lens, k, j + 1);
      SizeTimes(lens[j], lens[k]);
      q := q' + Pow2(lens[k] - lens[j]);
      Distribute(q', Pow2(lens[k] - lens[j]), Size(lens[k]));
    }
  }

  lemma StartAligned(lens: seq<nat>, k: nat)
    requires Complete(lens) && k < |lens|
    ensures Start(lens, k) == CodeWord(lens, k) * Size(lens[k])
  {
    var q := RoomAbove(lens, k, k);
    SizeTimes(0, lens[k]);
    Pow2Values();
    var c := Quotient(Pow2(lens[k]), q, Size(lens[k]), Start(lens, k));
    ShrLowAre(Start(lens, k), 16 - lens[k], c, 0);
  }

  lemma Quotient(w: nat, q: nat, s: nat, x: nat) returns (c: nat)
    requires s > 0 && w * s == x + q * s
    ensures x == c * s
  {
    Distribute(w, q, s);
    if w < q {
      Distribute(q, w, s);
      MulAtLeast(q - w, s);
    }
    c := w - q;
  }

  /** The code word of the k-th symbol stands at bit `pos`. */
  ghost predicate SymbolAt(data: seq<byte>, pos: nat, lens: seq<nat>, k: nat)
    requires LongestFirst(lens)
  {
    k < |lens| && BitsAt(data, pos, lens[k]) == CodeWord(lens, k)
  }

  ghost predicate BeginsAligned(lens: seq<nat>, k: nat)
    requires LongestFirst(lens) && k < |lens|
  {
    Low(Start(lens, k), 16 - lens[k]) == 0
  }

  /** A code within the space all of whose intervals begin at a multiple of their size. Every complete code is
      one, and so are codes that leave windows unused, such as that of a single symbol. */
  ghost predicate Aligned(lens: seq<nat>) {
    && LongestFirst(lens) && Kraft(lens) <= SPACE
    && forall k | 0 <= k < |lens| :: BeginsAligned(lens, k)
  }

  lemma CompleteIsAligned(lens: seq<nat>)
    requires Complete(lens)
    ensures Aligned(lens)
  {
    forall k | 0 <= k < |lens|
      ensures BeginsAligned(lens, k)
    {
      StartAligned(lens, k);
      ShrLow(Start(lens, k), 16 - lens[k]);
    }
  }

  /** The code of one symbol, of one bit. */
  lemma LoneSymbolIsAligned()
    ensures Aligned([1]) && !Complete([1])
  {
    hide Pow2, Low;
    assert Start([1], 0) == 0 && Kraft([1]) == Size(1);
    LowOfZero(15);
    Pow2Half();
    assert forall k | 0 <= k < 1 :: BeginsAligned([1], k);
  }

  lemma LowOfZero(n: nat)
    ensures Low(0, n) == 0
  {
  }

  lemma Pow2Half()
    ensures 2 * Pow2(15) == SPACE
  {
    Pow2Values();
  }

  lemma AlignedAt(lens: seq<nat>, k: nat)
    requires Aligned(lens) && k < |lens|
    ensures LongestFirst(lens) && BeginsAligned(lens, k)
  {
  }

  lemma AlignedFits(lens: seq<nat>)
    requires Aligned(lens)
    ensures LongestFirst(lens) && Kraft(lens) <= SPACE
  {
  }

  /** An aligned interval is the set of windows with one prefix. */
  lemma OwnsIffPrefix(lens: seq<nat>, k: nat, v: nat)
    requires LongestFirst(lens) && k < |lens| && BeginsAligned(lens, k)
    ensures Owns(lens, k, v) <==> Shr(v, 16 - lens[k]) == CodeWord(lens, k)
  {
    var s, c := Size(lens[k]), CodeWord(lens, k);
    ShrLow(Start(lens, k), 16 - lens[k]);
    ShrLow(v, 16 - lens[k]);
    LowBound(v, 16 - lens[k]);
    if Owns(lens, k, v) {
      SplitUnique(Shr(v, 16 - lens[k]), Low(v, 16 - lens[k]), c, v - c * s, s);
    }
  }

  /** A code is aligned exactly when every interval is the set of windows that start with its code word: the codes
      the decoder reads as codes. */
  lemma AlignedIffPrefixes(lens: seq<nat>)
    requires LongestFirst(lens) && Kraft(lens) <= SPACE
    ensures Aligned(lens) <==>
            forall k: nat, v: nat | k < |lens| :: Owns(lens, k, v) <==> Shr(v, 16 - lens[k]) == CodeWord(lens, k)
  {
    hide BeginsAligned, Owns, CodeWord, Start, Shr;
    if Aligned(lens) {
      forall k: nat, v: nat | k < |lens|
        ensures Owns(lens, k, v) <==> Shr(v, 16 - lens[k]) == CodeWord(lens, k)
      {
        AlignedAt(lens, k);
        OwnsIffPrefix(lens, k, v);
      }
    } else {
      var k: nat :| k < |lens| && !BeginsAligned(lens, k);
      var v := StrayPrefix(lens, k);
    }
  }

  /** The first window with the code word of an interval that does not begin there. */
  lemma StrayPrefix(lens: seq<nat>, k: nat) returns (v: nat)
    requires LongestFirst(lens) && k < |lens| && !BeginsAligned(lens, k)
    ensures Shr(v, 16 - lens[k]) == CodeWord(lens, k) && !Owns(lens, k, v)
  {
    hide Pow2, Shr, Low, Start;
    v := CodeWord(lens, k) * Size(lens[k]);
    ShrLow(Start(lens, k), 16 - lens[k]);
    ShrLowAre(v, 16 - lens[k], CodeWord(lens, k), 0);
  }

  /** A symbol owns a window exactly when the window starts with the symbol's code word. */
  lemma OwnsIffWord(data: seq<byte>, pos: nat, lens: seq<nat>, k: nat)
    requires Aligned(lens) && LongestFirst(lens) && k < |lens|
    ensures SymbolAt(data, pos, lens, k) <==> Owns(lens, k, BitsAt(data, pos, 16))
  {
    hide Aligned, CodeWord, Owns, BitsAt, Shr, Pow2;
    var l := lens[k];
    AlignedAt(lens, k);
    OwnsIffPrefix(lens, k, BitsAt(data, pos, 16));
    BitsAtSplit(data, pos, l, 16 - l);
    BitsAtBound(data, pos + l, 16 - l);
    ShrLowAre(BitsAt(data, pos, 16), 16 - l, BitsAt(data, pos, l), BitsAt(data, pos + l, 16 - l));
  }

  /** Where the code word of a symbol stands, no other one does, and the lookup of the next 16 bits reads that
      symbol and its length. */
  lemma LookupReadsWord(t: Tables, syms: seq<nat>, lens: seq<nat>, data: seq<byte>, pos: nat, k: nat)
    requires HasTables(t, syms, lens) && Aligned(lens) && LongestFirst(lens) && SymbolAt(data, pos, lens, k)
    ensures forall j: nat | SymbolAt(data, pos, lens, j) :: j == k
    ensures var v := BitsAt(data, pos, 16);
            var l := LengthFrom(t, v, t.minCodeLen);
            l == lens[k] && t.minVal[l] <= v && Entry(t, v, l) == k && t.charMap[k] == syms[k]
  {
    hide HasTables, Aligned, LengthFrom, Entry;
    var v := BitsAt(data, pos, 16);
    AlignedFits(lens);
    OwnsIffWord(data, pos, lens, k);
    LookupFindsOwner(t, syms, lens, v, k);
    RowHas(t, syms, lens, k);
    forall j: nat | SymbolAt(data, pos, lens, j)
      ensures j == k
    {
      OwnsIffWord(data, pos, lens, j);
      OwnerUnique(lens, j, k, v);
    }
  }

  /** At every bit of every stream a complete code has exactly one symbol, and the decoder's lookup of the
      next 16 bits reads that symbol and its length. */
  lemma DecodesTheSymbol(t: Tables, syms: seq<nat>, lens: seq<nat>, data: seq<byte>, pos: nat) returns (k: nat)
    requires HasTables(t, syms, lens) && Complete(lens)
    ensures SymbolAt(data, pos, lens, k)
    ensures forall j: nat | SymbolAt(data, pos, lens, j) :: j == k
    ensures var v := BitsAt(data, pos, 16);
            var l := LengthFrom(t, v, t.minCodeLen);
            l == lens[k] && t.minVal[l] <= v && Entry(t, v, l) == k && t.charMap[k] == syms[k]
  {
    var v := BitsAt(data, pos, 16);
    BitsAtBound(data, pos, 16);
    Pow2Values();
    CompleteIsAligned(lens);
    hide Aligned, HasTables, LengthFrom, Entry;
    RowHas(t, syms, lens, 0);
    k := OwnerExists(lens, v, |lens|);
    OwnsIffWord(data, pos, lens, k);
    LookupReadsWord(t, syms, lens, data, pos, k);
  }
}
