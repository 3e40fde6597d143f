/** The codes that are decoded right are exactly the aligned ones: of any other, some token is encoded as bits that
    the decoder reads as another token. */
module AlignedCodes {
  import opened Wrappers
  import opened Bits
  import opened BitStream
  import opened ShannonCode
  import opened CodeWords
  import opened PositionCode
  import opened Lzss
  import opened WpackStream
  import opened WpackEncode
  import CodeLengths

  /** No symbol has two numbers. */
  ghost predicate NumberedOnce(syms: seq<nat>) {
    forall i, j | 0 <= i < j < |syms| :: syms[i] != syms[j]
  }

  lemma OneMore(front: seq<nat>, last: nat, x: nat)
    requires multiset(CodeLengths.Coded(front))[x] <= 1
    ensures multiset(CodeLengths.Coded(front + [last]))[x] <= 1
  {
    hide CodeLengths.Coded;
    var s := CodeLengths.Coded(front);
    CodeLengths.CodedPush(front, last);
    assert |front| !in s && |front| !in multiset(s);
    assert last == 0 ==> s + [] == s;
  }

  lemma {:induction false} CodedOnce(flat: seq<nat>, x: nat)
    ensures multiset(CodeLengths.Coded(flat))[x] <= 1
  {
    hide CodeLengths.Coded;
    if flat == [] {
      CodeLengths.CodedPush([], 0);
    } else {
      var front, last := flat[..|flat| - 1], flat[|flat| - 1];
      CodedOnce(front, x);
      OneMore(front, last, x);
      assert flat == front + [last];
    }
  }

  lemma StandsTwice(s: seq<nat>, i: nat, j: nat)
    requires i < j < |s| && s[i] == s[j]
    ensures multiset(s)[s[i]] >= 2
  {
    assert s == s[..j] + s[j..];
    assert s[..j][i] == s[i] && s[j..][0] == s[j];
    assert s[i] in multiset(s[..j]) && s[j] in multiset(s[j..]);
  }

  /** As those of every table are, in whatever order they were sorted. */
  lemma TableNumbersOnce(order: seq<nat>, flat: seq<nat>)
    requires CodeLengths.SortedByLength(order, CodeLengths.Coded(flat), flat)
    ensures NumberedOnce(CodeLengths.Numbered(order))
  {
    hide CodeLengths.Coded;
    var syms := CodeLengths.Numbered(order);
    forall i, j | 0 <= i < j < |syms|
      ensures syms[i] != syms[j]
    {
      CodedOnce(flat, syms[i]);
      if syms[i] == syms[j] {
        StandsTwice(order, |order| - 1 - j, |order| - 1 - i);
      }
    }
  }

  /** Encoded tokens are read back as they were, whatever stands before and after. */
  ghost predicate ReadBack(t: Tables, syms: seq<nat>, lens: seq<nat>, toks: seq<Token>, head: seq<byte>, tail: seq<byte>)
    requires Shaped(t) && LongestFirst(lens) && |syms| == |lens|
    requires forall i | 0 <= i < |toks| :: Encodable(toks[i], syms)
  {
    Tokens(t, head + Pack(Encode(toks, syms, lens)) + tail, 8 * |head|, TotalSize(toks)) == Ok(toks)
  }

  // ---- an aligned code ----

  lemma {:induction false} WholePrefix(a: seq<Token>, b: seq<Token>)
    requires a <= b && AllValid(b) && TotalSize(a) >= TotalSize(b)
    ensures a == b
    decreases a
  {
    if b != [] {
      assert ValidToken(b[0]);
      if a != [] {
        assert a[1..] <= b[1..];
        WholePrefix(a[1..], b[1..]);
        assert a == [a[0]] + a[1..] && b == [b[0]] + b[1..];
      }
    }
  }

  lemma AlignedReadsBack(t: Tables, syms: seq<nat>, lens: seq<nat>, toks: seq<Token>, head: seq<byte>, tail: seq<byte>)
    requires Shaped(t) && HasTables(t, syms, lens) && LongestFirst(lens) && Aligned(lens) && |syms| == |lens|
    requires forall i | 0 <= i < |toks| :: Encodable(toks[i], syms)
    ensures ReadBack(t, syms, lens, toks, head, tail)
  {
    hide HasTables, Aligned, LongestFirst, Shaped, Stands, Pack, Encode, ReadsFrom, TotalSize, Encodable, Tokens, AllValid;
    var bits, pos := Encode(toks, syms, lens), 8 * |head|;
    var data := head + Pack(bits) + tail;
    PackedStands(head, bits, tail);
    EncodedReadsBack(data, pos, syms, lens, toks);
    SpelledTokensValid(data, pos, syms, lens, toks);
    TokensArePrefix(t, syms, lens, data, pos, TotalSize(toks), toks);
    TokensSuffice(t, data, pos, TotalSize(toks));
    WholePrefix(Tokens(t, data, pos, TotalSize(toks)).value, toks);
  }

  // ---- any other code ----

  /** What is packed goes on with zeros. */
  lemma PackedBit(bits: seq<bool>, i: nat)
    ensures StreamBit(Pack(bits), i) == (i < |bits| && bits[i])
  {
    var q, j := i / 8, i % 8;
    if q < |Pack(bits)| {
      ValueBit(bits[8 * q..], 8, 7 - j);
    } else {
      ZeroBit(7 - j);
    }
  }

  lemma {:induction false} ZerosRead(data: seq<byte>, pos: nat, n: nat)
    requires forall i: nat | pos <= i < pos + n :: !StreamBit(data, i)
    ensures BitsAt(data, pos, n) == 0
  {
    hide StreamBit;
    if n > 0 {
      ZerosRead(data, pos, n - 1);
    }
  }

  /** A token of the symbol `c`, whose position, if it has one, is spelled by zeros. */
  function TokenOf(c: nat): (tok: Token)
    ensures ValidToken(tok) && TokenSymbol(tok) == c
  {
    if c < 256 then Literal(c) else Copy(c - 256 + THRESHOLD + 1, 1)
  }

  lemma {:induction false} ZeroWord(n: nat)
    ensures forall i | 0 <= i < n :: !WordBits(0, n)[i]
  {
    if n > 0 {
      ZeroWord(n - 1);
    }
  }

  lemma PositionOfZeros(c: nat)
    ensures forall i | 0 <= i < |PositionBits(TokenOf(c))| :: !PositionBits(TokenOf(c))[i]
  {
    assert Word(0) == 0;
    ZeroWord(WordLen(0));
    ZeroWord(6);
  }

  lemma WordThenZeros(v: nat, n: nat, rest: seq<bool>)
    requires v < Pow2(n) && n <= 16 && forall i | 0 <= i < |rest| :: !rest[i]
    ensures BitsAt(Pack(WordBits(v, n) + rest), 0, 16) == v * Pow2(16 - n)
  {
    hide Pack, BitsAt, StreamBit, WordBits, Pow2;
    var word := WordBits(v, n);
    var data := Pack(word + rest);
    forall i: nat
      ensures i < n ==> StreamBit(data, i) == word[i]
      ensures i >= n ==> !StreamBit(data, i)
    {
      PackedBit(word + rest, i);
    }
    WordRead(data, 0, v, n);
    ZerosRead(data, n, 16 - n);
    BitsAtSplit(data, 0, n, 16 - n);
  }

  /** The code word of the k-th symbol, and zeros: the first window with that word. */
  lemma LoneWord(syms: seq<nat>, lens: seq<nat>, k: nat)
    requires LongestFirst(lens) && Kraft(lens) <= SPACE && NumberedOnce(syms) && k < |syms| == |lens|
    ensures Encodable(TokenOf(syms[k]), syms)
    ensures BitsAt(Pack(Encode([TokenOf(syms[k])], syms, lens)), 0, 16) == CodeWord(lens, k) * Size(lens[k])
  {
    hide Pack, BitsAt, CodeWord, WordBits, PositionBits, TokenOf, Pow2, Encode;
    OneEncoded(syms, lens, k);
    CodeWordFits(lens, k);
    PositionOfZeros(syms[k]);
    WordThenZeros(CodeWord(lens, k), lens[k], PositionBits(TokenOf(syms[k])));
  }

  lemma OneEncoded(syms: seq<nat>, lens: seq<nat>, k: nat)
    requires LongestFirst(lens) && NumberedOnce(syms) && k < |syms| == |lens|
    ensures Encodable(TokenOf(syms[k]), syms)
    ensures Encode([TokenOf(syms[k])], syms, lens)
            == WordBits(CodeWord(lens, k), lens[k]) + PositionBits(TokenOf(syms[k]))
  {
    hide WordBits, PositionBits, CodeWord, TokenOf, LongestFirst;
    var tok := TokenOf(syms[k]);
    var j :| 0 <= j < |syms| && syms[j] == TokenSymbol(tok)
             && EncodeToken(tok, syms, lens) == WordBits(CodeWord(lens, j), lens[j]) + PositionBits(tok);
    assert j == k;
    assert [tok][1..] == [];
  }

  /** An interval that does not begin aligned does not own the first window with its word: a longer code does. */
  lemma StrayOwner(lens: seq<nat>, k: nat) returns (j: nat)
    requires LongestFirst(lens) && k < |lens| && !BeginsAligned(lens, k)
    ensures j < k && Owns(lens, j, CodeWord(lens, k) * Size(lens[k]))
  {
    hide Pow2, Shr, Low, Owns, Start;
    ShrLow(Start(lens, k), 16 - lens[k]);
    j := OwnerExists(lens, CodeWord(lens, k) * Size(lens[k]), k);
  }

  /** So the tables read another symbol. */
  lemma StrayRead(t: Tables, syms: seq<nat>, lens: seq<nat>, k: nat, data: seq<byte>, pos: nat)
    requires Shaped(t) && HasTables(t, syms, lens) && Kraft(lens) <= SPACE && NumberedOnce(syms)
    requires k < |lens| == |syms| && !BeginsAligned(lens, k)
    requires BitsAt(data, pos, 16) == CodeWord(lens, k) * Size(lens[k])
    ensures NextToken(t, data, pos).Ok? && TokenSymbol(NextToken(t, data, pos).value.tok) != syms[k]
  {
    hide CodeWord, BeginsAligned, Size, Position, LengthFrom, Entry, BitsAt;
    var j := StrayOwner(lens, k);
    LookupFindsOwner(t, syms, lens, BitsAt(data, pos, 16), j);
    RowHas(t, syms, lens, j);
    hide HasTables;
    assert NextSymbol(t, data, pos) == Ok((syms[j], pos + lens[j]));
  }

  /** A token of an unaligned symbol is not read back. */
  lemma StrayToken(t: Tables, syms: seq<nat>, lens: seq<nat>, k: nat)
    requires Shaped(t) && HasTables(t, syms, lens) && LongestFirst(lens) && Kraft(lens) <= SPACE && NumberedOnce(syms)
    requires k < |lens| == |syms| && !BeginsAligned(lens, k)
    ensures Encodable(TokenOf(syms[k]), syms) && !ReadBack(t, syms, lens, [TokenOf(syms[k])], [], [])
  {
    hide HasTables, BeginsAligned, CodeWord, Pack, Encode, NextToken, LongestFirst, Shaped, BitsAt, Kraft;
    var tok := TokenOf(syms[k]);
    LoneWord(syms, lens, k);
    var data := Pack(Encode([tok], syms, lens));
    assert [] + data + [] == data;
    StrayRead(t, syms, lens, k, data, 0);
    var s := NextToken(t, data, 0).value;
    assert Tokens(t, data, 0, TotalSize([tok])).Ok? ==> Tokens(t, data, 0, TotalSize([tok])).value[0] == s.tok;
  }

  /** A code within the space gives every encoded token sequence back, in every file, exactly when it is aligned. */
  lemma ReadBackIffAligned(t: Tables, syms: seq<nat>, lens: seq<nat>)
    requires Shaped(t) && HasTables(t, syms, lens) && LongestFirst(lens) && Kraft(lens) <= SPACE && NumberedOnce(syms)
    requires |syms| == |lens|
    ensures (forall toks, head, tail | (forall i | 0 <= i < |toks| :: Encodable(toks[i], syms)) ::
               ReadBack(t, syms, lens, toks, head, tail))
            <==> Aligned(lens)
  {
    hide HasTables, ReadBack, BeginsAligned, LongestFirst, Kraft, Shaped, Encodable;
    if Aligned(lens) {
      forall toks, head, tail | forall i | 0 <= i < |toks| :: Encodable(toks[i], syms)
        ensures ReadBack(t, syms, lens, toks, head, tail)
      {
        AlignedReadsBack(t, syms, lens, toks, head, tail);
      }
    } else {
      var k: nat :| k < |lens| && !BeginsAligned(lens, k);
      StrayToken(t, syms, lens, k);
    }
  }

  // ---- in the text ----

  lemma FirstByte(t: Tables, data: seq<byte>, pos: nat)
    requires Shaped(t) && NextToken(t, data, pos).Ok?
    ensures var r := Unpacked(t, data, pos, Blank(), 1);
            var tok := NextToken(t, data, pos).value.tok;
            r.Ok? ==> r.value[0] == if tok.Literal? then tok.b else 32
  {
    hide NextToken, Shaped;
    var tok := NextToken(t, data, pos).value.tok;
    var h := Extend(Blank(), tok);
    if tok.Copy? {
      CopyIsPeriodic(Blank(), tok.len, tok.dist, h);
    }
    assert h[STRBUF] == if tok.Literal? then tok.b else 32;
    var r := Tokens(t, data, pos, 1);
    if r.Ok? {
      hide Extend, CopyBytes;
      assert Expand(Blank(), r.value) == Expand(h, r.value[1..]);
      assert h <= Expand(Blank(), r.value);
    }
  }

  /** The text of one byte other than a space, whose symbol is unaligned, is not what its encoding unpacks to. */
  lemma StrayText(t: Tables, syms: seq<nat>, lens: seq<nat>, k: nat)
    requires Shaped(t) && HasTables(t, syms, lens) && LongestFirst(lens) && Kraft(lens) <= SPACE && NumberedOnce(syms)
    requires k < |lens| == |syms| && !BeginsAligned(lens, k) && syms[k] < 256 && syms[k] != 32
    ensures Encodable(Literal(syms[k]), syms)
    ensures Unpacked(t, Pack(Encode([Literal(syms[k])], syms, lens)), 0, Blank(), 1) != Ok([syms[k]])
  {
    hide HasTables, BeginsAligned, CodeWord, Pack, Encode, NextToken, LongestFirst, Shaped, BitsAt, Kraft, Unpacked;
    LoneWord(syms, lens, k);
    var data := Pack(Encode([TokenOf(syms[k])], syms, lens));
    StrayRead(t, syms, lens, k, data, 0);
    FirstByte(t, data, 0);
  }
}
