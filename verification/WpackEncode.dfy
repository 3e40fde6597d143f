/** The encoder a `wpack` member would come from: the token stream as code words, packed into bytes. It is the
    reference the decoder is the inverse of. */
module WpackEncode {
  import opened Wrappers
  import opened Bits
  import opened BitStream
  import opened ShannonCode
  import opened CodeWords
  import opened PositionCode
  import opened Lzss
  import opened WpackStream

  /** The low `n` bits of `v`, most significant first. */
  function WordBits(v: nat, n: nat): (r: seq<bool>)
    ensures |r| == n
  {
    if n == 0 then [] else WordBits(v / 2, n - 1) + [v % 2 == 1]
  }

  /** The symbol number of a token. */
  function TokenSymbol(tok: Token): nat
    requires ValidToken(tok)
  {
    match tok
    case Literal(b) => b
    case Copy(len, _) => 256 + len - THRESHOLD - 1
  }

  ghost predicate Encodable(tok: Token, syms: seq<nat>) {
    ValidToken(tok) && TokenSymbol(tok) in syms
  }

  function PositionBits(tok: Token): seq<bool>
    requires ValidToken(tok)
  {
    match tok
    case Literal(_) => []
    case Copy(_, dist) =>
      var x := dist - 1;
      WordBits(Word(x / 64), WordLen(x / 64)) + WordBits(x % 64, 6)
  }

  ghost function EncodeToken(tok: Token, syms: seq<nat>, lens: seq<nat>): seq<bool>
    requires LongestFirst(lens) && |syms| == |lens| && Encodable(tok, syms)
  {
    var k :| 0 <= k < |syms| && syms[k] == TokenSymbol(tok);
    WordBits(CodeWord(lens, k), lens[k]) + PositionBits(tok)
  }

  ghost function Encode(toks: seq<Token>, syms: seq<nat>, lens: seq<nat>): seq<bool>
    requires LongestFirst(lens) && |syms| == |lens|
    requires forall i | 0 <= i < |toks| :: Encodable(toks[i], syms)
  {
    if toks == [] then [] else EncodeToken(toks[0], syms, lens) + Encode(toks[1..], syms, lens)
  }

  /** The number the first `n` bits spell, zero bits past the end. */
  function Value(bits: seq<bool>, n: nat): (v: nat)
    ensures v < Pow2(n)
  {
    if n == 0 then 0 else 2 * Value(bits, n - 1) + (if n <= |bits| && bits[n - 1] then 1 else 0)
  }

  function PackedByte(bits: seq<bool>, i: nat): byte
    requires 8 * i <= |bits|
  {
    Pow2Values();
    Value(bits[8 * i..], 8)
  }

  function Pack(bits: seq<bool>): (r: seq<byte>)
    ensures |r| == (|bits| + 7) / 8
  {
    seq((|bits| + 7) / 8, i requires 0 <= i < (|bits| + 7) / 8 => PackedByte(bits, i))
  }

  /** `bits` stand in the stream from `pos` on. */
  ghost predicate Stands(data: seq<byte>, pos: nat, bits: seq<bool>) {
    forall i: nat | i < |bits| :: StreamBit(data, pos + i) == bits[i]
  }

  lemma {:induction false} ValueBit(bits: seq<bool>, n: nat, k: nat)
    requires k < n
    ensures Bit(Value(bits, n), k) == (n - k <= |bits| && bits[n - 1 - k])
  {
    if k > 0 {
      ValueBit(bits, n - 1, k - 1);
    }
  }

  /** Packed bits stand in the stream where they were put. */
  lemma PackedStands(head: seq<byte>, bits: seq<bool>, tail: seq<byte>)
    ensures Stands(head + Pack(bits) + tail, 8 * |head|, bits)
  {
    var data := head + Pack(bits) + tail;
    forall i: nat | i < |bits|
      ensures StreamBit(data, 8 * |head| + i) == bits[i]
    {
      var q, j := i / 8, i % 8;
      assert ByteAt(data, |head| + q) == PackedByte(bits, q);
      assert (8 * |head| + i) / 8 == |head| + q && (8 * |head| + i) % 8 == j;
      ValueBit(bits[8 * q..], 8, 7 - j);
    }
  }

  lemma StandsSplit(data: seq<byte>, pos: nat, a: seq<bool>, b: seq<bool>)
    requires Stands(data, pos, a + b)
    ensures Stands(data, pos, a) && Stands(data, pos + |a|, b)
  {
    forall i: nat | i < |a|
      ensures StreamBit(data, pos + i) == a[i]
    {
      assert (a + b)[i] == a[i];
    }
    forall i: nat | i < |b|
      ensures StreamBit(data, pos + |a| + i) == b[i]
    {
      assert (a + b)[|a| + i] == b[i];
      assert pos + (|a| + i) == pos + |a| + i;
    }
  }

  /** A word that stands in the stream is the number read there. */
  lemma {:induction false} WordRead(data: seq<byte>, pos: nat, v: nat, n: nat)
    requires v < Pow2(n) && Stands(data, pos, WordBits(v, n))
    ensures BitsAt(data, pos, n) == v
  {
    if n > 0 {
      StandsSplit(data, pos, WordBits(v / 2, n - 1), [v % 2 == 1]);
      WordRead(data, pos, v / 2, n - 1);
      assert StreamBit(data, pos + (n - 1) + 0) == [v % 2 == 1][0];
    }
  }

  lemma CodeWordFits(lens: seq<nat>, k: nat)
    requires LongestFirst(lens) && Kraft(lens) <= SPACE && k < |lens|
    ensures CodeWord(lens, k) < Pow2(lens[k])
  {
    hide Pow2, Shr, BeginsAligned;
    StartMonotone(lens, k, |lens|);
    Pow2Values();
    ShrBound(Start(lens, k), 16 - lens[k], lens[k]);
  }

  lemma PositionWordFits(x: nat)
    requires x < STRBUF
    ensures Word(x / 64) < Pow2(WordLen(x / 64)) && x % 64 < Pow2(6)
  {
    Pow2Values();
    assert Pow2(3) == 8 && Pow2(5) == 32 && Pow2(7) == 128;
  }

  lemma SymbolReadBack(data: seq<byte>, pos: nat, lens: seq<nat>, k: nat)
    requires Aligned(lens) && LongestFirst(lens) && k < |lens|
    requires Stands(data, pos, WordBits(CodeWord(lens, k), lens[k]))
    ensures SymbolAt(data, pos, lens, k)
  {
    hide Stands, CodeWord, Aligned, WordBits, BitsAt;
    AlignedFits(lens);
    CodeWordFits(lens, k);
    WordRead(data, pos, CodeWord(lens, k), lens[k]);
  }

  /** The decoder's side of a token reads what the encoder wrote. */
  lemma TokenReadBack(data: seq<byte>, pos: nat, syms: seq<nat>, lens: seq<nat>, tok: Token)
    requires Aligned(lens) && LongestFirst(lens) && |syms| == |lens| && Encodable(tok, syms)
    requires Stands(data, pos, EncodeToken(tok, syms, lens))
    ensures TokenAt(data, pos, syms, lens, tok, pos + |EncodeToken(tok, syms, lens)|)
  {
    hide Stands, CodeWord, Aligned, WordBits, PositionAt, SymbolAt, Word, WordLen, LongestFirst, BitsAt;
    var k :| 0 <= k < |syms| && syms[k] == TokenSymbol(tok)
             && EncodeToken(tok, syms, lens) == WordBits(CodeWord(lens, k), lens[k]) + PositionBits(tok);
    StandsSplit(data, pos, WordBits(CodeWord(lens, k), lens[k]), PositionBits(tok));
    SymbolReadBack(data, pos, lens, k);
    if tok.Copy? {
      PositionReadBack(data, pos + lens[k], tok.dist - 1);
    }
    assert Spells(data, pos, syms, lens, k, tok, pos + |EncodeToken(tok, syms, lens)|);
  }

  lemma PositionReadBack(data: seq<byte>, pos: nat, x: nat)
    requires x < STRBUF
    requires Stands(data, pos, WordBits(Word(x / 64), WordLen(x / 64)) + WordBits(x % 64, 6))
    ensures PositionAt(data, pos, x)
  {
    hide Stands, WordBits, BitsAt, Word, WordLen;
    var c := x / 64;
    StandsSplit(data, pos, WordBits(Word(c), WordLen(c)), WordBits(x % 64, 6));
    PositionWordFits(x);
    WordRead(data, pos, Word(c), WordLen(c));
    WordRead(data, pos + WordLen(c), x % 64, 6);
  }

  /** A stream that starts with the encoded tokens spells them. */
  lemma {:induction false} EncodedReadsBack(data: seq<byte>, pos: nat, syms: seq<nat>, lens: seq<nat>, toks: seq<Token>)
    requires Aligned(lens) && LongestFirst(lens) && |syms| == |lens|
    requires forall i | 0 <= i < |toks| :: Encodable(toks[i], syms)
    requires Stands(data, pos, Encode(toks, syms, lens))
    ensures ReadsFrom(data, pos, syms, lens, toks)
    decreases toks
  {
    hide Stands, Aligned, EncodeToken, TokenAt;
    if toks != [] {
      var first := EncodeToken(toks[0], syms, lens);
      StandsSplit(data, pos, first, Encode(toks[1..], syms, lens));
      TokenReadBack(data, pos, syms, lens, toks[0]);
      EncodedReadsBack(data, pos + |first|, syms, lens, toks[1..]);
    }
  }

  /** The round trip: with an aligned code, a member that holds the encoded tokens of a text unpacks to that
      text, whatever comes before and after the encoded bits. The last match may run past the end of the text. */
  lemma RoundTrip(t: Tables, syms: seq<nat>, lens: seq<nat>, toks: seq<Token>, need: nat, head: seq<byte>, tail: seq<byte>)
    requires Shaped(t) && HasTables(t, syms, lens) && LongestFirst(lens) && Aligned(lens) && |syms| == |lens|
    requires (forall i | 0 <= i < |toks| :: Encodable(toks[i], syms)) && need <= TotalSize(toks)
    ensures AllValid(toks) && |Expand(Blank(), toks)| >= STRBUF + need
    ensures var data := head + Pack(Encode(toks, syms, lens)) + tail;
            Unpacked(t, data, 8 * |head|, Blank(), need) == Ok(Expand(Blank(), toks)[STRBUF..STRBUF + need])
  {
    hide HasTables, Aligned, LongestFirst, Shaped, Stands, Unpacked, Pack, Encode, ReadsFrom, Expand, TotalSize, Encodable;
    var bits := Encode(toks, syms, lens);
    var data := head + Pack(bits) + tail;
    PackedStands(head, bits, tail);
    EncodedReadsBack(data, 8 * |head|, syms, lens, toks);
    UnpackedIsSpelled(t, syms, lens, data, 8 * |head|, Blank(), need, toks);
  }
}
