/** The meaning of a `wpack` member: a bit stream of tokens, read two ways. `ReadsFrom` says which token
    sequences a stream spells, by code words alone; `Tokens` is what the decoder's tables make of it. */
module WpackStream {
  import opened Wrappers
  import opened Bits
  import opened BitStream
  import opened ShannonCode
  import opened CodeWords
  import opened PositionCode
  import opened Lzss

  /** `IndexError` is an index past the end of a list, `BadCode` the decoder's own "bad code". */
  datatype Error = IndexError | BadCode

  datatype Step = Step(tok: Token, next: nat)

  predicate Shaped(t: Tables) {
    && 1 <= t.minCodeLen <= MAX_CODE_BITS
    && |t.minVal| == |t.mapOffset| == MAX_CODE_BITS + 1
    && |t.charMap| == NUM_CHARS
    && (forall k | 0 <= k < NUM_CHARS :: t.charMap[k] < NUM_CHARS)
  }

  // ---- what the tables make of a stream ----

  /** The symbol at bit `pos` and the bit after it. */
  function NextSymbol(t: Tables, data: seq<byte>, pos: nat): (r: Result<(nat, nat), Error>)
    requires Shaped(t)
    ensures r.Ok? ==> r.value.0 < NUM_CHARS
  {
    var v := BitsAt(data, pos, 16);
    var l := LengthFrom(t, v, t.minCodeLen);
    if l > MAX_CODE_BITS || v < t.minVal[l] then Err(BadCode)
    else if Entry(t, v, l) >= NUM_CHARS then Err(IndexError)
    else Ok((t.charMap[Entry(t, v, l)], pos + l))
  }

  function NextToken(t: Tables, data: seq<byte>, pos: nat): (r: Result<Step, Error>)
    requires Shaped(t)
    ensures r.Ok? ==> ValidToken(r.value.tok) && TokenSize(r.value.tok) <= LAHEAD
  {
    match NextSymbol(t, data, pos)
    case Err(e) => Err(e)
    case Ok((c, p)) =>
      if c < 256 then Ok(Step(Literal(c), p))
      else
        TablesDecodeWords(data, p, 0);
        Ok(Step(Copy(c - 255 + THRESHOLD, Position(data, p) + 1), p + PositionLen(data, p)))
  }

  /** The tokens from `pos` on that it takes to make `need` bytes. */
  function Tokens(t: Tables, data: seq<byte>, pos: nat, need: int): (r: Result<seq<Token>, Error>)
    requires Shaped(t)
    ensures r.Ok? ==> AllValid(r.value)
    decreases need
  {
    if need <= 0 then Ok([])
    else
      match NextToken(t, data, pos)
      case Err(e) => Err(e)
      case Ok(s) =>
        match Tokens(t, data, s.next, need - TokenSize(s.tok))
        case Err(e) => Err(e)
        case Ok(rest) => Ok([s.tok] + rest)
  }

  /** The `need` bytes of the member whose tokens start at bit `pos`, after the history `h`. */
  function Unpacked(t: Tables, data: seq<byte>, pos: nat, h: seq<byte>, need: nat): (r: Result<seq<byte>, Error>)
    requires Shaped(t) && |h| >= STRBUF
    ensures r.Ok? ==> |r.value| == need
  {
    match Tokens(t, data, pos, need)
    case Err(e) => Err(e)
    case Ok(toks) =>
      TokensSuffice(t, data, pos, need);
      ExpandLength(h, toks);
      Ok(Expand(h, toks)[|h|..|h| + need])
  }

  /** The tokens cover what is needed, and the last one overshoots by less than its own length. */
  lemma {:induction false} TokensSuffice(t: Tables, data: seq<byte>, pos: nat, need: int)
    requires Shaped(t)
    ensures var r := Tokens(t, data, pos, need);
            r.Ok? && need >= 0 ==> need <= TotalSize(r.value) <= need + 59
    decreases need
  {
    if need > 0 {
      var s := NextToken(t, data, pos);
      if s.Ok? {
        var left := need - TokenSize(s.value.tok);
        TokensSuffice(t, data, s.value.next, left);
      }
    }
  }

  // ---- what a stream spells ----

  /** The symbol numbered `k` at bit `pos`, and the position after it if it is a match, spell `tok`. */
  ghost predicate Spells(data: seq<byte>, pos: nat, syms: seq<nat>, lens: seq<nat>, k: nat, tok: Token, next: nat)
    requires k < |syms| == |lens|
  {
    match tok
    case Literal(b) =>
      syms[k] == b && next == pos + lens[k]
    case Copy(len, dist) =>
      && len > THRESHOLD && syms[k] == 256 + len - THRESHOLD - 1
      && 1 <= dist && PositionAt(data, pos + lens[k], dist - 1)
      && next == pos + lens[k] + WordLen((dist - 1) / 64) + 6
  }

  /** `tok` is spelled at bit `pos`, and `next` is the bit after it. */
  ghost predicate TokenAt(data: seq<byte>, pos: nat, syms: seq<nat>, lens: seq<nat>, tok: Token, next: nat)
    requires LongestFirst(lens) && |syms| == |lens|
  {
    exists k: nat :: SymbolAt(data, pos, lens, k) && Spells(data, pos, syms, lens, k, tok, next)
  }

  ghost predicate ReadsFrom(data: seq<byte>, pos: nat, syms: seq<nat>, lens: seq<nat>, toks: seq<Token>)
    requires LongestFirst(lens) && |syms| == |lens|
    decreases toks
  {
    toks != [] ==>
      exists next :: TokenAt(data, pos, syms, lens, toks[0], next) && ReadsFrom(data, next, syms, lens, toks[1..])
  }

  /** With a complete code the tables read the token the stream spells: it exists, it is the only one, and
      they stop exactly at its end. */
  lemma TablesReadToken(t: Tables, syms: seq<nat>, lens: seq<nat>, data: seq<byte>, pos: nat, tok: Token, next: nat)
    requires Shaped(t) && HasTables(t, syms, lens) && LongestFirst(lens) && Complete(lens) && |syms| == |lens|
    ensures NextToken(t, data, pos).Ok?
    ensures TokenAt(data, pos, syms, lens, tok, next) <==> NextToken(t, data, pos) == Ok(Step(tok, next))
  {
    var k := DecodesTheSymbol(t, syms, lens, data, pos);
    hide HasTables, Complete, LengthFrom, Entry;
    assert NextSymbol(t, data, pos) == Ok((syms[k], pos + lens[k]));
    SpellsIffRead(t, data, pos, syms, lens, k, tok, next);
    if TokenAt(data, pos, syms, lens, tok, next) {
      var j: nat :| SymbolAt(data, pos, lens, j) && Spells(data, pos, syms, lens, j, tok, next);
      assert j == k;
    }
  }

  /** With an aligned code the tables read whatever token is spelled. */
  lemma TablesReadSpelledToken(t: Tables, syms: seq<nat>, lens: seq<nat>, data: seq<byte>, pos: nat, tok: Token, next: nat)
    requires Shaped(t) && HasTables(t, syms, lens) && LongestFirst(lens) && Aligned(lens) && |syms| == |lens|
    requires TokenAt(data, pos, syms, lens, tok, next)
    ensures NextToken(t, data, pos) == Ok(Step(tok, next))
  {
    hide HasTables, Aligned, LengthFrom, Entry, Spells;
    var k: nat :| SymbolAt(data, pos, lens, k) && Spells(data, pos, syms, lens, k, tok, next);
    LookupReadsWord(t, syms, lens, data, pos, k);
    RowHas(t, syms, lens, k);
    assert NextSymbol(t, data, pos) == Ok((syms[k], pos + lens[k]));
    SpellsIffRead(t, data, pos, syms, lens, k, tok, next);
  }

  lemma SpellsIffRead(t: Tables, data: seq<byte>, pos: nat, syms: seq<nat>, lens: seq<nat>, k: nat, tok: Token, next: nat)
    requires Shaped(t) && k < |syms| == |lens|
    requires NextSymbol(t, data, pos) == Ok((syms[k], pos + lens[k]))
    ensures NextToken(t, data, pos).Ok?
    ensures Spells(data, pos, syms, lens, k, tok, next) <==> NextToken(t, data, pos) == Ok(Step(tok, next))
  {
    hide NextSymbol, Position, PositionLen, PositionAt;
    var p := pos + lens[k];
    TablesDecodeWords(data, p, 0);
    TablesDecodeWords(data, p, Position(data, p));
    if tok.Copy? && tok.dist >= 1 {
      TablesDecodeWords(data, p, tok.dist - 1);
    }
  }

  /** With a complete code the tables never fault, and the tokens they read are spelled by the stream. */
  lemma {:induction false} TablesReadTokens(t: Tables, syms: seq<nat>, lens: seq<nat>, data: seq<byte>, pos: nat, need: int)
    requires Shaped(t) && HasTables(t, syms, lens) && LongestFirst(lens) && Complete(lens) && |syms| == |lens|
    ensures var r := Tokens(t, data, pos, need);
            r.Ok? && ReadsFrom(data, pos, syms, lens, r.value)
    decreases need
  {
    hide HasTables, Complete, NextToken, TokenAt;
    if need > 0 {
      TablesReadToken(t, syms, lens, data, pos, Literal(0), pos);
      var s := NextToken(t, data, pos).value;
      TablesReadToken(t, syms, lens, data, pos, s.tok, s.next);
      TablesReadTokens(t, syms, lens, data, s.next, need - TokenSize(s.tok));
      var toks := Tokens(t, data, pos, need).value;
      assert toks[0] == s.tok && toks[1..] == Tokens(t, data, s.next, need - TokenSize(s.tok)).value;
    }
  }

  /** With an aligned code the tokens the tables read are a prefix of every long enough token sequence the stream spells. */
  lemma {:induction false} TokensArePrefix(t: Tables, syms: seq<nat>, lens: seq<nat>, data: seq<byte>, pos: nat, need: int,
                                           toks: seq<Token>)
    requires Shaped(t) && HasTables(t, syms, lens) && LongestFirst(lens) && Aligned(lens) && |syms| == |lens|
    requires ReadsFrom(data, pos, syms, lens, toks) && TotalSize(toks) >= need
    ensures Tokens(t, data, pos, need).Ok? && Tokens(t, data, pos, need).value <= toks
    decreases toks
  {
    hide HasTables, Aligned, NextToken, TokenAt;
    if need > 0 {
      var next :| TokenAt(data, pos, syms, lens, toks[0], next) && ReadsFrom(data, next, syms, lens, toks[1..]);
      TablesReadSpelledToken(t, syms, lens, data, pos, toks[0], next);
      TokensArePrefix(t, syms, lens, data, next, need - TokenSize(toks[0]), toks[1..]);
      assert toks == [toks[0]] + toks[1..];
    }
  }

  lemma {:induction false} ExpandPrefix(h: seq<byte>, a: seq<Token>, b: seq<Token>)
    requires |h| >= STRBUF && a <= b && AllValid(b)
    ensures AllValid(a) && Expand(h, a) <= Expand(h, b)
    decreases a
  {
    forall tok | tok in a
      ensures tok in b
    {
    }
    if a != [] {
      assert a[1..] <= b[1..];
      ExpandPrefix(Extend(h, a[0]), a[1..], b[1..]);
    }
  }

  /** Every token a stream spells is a valid one. */
  lemma {:induction false} SpelledTokensValid(data: seq<byte>, pos: nat, syms: seq<nat>, lens: seq<nat>, toks: seq<Token>)
    requires LongestFirst(lens) && |syms| == |lens|
    requires ReadsFrom(data, pos, syms, lens, toks)
    ensures AllValid(toks)
    decreases toks
  {
    if toks != [] {
      var next :| TokenAt(data, pos, syms, lens, toks[0], next) && ReadsFrom(data, next, syms, lens, toks[1..]);
      SpelledTokensValid(data, next, syms, lens, toks[1..]);
      assert toks == [toks[0]] + toks[1..];
    }
  }

  lemma SamePart(a: seq<byte>, b: seq<byte>, i: nat, j: nat)
    requires a <= b && i <= j <= |a|
    ensures a[i..j] == b[i..j]
  {
  }

  /** An aligned code is decoded right: whatever tokens the stream spells, if they make the bytes needed then
      those bytes, and no others, are what the tables unpack. */
  lemma UnpackedIsSpelled(t: Tables, syms: seq<nat>, lens: seq<nat>, data: seq<byte>, pos: nat, h: seq<byte>, need: nat,
                          toks: seq<Token>)
    requires Shaped(t) && HasTables(t, syms, lens) && LongestFirst(lens) && Aligned(lens) && |syms| == |lens| && |h| >= STRBUF
    requires ReadsFrom(data, pos, syms, lens, toks) && TotalSize(toks) >= need
    ensures AllValid(toks)
    ensures |Expand(h, toks)| >= |h| + need
    ensures Unpacked(t, data, pos, h, need) == Ok(Expand(h, toks)[|h|..|h| + need])
  {
    hide HasTables, Aligned, LongestFirst, ReadsFrom, Tokens, Expand, TotalSize, ValidToken;
    SpelledTokensValid(data, pos, syms, lens, toks);
    TokensArePrefix(t, syms, lens, data, pos, need, toks);
    var read := Tokens(t, data, pos, need).value;
    TokensSuffice(t, data, pos, need);
    ExpandPrefix(h, read, toks);
    ExpandLength(h, read);
    ExpandLength(h, toks);
    SamePart(Expand(h, read), Expand(h, toks), |h|, |h| + need);
  }

  // ---- which codes fault ----

  lemma SymbolFault(t: Tables, syms: seq<nat>, lens: seq<nat>, data: seq<byte>, pos: nat)
    requires Shaped(t) && HasTables(t, syms, lens)
    ensures NextSymbol(t, data, pos).Err? <==> ReadsPast(t, BitsAt(data, pos, 16))
    ensures NextSymbol(t, data, pos) != Err(BadCode)
  {
    NeverBadCode(t, syms, lens, BitsAt(data, pos, 16));
  }

  lemma NextNeverFaults(t: Tables, syms: seq<nat>, lens: seq<nat>, data: seq<byte>, pos: nat)
    requires Shaped(t) && HasTables(t, syms, lens) && Kraft(lens) <= SPACE && !Overruns(t)
    ensures NextToken(t, data, pos).Ok?
  {
    SymbolFault(t, syms, lens, data, pos);
    BitsAtBound(data, pos, 16);
    Pow2Values();
    PastIffOverruns(t, syms, lens);
    hide HasTables, NextSymbol, Position, ReadsPast, Overruns;
  }

  /** With a code that leaves no window past the end of the list the tables never fault. */
  lemma {:induction false} TokensNeverFault(t: Tables, syms: seq<nat>, lens: seq<nat>, data: seq<byte>, pos: nat, need: int)
    requires Shaped(t) && HasTables(t, syms, lens) && Kraft(lens) <= SPACE && !Overruns(t)
    ensures Tokens(t, data, pos, need).Ok?
    decreases need
  {
    if need > 0 {
      NextNeverFaults(t, syms, lens, data, pos);
      hide HasTables, NextToken, Overruns, Shaped;
      var s := NextToken(t, data, pos).value;
      TokensNeverFault(t, syms, lens, data, s.next, need - TokenSize(s.tok));
    }
  }

  lemma NoFault(t: Tables, syms: seq<nat>, lens: seq<nat>, data: seq<byte>, pos: nat, h: seq<byte>, need: nat)
    requires Shaped(t) && HasTables(t, syms, lens) && Kraft(lens) <= SPACE && !Overruns(t) && |h| >= STRBUF
    ensures Unpacked(t, data, pos, h, need).Ok?
  {
    hide HasTables, Expand, Tokens, Overruns;
    TokensNeverFault(t, syms, lens, data, pos, need);
  }

  lemma WholeByte(data: seq<byte>, at: nat)
    ensures BitsAt(data, 8 * at, 8) == ByteAt(data, at)
  {
    Pow2Values();
    hide Bit, Pow2, StreamBit, BitsAt, ByteAt;
    forall k: nat | k < 8
      ensures Bit(ByteAt(data, at), k) == StreamBit(data, 8 * at + 8 - 1 - k)
    {
      ByteBit(data, at, k);
    }
    SpellsBits(data, 8 * at, 8, ByteAt(data, at));
  }

  lemma AllOnes(head: seq<byte>, tail: seq<byte>)
    ensures BitsAt(head + [255, 255] + tail, 8 * |head|, 16) == SPACE - 1
  {
    hide BitsAt;
    var data := head + [255, 255] + tail;
    WholeByte(data, |head|);
    WholeByte(data, |head| + 1);
    BitsAtSplit(data, 8 * |head|, 8, 8);
    Pow2Values();
  }

  /** With any other code within the space, whatever stands before and after, a member of all ones fails. */
  lemma OnesFault(t: Tables, syms: seq<nat>, lens: seq<nat>, head: seq<byte>, tail: seq<byte>, h: seq<byte>, need: nat)
    requires Shaped(t) && HasTables(t, syms, lens) && Overruns(t) && |h| >= STRBUF && need > 0
    ensures Unpacked(t, head + [255, 255] + tail, 8 * |head|, h, need) == Err(IndexError)
  {
    var data := head + [255, 255] + tail;
    AllOnes(head, tail);
    SymbolFault(t, syms, lens, data, 8 * |head|);
    hide HasTables, BitsAt;
    assert ReadsPast(t, SPACE - 1);
    hide NextSymbol;
    assert NextToken(t, data, 8 * |head|).Err?;
    assert Tokens(t, data, 8 * |head|, need).Err?;
  }

  /** Of the codes within the space, those some stream makes fail are exactly those whose last window reads past
      the end of the list. */
  lemma FaultsIffOverruns(t: Tables, syms: seq<nat>, lens: seq<nat>, h: seq<byte>, need: nat)
    requires Shaped(t) && HasTables(t, syms, lens) && Kraft(lens) <= SPACE && |h| >= STRBUF && need > 0
    ensures (exists data, pos: nat :: Unpacked(t, data, pos, h, need).Err?) <==> Overruns(t)
  {
    hide HasTables, Overruns, Unpacked;
    if Overruns(t) {
      OnesFault(t, syms, lens, [], [], h, need);
      assert Unpacked(t, [] + [255, 255] + [], 0, h, need).Err?;
    } else {
      forall data, pos: nat
        ensures Unpacked(t, data, pos, h, need).Ok?
      {
        NoFault(t, syms, lens, data, pos, h, need);
      }
    }
  }
}
