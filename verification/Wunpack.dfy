/** The decoder of `wpack` members: its shift register, its tables and its ring buffer, updated in place. */
module Wunpack {
  import opened Wrappers
  import opened Bits
  import opened BitStream
  import opened ShannonCode
  import opened PositionCode
  import opened CodeLengths
  import opened Lzss
  import opened WpackStream

  class Dec {
    const d: seq<byte>
    var p: nat
    var getbuf: nat
    var getlen: nat
    var secondbuf: nat

    var minCodeLen: nat
    var minVal: seq<nat>
    var mapOffset: seq<nat>
    var charMap: seq<nat>

    /** The bytes asked for so far, the zero bytes past the end of the file among them. */
    ghost var taken: nat

    ghost predicate Placed()
      reads this
    {
      p == taken || |d| <= p <= taken
    }

    /** The register holds the next `getlen` bits, and the byte behind it is the one that follows them. */
    ghost predicate Ready()
      reads this
    {
      && Placed()
      && getlen <= 16 && getlen + 8 <= 8 * taken
      && secondbuf == ByteAt(d, taken - 1)
      && Holds(d, Pos(), getbuf, getlen)
    }

    /** The first bit of the stream not yet consumed. */
    ghost function Pos(): nat
      reads this
      requires getlen + 8 <= 8 * taken
    {
      8 * taken - 8 - getlen
    }

    ghost function Code(): Tables
      reads this
    {
      Tables(minCodeLen, minVal, mapOffset, charMap)
    }

    constructor (data: seq<byte>, pos: nat)
      ensures d == data && p == taken == pos && Placed()
      ensures getbuf == getlen == secondbuf == 0
    {
      d, p, taken := data, pos, pos;
      getbuf, getlen, secondbuf := 0, 0, 0;
      minCodeLen, minVal, mapOffset, charMap := 0, [], [], [];
    }

    method Rb() returns (b: byte)
      requires Placed()
      modifies `p, `taken
      ensures Placed() && taken == old(taken) + 1
      ensures b == ByteAt(d, old(taken))
    {
      taken := taken + 1;
      if p < |d| {
        b := d[p];
        p := p + 1;
      } else {
        b := 0;
      }
    }

    /** Consumes the next eight bits. */
    method GetByte() returns (b: nat)
      requires Ready()
      modifies `p, `taken, `getbuf, `getlen, `secondbuf
      ensures Ready() && Pos() == old(Pos()) + 8
      ensures b == BitsAt(d, old(Pos()), 8)
    {
      hide Holds, BitsAt, Low, Shl, Shr, Or, Pow2, ByteAt;
      ghost var pos, at := Pos(), taken - 1;
      var i := Shr(getbuf, 8);
      if getlen >= 8 {
        LeadingByte(d, pos, getbuf, getlen);
        ShiftOut(d, pos, getbuf, getlen, 8);
        getbuf := Low(Shl(getbuf, 8), 16);
        getlen := getlen - 8;
      } else {
        StraddlingByte(d, pos, getbuf, getlen, at);
        KeepRest(d, pos + 8, getlen, at);
        getbuf := secondbuf;
        i := Or(i, Shr(getbuf, getlen));
        getbuf := Low(Shl(getbuf, 16 - getlen), 16);
        secondbuf := Rb();
      }
      b := Low(i, 8);
    }

    /** Consumes a match position: a code word of `D_LEN` bits and six bits more. */
    method DecodePosition() returns (x: nat)
      requires Ready()
      modifies `p, `taken, `getbuf, `getlen, `secondbuf
      ensures Ready() && Pos() == old(Pos()) + PositionLen(d, old(Pos()))
      ensures x == Position(d, old(Pos()))
    {
      hide Holds, BitsAt, Low, Shl, Shr, Or, Pow2, ByteAt;
      ghost var pos := Pos();
      var i := GetByte();
      BitsAtBound(d, pos, 8);
      Pow2Values();
      var c, j := Shl(DCode(i), 6), DLen(i) - 2;
      if j > getlen {
        FillByte(d, Pos(), getbuf, getlen, taken - 1);
        getbuf := Low(Or(getbuf, Shl(secondbuf, 8 - getlen)), 16);
        getlen := getlen + 8;
        secondbuf := Rb();
      }
      LeadingBits(d, pos + 8, getbuf, getlen, j);
      LastSixBits(d, pos, i, j);
      ShiftOut(d, pos + 8, getbuf, getlen, j);
      i := Low(Or(Shl(i, j), Shr(getbuf, 16 - j)), 16);
      getbuf := Low(Shl(getbuf, j), 16);
      getlen := getlen - j;
      BitsAtBound(d, pos + j + 2, 6);
      OrAppends(DCode(BitsAt(d, pos, 8)), 6, Low(i, 6));
      x := Or(c, Low(i, 6));
    }

    /** Reads the table of code lengths: `idx` are the symbols with a code, `ln` the lengths. Fails where the
        original indexes past its 314 lengths. */
    method ReadLengths() returns (ok: bool, ln: seq<nat>, idx: seq<nat>)
      requires Placed()
      modifies `p, `taken
      ensures Placed()
      ensures var flat := Lengths(d, old(taken));
              && ok == (forall s | NUM_CHARS <= s < |flat| :: flat[s] == 0)
              && (ok ==> taken == TableEnd(d, old(taken)) && idx == Coded(flat) && Filled(ln, flat))
    {
      hide Coded, Flatten, Entries, Repeat;
      ghost var at := taken + 1;
      ln, idx, ok := Repeat(NUM_CHARS, 0), [], true;
      var curr: nat := 0;
      var numcoded: nat := Rb();
      numcoded := numcoded + 1;
      ghost var total: nat := numcoded;
      ghost var flat: seq<nat> := [];
      FlattenNext(d, at, 0);
      CodedPush([], 0);
      while numcoded > 0
        invariant 0 <= numcoded <= total
        invariant Placed() && taken + numcoded == at + total
        invariant flat == Flatten(d, at, total - numcoded)
        invariant curr == |flat| && idx == Coded(flat) && Filled(ln, flat)
      {
        FlattenNext(d, at, total - numcoded);
        FlattenPrefix(d, at, total - numcoded + 1, total);
        var e := Rb();
        EntryAdds(ln, flat, e);
        if e >= 128 {
          curr := curr + e % 128 + 1;
        } else {
          ok, ln, idx, curr := CodeRun(ln, idx, curr, e, flat);
          if !ok {
            assert Lengths(d, at - 1)[|flat| + e / 16] == (flat + Entries(e))[|flat| + e / 16];
            return;
          }
        }
        flat := flat + Entries(e);
        numcoded := numcoded - 1;
      }
    }

    /** Builds the lookup tables. `order` is what the external sort by code length answers. Fails where the
        original raises an index error. */
    method ShannonTrie(order: seq<nat>) returns (ok: bool)
      requires Placed()
      requires Usable(Lengths(d, taken)) ==> SortedByLength(order, Coded(Lengths(d, taken)), Lengths(d, taken))
      modifies `p, `taken, `minCodeLen, `minVal, `mapOffset, `charMap
      ensures var flat := Lengths(d, old(taken));
              && ok == Usable(flat)
              && (ok ==> Placed() && taken == TableEnd(d, old(taken)) && Shaped(Code())
                         && (forall k | 0 <= k < |order| :: order[k] < |flat|)
                         && HasTables(Code(), Numbered(order), LensOf(Numbered(order), flat)))
    {
      ghost var at := taken;
      ghost var flat := Lengths(d, at);
      hide Lengths, TableEnd, Coded, HasTables, LongestFirst;
      var fits, ln, idx := ReadLengths();
      CodedEmpty(flat);
      if !fits || idx == [] {
        return false;
      }
      NumberedIsCode(d, at, order);
      assert forall k | 0 <= k < |order| :: order[k] == Numbered(order)[|order| - 1 - k];
      FillTables(ln, order, Numbered(order), LensOf(Numbered(order), flat));
      ok := true;
    }

    /** Numbers the symbols, longest code first. */
    method FillTables(ln: seq<nat>, order: seq<nat>, ghost syms: seq<nat>, ghost lens: seq<nat>)
      requires Backwards(ln, order, syms, lens) && LongestFirst(lens)
      modifies `minCodeLen, `minVal, `mapOffset, `charMap
      ensures Shaped(Code()) && HasTables(Code(), syms, lens)
    {
      hide LongestFirst, RowsUpTo, MapUpTo, Start, Repeat, Pow2, Counting, HasTables, Shaped, ClassHead;
      minVal := Repeat(MAX_CODE_BITS + 1, 0xFFFF);
      mapOffset := Repeat(MAX_CODE_BITS + 1, 0);
      charMap := Repeat(NUM_CHARS, 0);
      NoTables(lens, syms);
      var codeval: nat, codeinc: nat, lastlen: nat, curroffset: nat := 0, 0, 0, 0;
      assert order[0] == syms[|syms| - 1];
      minCodeLen := ln[order[0]];
      var i := |order|;
      while i > 0
        invariant 0 <= i <= |order| && curroffset == |order| - i
        invariant minCodeLen == lens[|lens| - 1]
        invariant Counting(lens, curroffset, codeval, codeinc, lastlen)
        invariant RowsUpTo(minVal, mapOffset, lens, curroffset) && MapUpTo(charMap, syms, curroffset)
      {
        i := i - 1;
        NextStart(lens, curroffset, codeval, codeinc, lastlen);
        codeval := (codeval + codeinc) % SPACE;
        assert syms[curroffset] == order[i];
        NextRow(minVal, mapOffset, lens, curroffset, lastlen);
        if ln[order[i]] != lastlen {
          lastlen := ln[order[i]];
          codeinc := Pow2(16 - lastlen);
          minVal := minVal[lastlen := codeval];
          mapOffset := mapOffset[lastlen := curroffset];
        }
        NextInMap(charMap, syms, curroffset);
        charMap := charMap[curroffset := order[i]];
        curroffset := curroffset + 1;
      }
      AllTables(Code(), syms, lens);
    }

    /** The register is full: sixteen bits from `pos` on, the last `8 - spare` of them out of the byte
        behind it. */
    ghost predicate Full(pos: nat, spare: nat)
      reads this
    {
      && Placed()
      && spare <= 8 && taken > 0 && pos + 8 + spare == 8 * (taken - 1)
      && secondbuf == ByteAt(d, taken - 1)
      && getlen == 16 && Holds(d, pos, getbuf, 16)
    }

    /** Fills the register for a lookup, consuming nothing. */
    method FillWindow() returns (spare: nat)
      requires Ready()
      modifies `p, `taken, `getbuf, `getlen, `secondbuf
      ensures Full(old(Pos()), spare) && getbuf == BitsAt(d, old(Pos()), 16)
    {
      hide Holds, BitsAt, Low, Shl, Shr, Or, Pow2, ByteAt;
      ghost var pos := Pos();
      if getlen < 8 {
        FillByte(d, pos, getbuf, getlen, taken - 1);
        getbuf := Low(Or(getbuf, Shl(secondbuf, 8 - getlen)), 16);
        getlen := getlen + 8;
        secondbuf := Rb();
      }
      TopUp(d, pos, getbuf, getlen, taken - 1);
      spare := getlen - 8;
      getlen := 16;
      getbuf := Low(Or(getbuf, Shr(secondbuf, spare)), 16);
      FullRegister(d, pos, getbuf);
    }

    /** Consumes the `codelen` bits of a symbol from a full register. */
    method Consume(spare: nat, codelen: nat, ghost pos: nat)
      requires Full(pos, spare) && codelen <= MAX_CODE_BITS
      modifies `p, `taken, `getbuf, `getlen, `secondbuf
      ensures Ready() && Pos() == pos + codelen
    {
      hide Holds, BitsAt, Low, Shl, Shr, Or, Pow2, ByteAt;
      ShiftOut(d, pos, getbuf, 16, codelen);
      getbuf := Low(Shl(getbuf, codelen), 16);
      getlen := getlen - codelen;
      if spare > codelen {
        HoldLess(d, pos + codelen, getbuf, getlen, getlen - (8 - spare));
        getlen := getlen - (8 - spare);
      } else {
        FillRest(d, pos + codelen, getbuf, spare, codelen, taken - 1);
        getbuf := Low(Or(getbuf, Shl(Low(secondbuf, spare), codelen - spare)), 16);
        getlen := getlen + spare;
        secondbuf := Rb();
      }
    }

    /** Consumes one symbol. */
    method ReadSymbol() returns (r: Result<nat, Error>)
      requires Ready() && Shaped(Code())
      modifies `p, `taken, `getbuf, `getlen, `secondbuf
      ensures match NextSymbol(Code(), d, old(Pos()))
              case Err(e) => r == Err(e)
              case Ok((c, next)) => r == Ok(c) && Ready() && Pos() == next
    {
      hide Holds, BitsAt, Low, Shl, Shr, Or, Pow2, ByteAt;
      ghost var pos := Pos();
      var spare := FillWindow();
      var codelen := minCodeLen;
      while codelen <= MAX_CODE_BITS && getbuf < minVal[codelen]
        invariant 1 <= codelen <= 17
        invariant LengthFrom(Code(), getbuf, codelen) == LengthFrom(Code(), getbuf, minCodeLen)
      {
        codelen := codelen + 1;
      }
      if codelen > MAX_CODE_BITS {
        return Err(BadCode);
      }
      var entry := mapOffset[codelen] + Shr(getbuf - minVal[codelen], 16 - codelen);
      if entry >= |charMap| {
        return Err(IndexError);
      }
      Consume(spare, codelen, pos);
      r := Ok(charMap[entry]);
    }

    /** Copies a match inside the ring, byte by byte. */
    method CopyMatch(tb: array<byte>, r: nat, i: nat, j: nat, out: seq<byte>, ghost h: seq<byte>, ghost dist: nat)
      returns (r': nat, out': seq<byte>)
      requires tb.Length == STRBUF && Ring(tb[..], r, h) && 1 <= dist <= STRBUF && i == (r - dist) % STRBUF
      modifies tb
      ensures Ring(tb[..], r', CopyBytes(h, j, dist))
      ensures out' == out + CopyBytes(h, j, dist)[|h|..]
    {
      hide Ring, CopyBytes;
      r', out' := r, out;
      ghost var now := h;
      RingStart(tb[..], r, h, i, dist);
      for k := 0 to j
        invariant Ring(tb[..], r', now) && |now| == |h| + k && h <= now
        invariant CopyBytes(now, j - k, dist) == CopyBytes(h, j, dist)
        invariant out' == out + now[|h|..]
      {
        RingIndex(tb[..], r', now, i, k, |h|, dist);
        RingRead(tb[..], r', now, (i + k) % STRBUF, dist);
        CopyStep(now, j - k, dist);
        var ch := tb[(i + k) % STRBUF];
        RingPush(tb[..], r', now, ch);
        ghost var before := tb[..];
        tb[r'] := ch;
        assert tb[..] == before[r' := ch];
        r' := (r' + 1) % STRBUF;
        out' := out' + [ch];
        now := now + [ch];
      }
      CopyStep(now, 0, dist);
    }

    /** Unpacks `textsize` bytes. */
    method Run(textsize: nat, order: seq<nat>) returns (r: Result<seq<byte>, Error>)
      requires Placed()
      requires Usable(Lengths(d, taken)) ==> SortedByLength(order, Coded(Lengths(d, taken)), Lengths(d, taken))
      modifies this
      ensures var flat := Lengths(d, old(taken));
              if !Usable(flat) then r == Err(IndexError)
              else
                && Shaped(Code())
                && (forall k | 0 <= k < |order| :: order[k] < |flat|)
                && HasTables(Code(), Numbered(order), LensOf(Numbered(order), flat))
                && r == Unpacked(Code(), d, 8 * TableEnd(d, old(taken)), Blank(), textsize)
                && r != Err(BadCode)
                && (r.Err? ==> !Complete(LensOf(Numbered(order), flat)))
                && (r.Err? && Kraft(LensOf(Numbered(order), flat)) <= SPACE ==> Overruns(Code()))
    {
      hide HasTables, Lengths, SortedByLength, Usable, Kraft, Overruns, Numbered, LensOf, Unpacked, ByteAt, TableEnd;
      ghost var flat := Lengths(d, taken);
      var ok := ShannonTrie(order);
      if !ok {
        return Err(IndexError);
      }
      ghost var syms := Numbered(order);
      ghost var lens := LensOf(syms, flat);
      r := UnpackText(textsize, syms, lens);
      NumberedIsCode(d, old(taken), order);
      if Complete(lens) {
        CompleteNeverOverruns(Code(), syms, lens);
      }
      if Kraft(lens) <= SPACE && !Overruns(Code()) {
        NoFault(Code(), syms, lens, d, 8 * TableEnd(d, old(taken)), Blank(), textsize);
      }
    }

    /** Unpacks `textsize` bytes from the next whole byte on, with the tables built. */
    method UnpackText(textsize: nat, ghost syms: seq<nat>, ghost lens: seq<nat>) returns (r: Result<seq<byte>, Error>)
      requires Placed() && Shaped(Code()) && HasTables(Code(), syms, lens)
      modifies `p, `taken, `getbuf, `getlen, `secondbuf
      ensures r == Unpacked(Code(), d, 8 * old(taken), Blank(), textsize)
      ensures r != Err(BadCode)
    {
      hide HasTables, Ring, Holds, Unpacking, NextSymbol, Unpacked, CopyBytes, Shaped, Tokens, Expand, Position, Entry, LengthFrom,
        BitsAt, ByteAt, StreamBit;
      ghost var t := Code();
      ghost var start := 8 * taken;
      getlen, getbuf := 0, 0;
      secondbuf := Rb();
      EmptyRegister(d, start);
      var tb := new byte[STRBUF](_ => 32);
      var w: nat := STRBUF - LAHEAD;
      BlankRing(tb[..]);
      var out: seq<byte>, count: nat := [], 0;
      ghost var toks: seq<Token>, h := [], Blank();
      UnpackingStarts(t, d, start, textsize);
      while count < textsize
        invariant Ready() && Code() == t
        invariant Ring(tb[..], w, h) && count == |out|
        invariant Unpacking(t, d, start, textsize, Pos(), toks, h, out)
        decreases textsize - count
      {
        NeverBadCodeAt(t, syms, lens, d, Pos());
        UnpackingGoesOn(t, d, start, textsize, Pos(), toks, h, out);
        ghost var step := NextToken(t, d, Pos());
        var c := ReadSymbol();
        if c.Err? {
          return Err(c.error);
        }
        if c.value < 256 {
          w, out := PutByte(tb, w, c.value, out, h);
          count := count + 1;
        } else {
          var x := DecodePosition();
          var i := (w - x - 1) % STRBUF;
          var j := c.value - 255 + THRESHOLD;
          w, out := CopyMatch(tb, w, i, j, out, h, x + 1);
          count := count + j;
        }
        toks, h := toks + [step.value.tok], Extend(h, step.value.tok);
      }
      UnpackingDone(t, d, start, textsize, Pos(), toks, h, out);
      r := Ok(out[..textsize]);
    }

    /** Puts one byte into the ring and the output. */
    method PutByte(tb: array<byte>, r: nat, c: byte, out: seq<byte>, ghost h: seq<byte>)
      returns (r': nat, out': seq<byte>)
      requires tb.Length == STRBUF && Ring(tb[..], r, h)
      modifies tb
      ensures Ring(tb[..], r', h + [c]) && out' == out + [c]
    {
      hide Ring;
      RingPush(tb[..], r, h, c);
      ghost var before := tb[..];
      out' := out + [c];
      tb[r] := c;
      assert tb[..] == before[r := c];
      r' := (r + 1) % STRBUF;
    }
  }

  /** Where the decode loop stands: at bit `pos`, with the tokens read so far expanded into `h` and `out`. */
  ghost predicate Unpacking(t: Tables, data: seq<byte>, start: nat, textsize: nat, pos: nat,
                            toks: seq<Token>, h: seq<byte>, out: seq<byte>)
    requires Shaped(t)
  {
    && (AllValid(toks))
    && h == Expand(Blank(), toks) && out == h[STRBUF..]
    && Tokens(t, data, start, textsize) == After(toks, Tokens(t, data, pos, textsize - |out|))
  }

  lemma UnpackingStarts(t: Tables, data: seq<byte>, start: nat, textsize: nat)
    requires Shaped(t)
    ensures Unpacking(t, data, start, textsize, start, [], Blank(), [])
  {
    var rest := Tokens(t, data, start, textsize);
    assert rest.Ok? ==> [] + rest.value == rest.value;
  }

  lemma UnpackingGoesOn(t: Tables, data: seq<byte>, start: nat, textsize: nat, pos: nat,
                        toks: seq<Token>, h: seq<byte>, out: seq<byte>)
    requires Shaped(t) && Unpacking(t, data, start, textsize, pos, toks, h, out) && |out| < textsize
    ensures |h| >= STRBUF
    ensures match NextToken(t, data, pos)
            case Err(e) => Unpacked(t, data, start, Blank(), textsize) == Err(e)
            case Ok(s) =>
              Unpacking(t, data, start, textsize, s.next, toks + [s.tok], Extend(h, s.tok), out + Extend(h, s.tok)[|h|..])
  {
    hide Tokens, Expand, NextToken, Extend, CopyBytes, ValidToken, Shaped;
    OneToken(t, data, pos, textsize - |out|, toks);
    match NextToken(t, data, pos)
    case Err(e) =>
    case Ok(s) =>
      ExpandSnoc(Blank(), toks, s.tok);
      WrittenMore(h, Extend(h, s.tok));
  }

  lemma WrittenMore(h: seq<byte>, h': seq<byte>)
    requires STRBUF <= |h| && h <= h'
    ensures h'[STRBUF..] == h[STRBUF..] + h'[|h|..]
  {
  }

  lemma UnpackingDone(t: Tables, data: seq<byte>, start: nat, textsize: nat, pos: nat,
                      toks: seq<Token>, h: seq<byte>, out: seq<byte>)
    requires Shaped(t) && Unpacking(t, data, start, textsize, pos, toks, h, out) && |out| >= textsize
    ensures Unpacked(t, data, start, Blank(), textsize) == Ok(out[..textsize])
  {
    hide Expand, NextToken, Shaped, ValidToken;
    NoMoreTokens(t, data, pos, textsize - |out|, toks);
    assert out[..textsize] == h[STRBUF..STRBUF + textsize];
  }

  /** Tokens already read, followed by those still to come. */
  ghost function After(toks: seq<Token>, rest: Result<seq<Token>, Error>): Result<seq<Token>, Error> {
    match rest
    case Err(e) => Err(e)
    case Ok(more) => Ok(toks + more)
  }

  lemma OneToken(t: Tables, data: seq<byte>, pos: nat, need: nat, toks: seq<Token>)
    requires Shaped(t) && need > 0
    ensures match NextToken(t, data, pos)
            case Err(e) => After(toks, Tokens(t, data, pos, need)) == Err(e)
            case Ok(s) => After(toks, Tokens(t, data, pos, need))
                          == After(toks + [s.tok], Tokens(t, data, s.next, need - TokenSize(s.tok)))
  {
    match NextToken(t, data, pos)
    case Err(e) =>
    case Ok(s) =>
      match Tokens(t, data, s.next, need - TokenSize(s.tok))
      case Err(e) =>
      case Ok(rest) => assert toks + ([s.tok] + rest) == toks + [s.tok] + rest;
  }

  lemma NoMoreTokens(t: Tables, data: seq<byte>, pos: nat, need: int, toks: seq<Token>)
    requires Shaped(t) && need <= 0
    ensures After(toks, Tokens(t, data, pos, need)) == Ok(toks)
  {
    assert toks + [] == toks;
  }

  lemma NeverBadCodeAt(t: Tables, syms: seq<nat>, lens: seq<nat>, data: seq<byte>, pos: nat)
    requires Shaped(t) && HasTables(t, syms, lens)
    ensures NextSymbol(t, data, pos) != Err(BadCode)
  {
    NeverBadCode(t, syms, lens, BitsAt(data, pos, 16));
  }

  lemma EmptyRegister(data: seq<byte>, pos: nat)
    ensures Holds(data, pos, 0, 0)
  {
    forall k: nat | k < 16
      ensures !Bit(0, k)
    {
      ZeroBit(k);
    }
  }

  /** `ln` are the lengths read so far. */
  ghost predicate Filled(ln: seq<nat>, flat: seq<nat>) {
    && |ln| == NUM_CHARS
    && (forall s | 0 <= s < NUM_CHARS :: ln[s] == if s < |flat| then flat[s] else 0)
    && (forall s | NUM_CHARS <= s < |flat| :: flat[s] == 0)
  }

  /** A run of equal code lengths; fails past the last symbol. */
  method CodeRun(ln: seq<nat>, idx: seq<nat>, curr: nat, e: byte, ghost flat: seq<nat>)
    returns (ok: bool, ln': seq<nat>, idx': seq<nat>, curr': nat)
    requires e < 128 && Filled(ln, flat) && curr == |flat| && idx == Coded(flat)
    ensures ok == (|flat| + e / 16 < NUM_CHARS)
    ensures ok ==> Filled(ln', flat + Entries(e)) && idx' == Coded(flat + Entries(e)) && curr' == |flat + Entries(e)|
  {
    hide Coded;
    ok, ln', idx', curr' := true, ln, idx, curr;
    ghost var sofar := flat;
    for n := 0 to e / 16 + 1
      invariant sofar == flat + Repeat(n, e % 16 + 1)
      invariant n > 0 ==> |sofar| <= NUM_CHARS
      invariant curr' == |sofar| && idx' == Coded(sofar)
      invariant Filled(ln', sofar)
    {
      CodedPush(sofar, e % 16 + 1);
      if curr' >= NUM_CHARS {
        ok := false;
        return;
      }
      idx' := idx' + [curr'];
      ln' := ln'[curr' := e % 16 + 1];
      curr' := curr' + 1;
      sofar := sofar + [e % 16 + 1];
    }
  }

  /** What an entry byte adds: symbols without a code, or at least one with a code. */
  lemma EntryAdds(ln: seq<nat>, flat: seq<nat>, e: byte)
    requires Filled(ln, flat)
    ensures e >= 128 ==> Filled(ln, flat + Entries(e)) && |flat + Entries(e)| == |flat| + e % 128 + 1
                         && Coded(flat + Entries(e)) == Coded(flat)
    ensures e < 128 ==> |Entries(e)| == e / 16 + 1 && (flat + Entries(e))[|flat| + e / 16] != 0
  {
    hide Coded;
    CodedSkip(flat, e % 128 + 1);
  }

  /** The rows of the tables after the first `n` symbols, and the map. */
  ghost predicate RowsUpTo(minVal: seq<nat>, mapOffset: seq<nat>, lens: seq<nat>, n: nat)
    requires LongestFirst(lens) && n <= |lens|
  {
    && |minVal| == |mapOffset| == MAX_CODE_BITS + 1
    && (forall k {:trigger ClassHead(lens, k)} | 0 <= k < n && ClassHead(lens, k) ::
          minVal[lens[k]] == Start(lens, k) % SPACE && mapOffset[lens[k]] == k)
    && (forall l | 0 <= l <= MAX_CODE_BITS && l !in lens[..n] :: minVal[l] == 0xFFFF && mapOffset[l] == 0)
  }

  ghost predicate MapUpTo(charMap: seq<nat>, syms: seq<nat>, n: nat)
    requires n <= |syms| <= NUM_CHARS
  {
    && |charMap| == NUM_CHARS
    && (forall k | 0 <= k < n :: charMap[k] == syms[k])
    && (forall k | n <= k < NUM_CHARS :: charMap[k] == 0)
  }

  /** The symbols are those of `order` from its end, and `lens` are their lengths. */
  ghost predicate Backwards(ln: seq<nat>, order: seq<nat>, syms: seq<nat>, lens: seq<nat>) {
    && 0 < |order| == |syms| == |lens| <= NUM_CHARS == |ln|
    && (forall k | 0 <= k < |syms| :: syms[k] == order[|order| - 1 - k] && syms[k] < NUM_CHARS)
    && (forall k | 0 <= k < |syms| :: lens[k] == ln[syms[k]])
  }

  lemma NoTables(lens: seq<nat>, syms: seq<nat>)
    requires LongestFirst(lens) && |syms| <= NUM_CHARS
    ensures RowsUpTo(Repeat(MAX_CODE_BITS + 1, 0xFFFF), Repeat(MAX_CODE_BITS + 1, 0), lens, 0)
    ensures MapUpTo(Repeat(NUM_CHARS, 0), syms, 0) && Counting(lens, 0, 0, 0, 0)
  {
  }

  /** The counters after `n` symbols: the code of the last one, and the step its length takes. */
  ghost predicate Counting(lens: seq<nat>, n: nat, codeval: nat, codeinc: nat, lastlen: nat)
    requires LongestFirst(lens) && n <= |lens|
  {
    if n == 0 then codeval == codeinc == lastlen == 0
    else lastlen == lens[n - 1] && codeinc == Pow2(16 - lastlen) && codeval == Start(lens, n - 1) % SPACE
  }

  lemma WrapAdd(x: nat, y: nat)
    ensures (x % SPACE + y) % SPACE == (x + y) % SPACE
  {
  }

  lemma NextStart(lens: seq<nat>, n: nat, codeval: nat, codeinc: nat, lastlen: nat)
    requires LongestFirst(lens) && n < |lens| && Counting(lens, n, codeval, codeinc, lastlen)
    ensures (codeval + codeinc) % SPACE == Start(lens, n) % SPACE
    ensures 1 <= lens[n] <= MAX_CODE_BITS
    ensures ClassHead(lens, n) <==> lens[n] != lastlen
    ensures lens[n] == lastlen ==> codeinc == Pow2(16 - lastlen)
    ensures Counting(lens, n + 1, Start(lens, n) % SPACE, Pow2(16 - lens[n]), lens[n])
  {
    hide Pow2;
    if n > 0 {
      WrapAdd(Start(lens, n - 1), codeinc);
    }
  }

  /** Numbering one more symbol: a new row if its length is new. */
  lemma NextRow(minVal: seq<nat>, mapOffset: seq<nat>, lens: seq<nat>, n: nat, lastlen: nat)
    requires LongestFirst(lens) && n < |lens| && RowsUpTo(minVal, mapOffset, lens, n)
    requires ClassHead(lens, n) <==> lens[n] != lastlen
    ensures lens[n] < |minVal| == |mapOffset|
    ensures var l := lens[n];
            if l != lastlen then
              RowsUpTo(minVal[l := Start(lens, n) % SPACE], mapOffset[l := n], lens, n + 1)
            else RowsUpTo(minVal, mapOffset, lens, n + 1)
  {
    NewLength(lens, n);
    assert lens[..n + 1] == lens[..n] + [lens[n]];
    hide LongestFirst, Start, ClassHead;
    forall k | 0 <= k < n
      ensures lens[k] in lens[..n]
    {
      assert lens[..n][k] == lens[k];
    }
  }

  lemma NewLength(lens: seq<nat>, n: nat)
    requires LongestFirst(lens) && n < |lens|
    ensures forall k | 0 <= k < |lens| :: 1 <= lens[k] <= MAX_CODE_BITS
    ensures ClassHead(lens, n) <==> lens[n] !in lens[..n]
  {
    if n > 0 {
      assert lens[..n][n - 1] == lens[n - 1];
    }
  }

  lemma NextInMap(charMap: seq<nat>, syms: seq<nat>, n: nat)
    requires n < |syms| <= NUM_CHARS && MapUpTo(charMap, syms, n)
    ensures |charMap| == NUM_CHARS && MapUpTo(charMap[n := syms[n]], syms, n + 1)
  {
  }

  lemma AllTables(t: Tables, syms: seq<nat>, lens: seq<nat>)
    requires LongestFirst(lens) && 0 < |lens| == |syms| <= NUM_CHARS
    requires RowsUpTo(t.minVal, t.mapOffset, lens, |lens|) && MapUpTo(t.charMap, syms, |lens|)
    requires t.minCodeLen == lens[|lens| - 1] && forall k | 0 <= k < |syms| :: syms[k] < NUM_CHARS
    ensures Shaped(t) && HasTables(t, syms, lens)
  {
    assert lens[..|lens|] == lens;
  }

  lemma LastSixBits(data: seq<byte>, pos: nat, i: nat, j: nat)
    requires i == BitsAt(data, pos, 8) && 1 <= j <= 6
    ensures Low(Low(Or(Shl(i, j), BitsAt(data, pos + 8, j)), 16), 6) == BitsAt(data, pos + j + 2, 6)
  {
    hide Pow2, Low, Or, Shl, BitsAt;
    BitsAtBound(data, pos + 8, j);
    OrAppends(i, j, BitsAt(data, pos + 8, j));
    BitsAtSplit(data, pos, 8, j);
    BitsAtBound(data, pos, 8 + j);
    LowWhole(BitsAt(data, pos, 8 + j), 8 + j, 16);
    BitsAtSplit(data, pos, 2 + j, 6);
    BitsAtBound(data, pos + 2 + j, 6);
    ShrLowAre(BitsAt(data, pos, 8 + j), 6, BitsAt(data, pos, 2 + j), BitsAt(data, pos + 2 + j, 6));
  }
}
