/** The text of a `wpack` member byte by byte: what a literal adds to it, and what a match does. */
module WpackText {
  import opened Wrappers
  import opened Bits
  import opened BitStream
  import opened ShannonCode
  import opened CodeWords
  import opened PositionCode
  import opened Lzss
  import opened WpackStream
  import opened WpackEncode

  /** `text` goes in front of what is unpacked behind it. */
  function Before(text: seq<byte>, rest: Result<seq<byte>, Error>): Result<seq<byte>, Error> {
    match rest
    case Err(e) => Err(e)
    case Ok(more) => Ok(text + more)
  }

  lemma Written(h: seq<byte>, g: seq<byte>, all: seq<byte>, need: nat)
    requires h <= g <= all && |h| + need <= |all|
    ensures need <= |g| - |h| ==> all[|h|..|h| + need] == g[|h|..|h| + need]
    ensures need > |g| - |h| ==> all[|h|..|h| + need] == g[|h|..] + all[|g|..|h| + need]
  {
  }

  /** One token: the bytes it makes come first, and the rest is what is unpacked behind it. */
  lemma OneTokenUnpacks(t: Tables, data: seq<byte>, pos: nat, h: seq<byte>, need: nat)
    requires Shaped(t) && |h| >= STRBUF && need > 0 && NextToken(t, data, pos).Ok?
    ensures var s := NextToken(t, data, pos).value;
            var g := Extend(h, s.tok);
            Unpacked(t, data, pos, h, need)
            == if need <= TokenSize(s.tok) then Ok(g[|h|..|h| + need])
               else Before(g[|h|..], Unpacked(t, data, s.next, g, need - TokenSize(s.tok)))
  {
    hide NextToken, Extend, Shaped, ValidToken, Expand;
    var s := NextToken(t, data, pos).value;
    var g, left := Extend(h, s.tok), need - TokenSize(s.tok);
    var rest := Tokens(t, data, s.next, left);
    if rest.Ok? {
      TokensSuffice(t, data, pos, need);
      ExpandFirst(h, s.tok, rest.value);
      ExpandLength(h, [s.tok] + rest.value);
      Written(h, g, Expand(g, rest.value), need);
    }
  }

  lemma ExpandFirst(h: seq<byte>, tok: Token, rest: seq<Token>)
    requires |h| >= STRBUF && ValidToken(tok) && AllValid(rest)
    ensures AllValid([tok] + rest)
    ensures Expand(h, [tok] + rest) == Expand(Extend(h, tok), rest)
  {
    assert ([tok] + rest)[1..] == rest;
  }

  // ---- literals ----

  /** A symbol below 256 is a byte of the text. */
  lemma LiteralUnpacks(t: Tables, syms: seq<nat>, lens: seq<nat>, data: seq<byte>, pos: nat, k: nat, h: seq<byte>, need: nat)
    requires Shaped(t) && HasTables(t, syms, lens) && LongestFirst(lens) && Aligned(lens) && |syms| == |lens|
    requires SymbolAt(data, pos, lens, k) && syms[k] < 256 && |h| >= 4096 && need > 0
    ensures Unpacked(t, data, pos, h, need)
            == Before([syms[k]], Unpacked(t, data, pos + lens[k], h + [syms[k]], need - 1))
  {
    hide Unpacked, HasTables, Aligned, Shaped, BitsAt, CodeWord, LongestFirst, NextToken;
    var tok := Literal(syms[k]);
    assert Spells(data, pos, syms, lens, k, tok, pos + lens[k]);
    TablesReadSpelledToken(t, syms, lens, data, pos, tok, pos + lens[k]);
    OneTokenUnpacks(t, data, pos, h, need);
    NothingLeft(t, data, pos + lens[k], h + [syms[k]]);
    var g := h + [syms[k]];
    assert g[|h|..] == g[|h|..|h| + 1] == [syms[k]] == [syms[k]] + [];
  }

  lemma NothingLeft(t: Tables, data: seq<byte>, pos: nat, h: seq<byte>)
    requires Shaped(t) && |h| >= STRBUF
    ensures Unpacked(t, data, pos, h, 0) == Ok([])
  {
  }

  // ---- matches ----

  /** Byte `i` of a match is the one `dist` before it, in the match itself or in the history. */
  predicate FromBefore(h: seq<byte>, m: seq<byte>, dist: nat, i: nat)
    requires 1 <= dist <= |h| && i < |m|
  {
    m[i] == (if i < dist then h[|h| - dist + i] else m[i - dist])
  }

  /** `n` bytes of the history from `dist` back on; where it ends they start again. */
  function Repeated(h: seq<byte>, n: nat, dist: nat): (m: seq<byte>)
    requires 1 <= dist <= |h|
    ensures |m| == n && forall i: nat | i < n :: FromBefore(h, m, dist, i)
  {
    if n == 0 then []
    else
      var m := Repeated(h, n - 1, dist);
      var r := m + [if n - 1 < dist then h[|h| - dist + n - 1] else m[n - 1 - dist]];
      assert forall i: nat | i < n - 1 :: FromBefore(h, r, dist, i) by {
        forall i: nat | i < n - 1
          ensures FromBefore(h, r, dist, i)
        {
          assert FromBefore(h, m, dist, i);
        }
      }
      r
  }

  lemma RepeatedByte(h: seq<byte>, n: nat, b: byte)
    requires h != [] && h[|h| - 1] == b
    ensures Repeated(h, n, 1) == seq(n, _ => b)
  {
    hide Repeated;
    var m := Repeated(h, n, 1);
    for i := 0 to n
      invariant forall j | 0 <= j < i :: m[j] == b
    {
      assert FromBefore(h, m, 1, i);
    }
  }

  lemma CopyRepeats(h: seq<byte>, n: nat, dist: nat)
    requires 1 <= dist <= |h|
    ensures CopyBytes(h, n, dist) == h + Repeated(h, n, dist)
  {
    hide CopyBytes, Repeated;
    var m := Repeated(h, n, dist);
    forall i | |h| <= i < |h + m|
      ensures (h + m)[i] == (h + m)[i - dist]
    {
      assert FromBefore(h, m, dist, i - |h|);
    }
    CopyIsPeriodic(h, n, dist, h + m);
  }

  /** What a match finds before the text is spaces. */
  lemma BlankRepeats(n: nat, dist: nat)
    requires 1 <= dist <= 4096
    ensures |Blank()| == 4096 && Repeated(Blank(), n, dist) == seq(n, _ => 32)
  {
    hide Repeated;
    var m := Repeated(Blank(), n, dist);
    for i := 0 to n
      invariant forall j | 0 <= j < i :: m[j] == 32
    {
      assert FromBefore(Blank(), m, dist, i);
    }
  }

  /** A symbol `c` from 256 on, with a position behind it, is a match of exactly `c - 253` bytes. */
  lemma MatchUnpacks(t: Tables, syms: seq<nat>, lens: seq<nat>, data: seq<byte>, pos: nat, k: nat, x: nat, h: seq<byte>, need: nat)
    requires Shaped(t) && HasTables(t, syms, lens) && LongestFirst(lens) && Aligned(lens) && |syms| == |lens|
    requires SymbolAt(data, pos, lens, k) && 256 <= syms[k] && PositionAt(data, pos + lens[k], x)
    requires |h| >= 4096 && need > 0
    ensures 3 <= syms[k] - 253 <= 60
    ensures var n := syms[k] - 253;
            var m, next := Repeated(h, n, x + 1), pos + lens[k] + WordLen(x / 64) + 6;
            Unpacked(t, data, pos, h, need)
            == if need <= n then Ok(m[..need]) else Before(m, Unpacked(t, data, next, h + m, need - n))
  {
    hide Unpacked, HasTables, Aligned, Shaped, BitsAt, CodeWord, LongestFirst, NextToken, CopyBytes, WordLen, Word, Repeated;
    MatchSymbolBound(t, syms, lens, k);
    var n := syms[k] - 253;
    var tok, next := Copy(n, x + 1), pos + lens[k] + WordLen(x / 64) + 6;
    assert Spells(data, pos, syms, lens, k, tok, next);
    TablesReadSpelledToken(t, syms, lens, data, pos, tok, next);
    OneTokenUnpacks(t, data, pos, h, need);
    CopyRepeats(h, n, x + 1);
    var m := Repeated(h, n, x + 1);
    assert (h + m)[|h|..] == m;
    assert need <= n ==> (h + m)[|h|..|h| + need] == m[..need];
  }

  lemma MatchSymbolBound(t: Tables, syms: seq<nat>, lens: seq<nat>, k: nat)
    requires Shaped(t) && HasTables(t, syms, lens) && k < |syms|
    ensures syms[k] <= 313
  {
    assert t.charMap[k] == syms[k];
  }

  /** Every length from 3 to 60 has one symbol, and no other length has one. */
  lemma MatchSymbols(len: nat, dist: nat)
    ensures ValidToken(Copy(len, dist)) && TokenSymbol(Copy(len, dist)) < 314
            <==> 3 <= len <= 60 && 1 <= dist <= 4096
    ensures ValidToken(Copy(len, dist)) ==> TokenSymbol(Copy(len, dist)) == len + 253
  {
  }

  /** A literal and a match of the byte just written: the byte is there once and `c - 253` times more. */
  lemma RunOfOneByte(t: Tables, syms: seq<nat>, lens: seq<nat>, data: seq<byte>, pos: nat, j: nat, k: nat, h: seq<byte>, more: nat)
    requires Shaped(t) && HasTables(t, syms, lens) && LongestFirst(lens) && Aligned(lens) && |syms| == |lens|
    requires SymbolAt(data, pos, lens, j) && syms[j] < 256 && SymbolAt(data, pos + lens[j], lens, k) && syms[k] >= 256
    requires PositionAt(data, pos + lens[j] + lens[k], 0) && |h| >= 4096
    ensures 256 <= syms[k] <= 313
    ensures var run: seq<byte> := seq(syms[k] - 252, _ => syms[j]);
            Unpacked(t, data, pos, h, |run| + more)
            == Before(run, Unpacked(t, data, pos + lens[j] + lens[k] + 9, h + run, more))
  {
    hide Unpacked, HasTables, Aligned, Shaped, BitsAt, CodeWord, LongestFirst, PositionAt, Repeated;
    MatchSymbolBound(t, syms, lens, k);
    var b: byte := syms[j];
    var run: seq<byte> := seq(syms[k] - 252, _ => b);
    LiteralUnpacks(t, syms, lens, data, pos, j, h, |run| + more);
    MatchUnpacks(t, syms, lens, data, pos + lens[j], k, 0, h + [b], |run| - 1 + more);
    var m := Repeated(h + [b], syms[k] - 253, 1);
    RepeatedByte(h + [b], syms[k] - 253, b);
    assert [b] + m == run;
    assert h + [b] + m == h + run;
    assert m[..|m|] == m;
    NothingLeft(t, data, pos + lens[j] + lens[k] + 9, h + run);
    BeforeTwo([b], m, Unpacked(t, data, pos + lens[j] + lens[k] + 9, h + run, more));
    assert Before(run, Ok([])) == Ok(run) by { assert run + [] == run; }
  }

  lemma BeforeTwo(a: seq<byte>, b: seq<byte>, rest: Result<seq<byte>, Error>)
    ensures Before(a, Before(b, rest)) == Before(a + b, rest)
  {
    if rest.Ok? {
      assert a + (b + rest.value) == a + b + rest.value;
    }
  }
}
