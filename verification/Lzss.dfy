/** LZSS: tokens, what they stand for over an unbounded history, and the 4096-byte ring that replaces it. */
module Lzss {
  import opened Bits

  const STRBUF := 4096
  const LAHEAD := 60
  const THRESHOLD := 2

  datatype Token = Literal(b: byte) | Copy(len: nat, dist: nat)

  /** The window a decoder starts from: spaces. */
  function Blank(): (h: seq<byte>)
    ensures |h| == STRBUF && forall i | 0 <= i < STRBUF :: h[i] == 32
  {
    seq(STRBUF, _ => 32)
  }

  predicate ValidToken(tok: Token) {
    tok.Copy? ==> tok.len > THRESHOLD && 1 <= tok.dist <= STRBUF
  }

  predicate AllValid(toks: seq<Token>) {
    forall k | 0 <= k < |toks| :: ValidToken(toks[k])
  }

  function TokenSize(tok: Token): nat {
    if tok.Literal? then 1 else tok.len
  }

  /** Copying byte by byte: a copy longer than its distance repeats what it has just written. */
  function CopyBytes(h: seq<byte>, len: nat, dist: nat): (r: seq<byte>)
    requires 1 <= dist <= |h|
    ensures |r| == |h| + len && h <= r
    decreases len
  {
    if len == 0 then h else CopyBytes(h + [h[|h| - dist]], len - 1, dist)
  }

  function Extend(h: seq<byte>, tok: Token): (r: seq<byte>)
    requires |h| >= STRBUF && ValidToken(tok)
    ensures |r| == |h| + TokenSize(tok) && h <= r
  {
    match tok
    case Literal(b) => h + [b]
    case Copy(len, dist) => CopyBytes(h, len, dist)
  }

  /** The history after all the tokens, from the history `h`. */
  function Expand(h: seq<byte>, toks: seq<Token>): (r: seq<byte>)
    requires |h| >= STRBUF && AllValid(toks)
    ensures h <= r
    decreases toks
  {
    if toks == [] then h else Expand(Extend(h, toks[0]), toks[1..])
  }

  function TotalSize(toks: seq<Token>): nat {
    if toks == [] then 0 else TokenSize(toks[0]) + TotalSize(toks[1..])
  }

  lemma {:induction false} ExpandLength(h: seq<byte>, toks: seq<Token>)
    requires |h| >= STRBUF && AllValid(toks)
    ensures |Expand(h, toks)| == |h| + TotalSize(toks)
    decreases toks
  {
    if toks != [] {
      ExpandLength(Extend(h, toks[0]), toks[1..]);
    }
  }

  /** A copy is the one continuation of the history in which every new byte equals the one `dist` before. */
  lemma {:induction false} CopyIsPeriodic(h: seq<byte>, len: nat, dist: nat, r: seq<byte>)
    requires 1 <= dist <= |h|
    ensures r == CopyBytes(h, len, dist) <==>
            |r| == |h| + len && h <= r && forall i | |h| <= i < |r| :: r[i] == r[i - dist]
    decreases len
  {
    if len > 0 {
      var g := h + [h[|h| - dist]];
      CopyIsPeriodic(g, len - 1, dist, r);
      if r == CopyBytes(h, len, dist) {
        assert g <= r;
        assert r[|h|] == g[|h|] && r[|h| - dist] == g[|h| - dist];
      }
    }
  }

  /** The ring `tb` with write index `r` holds the last 4096 bytes of the history `h`. */
  ghost predicate Ring(tb: seq<byte>, r: nat, h: seq<byte>) {
    && |tb| == STRBUF <= |h|
    && r == (|h| + STRBUF - LAHEAD) % STRBUF
    && forall i | |h| - STRBUF <= i < |h| :: tb[(i + STRBUF - LAHEAD) % STRBUF] == h[i]
  }

  lemma RingPush(tb: seq<byte>, r: nat, h: seq<byte>, ch: byte)
    requires Ring(tb, r, h)
    ensures r < |tb| && Ring(tb[r := ch], (r + 1) % STRBUF, h + [ch])
  {
  }

  /** A ring index that is `dist` behind the write index reads the history `dist` back. */
  lemma RingRead(tb: seq<byte>, r: nat, h: seq<byte>, i: nat, dist: nat)
    requires Ring(tb, r, h) && 1 <= dist <= STRBUF && i == (r - dist) % STRBUF
    ensures tb[i] == h[|h| - dist]
  {
    assert tb[(|h| - dist + STRBUF - LAHEAD) % STRBUF] == h[|h| - dist];
  }

  lemma RingIndex(tb: seq<byte>, r: nat, h: seq<byte>, i: nat, k: nat, start: nat, dist: nat)
    requires Ring(tb, r, h) && |h| == start + k && start >= STRBUF
    requires i == (start + STRBUF - LAHEAD - dist) % STRBUF
    ensures r < STRBUF && (i + k) % STRBUF == (r - dist) % STRBUF
  {
    ModAdd(start + STRBUF - LAHEAD - dist, k);
    var back: int := 0 - dist;
    ModAdd(|h| + STRBUF - LAHEAD, back);
  }

  lemma ModAdd(x: int, y: int)
    ensures (x % STRBUF + y) % STRBUF == (x + y) % STRBUF
  {
    var q := x / STRBUF;
    assert x + y == (x % STRBUF + y) + q * STRBUF;
  }

  lemma RingStart(tb: seq<byte>, r: nat, h: seq<byte>, i: nat, dist: nat)
    requires Ring(tb, r, h) && dist <= STRBUF && i == (r - dist) % STRBUF
    ensures |h| >= STRBUF && i == (|h| + STRBUF - LAHEAD - dist) % STRBUF
  {
    var back: int := 0 - dist;
    ModAdd(|h| + STRBUF - LAHEAD, back);
  }

  lemma CopyStep(h: seq<byte>, len: nat, dist: nat)
    requires 1 <= dist <= |h|
    ensures CopyBytes(h, 0, dist) == h
    ensures len > 0 ==> CopyBytes(h, len, dist) == CopyBytes(h + [h[|h| - dist]], len - 1, dist)
  {
  }

  lemma BlankRing(tb: seq<byte>)
    requires |tb| == STRBUF && forall i | 0 <= i < STRBUF :: tb[i] == 32
    ensures Ring(tb, STRBUF - LAHEAD, Blank())
  {
  }

  lemma {:induction false} ExpandSnoc(h: seq<byte>, toks: seq<Token>, tok: Token)
    requires |h| >= STRBUF && ValidToken(tok) && AllValid(toks)
    ensures AllValid(toks + [tok])
    ensures Expand(h, toks + [tok]) == Extend(Expand(h, toks), tok)
    decreases toks
  {
    if toks == [] {
      assert toks + [tok] == [tok];
    } else {
      ExpandSnoc(Extend(h, toks[0]), toks[1..], tok);
      assert (toks + [tok])[1..] == toks[1..] + [tok];
    }
  }
}
