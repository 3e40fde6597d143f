/** The file read as one endless bit stream, and what the decoder's shift register holds of it. */
module BitStream {
  import opened Bits

  /** Reading past the end of the file gives zero bytes. */
  function ByteAt(data: seq<byte>, i: nat): byte {
    if i < |data| then data[i] else 0
  }

  /** Bit `k` of the stream, most significant bit of each byte first. */
  predicate StreamBit(data: seq<byte>, k: nat) {
    Bit(ByteAt(data, k / 8), 7 - k % 8)
  }

  /** The `n` stream bits from `pos` on, read as a number. */
  function BitsAt(data: seq<byte>, pos: nat, n: nat): nat {
    if n == 0 then 0
    else 2 * BitsAt(data, pos, n - 1) + (if StreamBit(data, pos + n - 1) then 1 else 0)
  }

  lemma {:induction false} BitsAtBound(data: seq<byte>, pos: nat, n: nat)
    ensures BitsAt(data, pos, n) < Pow2(n)
  {
    if n > 0 {
      BitsAtBound(data, pos, n - 1);
    }
  }

  lemma {:induction false} BitsAtSplit(data: seq<byte>, pos: nat, m: nat, n: nat)
    ensures BitsAt(data, pos, m + n) == BitsAt(data, pos, m) * Pow2(n) + BitsAt(data, pos + m, n)
  {
    if n > 0 {
      BitsAtSplit(data, pos, m, n - 1);
      DoubleProduct(BitsAt(data, pos, m), Pow2(n - 1));
    }
  }

  /** A number below 2^n whose bits are the stream's is the number the stream spells. */
  lemma {:induction false} SpellsBits(data: seq<byte>, pos: nat, n: nat, x: nat)
    requires x < Pow2(n)
    requires forall k: nat | k < n :: Bit(x, k) == StreamBit(data, pos + n - 1 - k)
    ensures x == BitsAt(data, pos, n)
  {
    if n > 0 {
      forall k: nat | k < n - 1
        ensures Bit(x / 2, k) == StreamBit(data, pos + (n - 1) - 1 - k)
      {
        assert Bit(x, k + 1) == StreamBit(data, pos + n - 1 - (k + 1));
      }
      SpellsBits(data, pos, n - 1, x / 2);
      assert Bit(x, 0) == StreamBit(data, pos + n - 1);
    }
  }

  lemma ByteHighBit(b: byte, k: nat)
    requires k >= 8
    ensures !Bit(b, k)
  {
    assert Pow2(8) == 256;
    HighBitClear(b, 8, k);
  }

  /** Bit `k` of byte `at` is a stream bit. */
  lemma ByteBit(data: seq<byte>, at: nat, k: nat)
    requires k < 8
    ensures Bit(ByteAt(data, at), k) == StreamBit(data, 8 * at + 7 - k)
  {
  }

  /** The 16-bit register `buf` holds the stream from `pos` on: its leading `len` bits are the stream's.
      Below them it may hold stale bits, and every one of those that is set agrees with the stream. */
  ghost predicate Holds(data: seq<byte>, pos: nat, buf: nat, len: nat) {
    && len <= 16
    && buf < Pow2(16)
    && forall k: nat | k < 16 ::
         && (Bit(buf, k) ==> StreamBit(data, pos + 15 - k))
         && (16 - len <= k && StreamBit(data, pos + 15 - k) ==> Bit(buf, k))
  }

  lemma ShiftOut(data: seq<byte>, pos: nat, buf: nat, len: nat, n: nat)
    requires Holds(data, pos, buf, len) && n <= len
    ensures Holds(data, pos + n, Low(Shl(buf, n), 16), len - n)
  {
    hide Bit, Low, Shl, StreamBit;
    var shifted := Low(Shl(buf, n), 16);
    LowBound(Shl(buf, n), 16);
    forall k: nat | k < 16
      ensures Bit(shifted, k) == (k >= n && Bit(buf, k - n))
    {
      LowBit(Shl(buf, n), 16, k);
      ShlBit(buf, n, k);
    }
    forall k: nat | k < 16
      ensures Bit(shifted, k) ==> StreamBit(data, pos + n + 15 - k)
      ensures 16 - (len - n) <= k && StreamBit(data, pos + n + 15 - k) ==> Bit(shifted, k)
    {
      if k >= n {
        assert pos + n + 15 - k == pos + 15 - (k - n);
        assert Bit(buf, k - n) ==> StreamBit(data, pos + 15 - (k - n));
      }
    }
  }

  /** OR-ing in bits of the stream extends what the register holds, whatever stale bits they meet. */
  lemma OrIn(data: seq<byte>, pos: nat, buf: nat, len: nat, extra: nat, newLen: nat)
    requires Holds(data, pos, buf, len) && len <= newLen <= 16
    requires forall k: nat | k < 16 ::
               && (Bit(extra, k) ==> StreamBit(data, pos + 15 - k))
               && (16 - newLen <= k < 16 - len && StreamBit(data, pos + 15 - k) ==> Bit(extra, k))
    ensures Holds(data, pos, Low(Or(buf, extra), 16), newLen)
  {
    hide Bit, Low, Or, StreamBit;
    var filled := Low(Or(buf, extra), 16);
    LowBound(Or(buf, extra), 16);
    forall k: nat | k < 16
      ensures Bit(filled, k) == (Bit(buf, k) || Bit(extra, k))
    {
      LowBit(Or(buf, extra), 16, k);
      OrBit(buf, extra, k);
    }
  }

  lemma HoldLess(data: seq<byte>, pos: nat, buf: nat, len: nat, less: nat)
    requires Holds(data, pos, buf, len) && less <= len
    ensures Holds(data, pos, buf, less)
  {
  }

  /** A full register is the 16-bit number the stream spells. */
  lemma FullRegister(data: seq<byte>, pos: nat, buf: nat)
    requires Holds(data, pos, buf, 16)
    ensures buf == BitsAt(data, pos, 16)
  {
    hide Bit, StreamBit, BitsAt;
    forall k: nat | k < 16
      ensures Bit(buf, k) == StreamBit(data, pos + 16 - 1 - k)
    {
      assert Bit(buf, k) ==> StreamBit(data, pos + 15 - k);
    }
    SpellsBits(data, pos, 16, buf);
  }

  // ---- the byte held behind the register: it is byte `at`, and `pos + len` is its first bit ----

  /** `getbuf | secondbuf << (8 - getlen)` */
  lemma FillByte(data: seq<byte>, pos: nat, buf: nat, len: nat, at: nat)
    requires Holds(data, pos, buf, len) && len <= 8 && pos + len == 8 * at
    ensures Holds(data, pos, Low(Or(buf, Shl(ByteAt(data, at), 8 - len)), 16), len + 8)
  {
    hide Bit, Shl, StreamBit, ByteAt;
    var second := ByteAt(data, at);
    var extra := Shl(second, 8 - len);
    forall k: nat | k < 16
      ensures Bit(extra, k) ==> StreamBit(data, pos + 15 - k)
      ensures 16 - (len + 8) <= k < 16 - len && StreamBit(data, pos + 15 - k) ==> Bit(extra, k)
    {
      ShlBit(second, 8 - len, k);
      if k >= 8 - len {
        var j := k - (8 - len);
        if j < 8 {
          ByteBit(data, at, j);
          assert 8 * at + 7 - j == pos + 15 - k;
        } else {
          ByteHighBit(second, j);
        }
      }
    }
    OrIn(data, pos, buf, len, extra, len + 8);
  }

  /** `getbuf | secondbuf >> spare` tops the register up with the leading bits of the next byte. */
  lemma TopUp(data: seq<byte>, pos: nat, buf: nat, len: nat, at: nat)
    requires Holds(data, pos, buf, len) && 8 <= len && pos + len == 8 * at
    ensures Holds(data, pos, Low(Or(buf, Shr(ByteAt(data, at), len - 8)), 16), 16)
  {
    hide Bit, Shr, StreamBit, ByteAt;
    var second := ByteAt(data, at);
    var extra := Shr(second, len - 8);
    forall k: nat | k < 16
      ensures Bit(extra, k) ==> StreamBit(data, pos + 15 - k)
      ensures k < 16 - len && StreamBit(data, pos + 15 - k) ==> Bit(extra, k)
    {
      ShrBit(second, len - 8, k);
      var j := len - 8 + k;
      if j < 8 {
        ByteBit(data, at, j);
        assert 8 * at + 7 - j == pos + 15 - k;
      } else {
        ByteHighBit(second, j);
      }
    }
    OrIn(data, pos, buf, len, extra, 16);
  }

  /** The register after a symbol of `codelen` bits that ended inside the byte behind it: the low `spare`
      bits of that byte go below the `16 - codelen` bits the register still holds. */
  lemma FillRest(data: seq<byte>, pos: nat, buf: nat, spare: nat, codelen: nat, at: nat)
    requires spare <= codelen <= 16 && spare <= 8
    requires Holds(data, pos, buf, 16 - codelen)
    requires pos + 16 - codelen + spare == 8 * at + 8
    ensures Holds(data, pos, Low(Or(buf, Shl(Low(ByteAt(data, at), spare), codelen - spare)), 16), 16 - codelen + spare)
  {
    hide Bit, Low, Shl, StreamBit, ByteAt;
    var second := ByteAt(data, at);
    var extra := Shl(Low(second, spare), codelen - spare);
    forall k: nat | k < 16
      ensures Bit(extra, k) ==> StreamBit(data, pos + 15 - k)
      ensures codelen - spare <= k < codelen && StreamBit(data, pos + 15 - k) ==> Bit(extra, k)
    {
      ShlBit(Low(second, spare), codelen - spare, k);
      if k >= codelen - spare {
        var j := k - (codelen - spare);
        LowBit(second, spare, j);
        if j < spare {
          ByteBit(data, at, j);
          assert 8 * at + 7 - j == pos + 15 - k;
        }
      }
    }
    OrIn(data, pos, buf, 16 - codelen, extra, 16 - codelen + spare);
  }

  /** The register after a byte was taken across its end: what is left of the byte behind it. */
  lemma KeepRest(data: seq<byte>, pos: nat, len: nat, at: nat)
    requires len < 8 && pos + len == 8 * at + 8
    ensures Holds(data, pos, Low(Shl(ByteAt(data, at), 16 - len), 16), len)
  {
    hide Bit, Low, Shl, StreamBit, ByteAt;
    var second := ByteAt(data, at);
    var rest := Low(Shl(second, 16 - len), 16);
    LowBound(Shl(second, 16 - len), 16);
    forall k: nat | k < 16
      ensures Bit(rest, k) ==> StreamBit(data, pos + 15 - k)
      ensures 16 - len <= k && StreamBit(data, pos + 15 - k) ==> Bit(rest, k)
    {
      LowBit(Shl(second, 16 - len), 16, k);
      ShlBit(second, 16 - len, k);
      if k >= 16 - len {
        var j := k - (16 - len);
        ByteBit(data, at, j);
        assert 8 * at + 7 - j == pos + 15 - k;
      }
    }
  }

  /** The leading byte of a register that holds at least eight bits. */
  lemma LeadingByte(data: seq<byte>, pos: nat, buf: nat, len: nat)
    requires Holds(data, pos, buf, len) && len >= 8
    ensures Low(Shr(buf, 8), 8) == BitsAt(data, pos, 8)
  {
    LeadingBits(data, pos, buf, len, 8);
    BitsAtBound(data, pos, 8);
    ShrLowAre(Shr(buf, 8), 8, 0, Shr(buf, 8));
  }

  /** `getbuf >> (16 - n)` is the next `n` bits, if the register holds them. */
  lemma LeadingBits(data: seq<byte>, pos: nat, buf: nat, len: nat, n: nat)
    requires Holds(data, pos, buf, len) && n <= len
    ensures Shr(buf, 16 - n) == BitsAt(data, pos, n)
  {
    hide Bit, Shr, BitsAt, StreamBit;
    var lead := Shr(buf, 16 - n);
    forall k: nat
      ensures Bit(lead, k) == (k < n && StreamBit(data, pos + n - 1 - k))
    {
      ShrBit(buf, 16 - n, k);
      var j := 16 - n + k;
      if j < 16 {
        assert Bit(buf, j) ==> StreamBit(data, pos + 15 - j);
      } else {
        HighBitClear(buf, 16, j);
      }
    }
    ShrBound(buf, 16 - n, n);
    SpellsBits(data, pos, n, lead);
  }

  lemma {:induction false} ShrBound(x: nat, m: nat, n: nat)
    requires x < Pow2(m + n)
    ensures Shr(x, m) < Pow2(n)
  {
    if m > 0 {
      ShrBound(x / 2, m - 1, n);
    }
  }

  /** A byte taken across the end of the register: its bits, then the leading ones of the byte behind. */
  lemma StraddlingByte(data: seq<byte>, pos: nat, buf: nat, len: nat, at: nat)
    requires Holds(data, pos, buf, len) && len < 8 && pos + len == 8 * at
    ensures Low(Or(Shr(buf, 8), Shr(ByteAt(data, at), len)), 8) == BitsAt(data, pos, 8)
  {
    hide Bit, Low, Or, Shr, BitsAt, StreamBit, ByteAt;
    var second := ByteAt(data, at);
    var both := Or(Shr(buf, 8), Shr(second, len));
    LowBound(both, 8);
    forall k: nat | k < 8
      ensures Bit(Low(both, 8), k) == StreamBit(data, pos + 8 - 1 - k)
    {
      LowBit(both, 8, k);
      OrBit(Shr(buf, 8), Shr(second, len), k);
      ShrBit(buf, 8, k);
      ShrBit(second, len, k);
      assert Bit(buf, 8 + k) ==> StreamBit(data, pos + 15 - (8 + k));
      if len + k < 8 {
        ByteBit(data, at, len + k);
        assert 8 * at + 7 - (len + k) == pos + 7 - k;
      } else {
        ByteHighBit(second, len + k);
      }
    }
    SpellsBits(data, pos, 8, Low(both, 8));
  }
}
