/** The bit operators of Python's integers on natural numbers, and what each does to single bits. */
module Bits {
  type byte = x: nat | x < 256

  function Pow2(n: nat): (r: nat)
    ensures r > 0
  {
    if n == 0 then 1 else 2 * Pow2(n - 1)
  }

  /** Bit `k` of `x`; bit 0 is the least significant one. */
  predicate Bit(x: nat, k: nat) {
    if k == 0 then x % 2 == 1 else Bit(x / 2, k - 1)
  }

  /** `x << n` */
  function Shl(x: nat, n: nat): nat {
    if n == 0 then x else 2 * Shl(x, n - 1)
  }

  /** `x >> n` */
  function Shr(x: nat, n: nat): nat {
    if n == 0 then x else Shr(x / 2, n - 1)
  }

  /** `x & (2^n - 1)` */
  function Low(x: nat, n: nat): nat {
    if n == 0 then 0 else x % 2 + 2 * Low(x / 2, n - 1)
  }

  /** `x | y` */
  function Or(x: nat, y: nat): nat
    decreases x + y
  {
    if x == 0 then y
    else if y == 0 then x
    else (if x % 2 == 1 || y % 2 == 1 then 1 else 0) + 2 * Or(x / 2, y / 2)
  }

  lemma Pow2Values()
    ensures Pow2(4) == 16 && Pow2(6) == 64 && Pow2(8) == 256 && Pow2(16) == 0x10000
  {
    assert Pow2(4) == 16 && Pow2(2) == 4;
    Pow2Add(2, 4);
    Pow2Add(4, 4);
    Pow2Add(8, 8);
  }

  lemma Distribute(a: int, b: int, s: int)
    ensures (a + b) * s == a * s + b * s
    ensures (a - b) * s == a * s - b * s
  {
  }

  // ---- what the operators do to single bits ----

  lemma {:induction false} ShlBit(x: nat, n: nat, k: nat)
    ensures Bit(Shl(x, n), k) == (k >= n && Bit(x, k - n))
  {
    if n > 0 && k > 0 {
      ShlBit(x, n - 1, k - 1);
    }
  }

  lemma {:induction false} ShrBit(x: nat, n: nat, k: nat)
    ensures Bit(Shr(x, n), k) == Bit(x, n + k)
  {
    if n > 0 {
      ShrBit(x / 2, n - 1, k);
    }
  }

  lemma {:induction false} LowBit(x: nat, n: nat, k: nat)
    ensures Bit(Low(x, n), k) == (k < n && Bit(x, k))
  {
    if n == 0 {
      ZeroBit(k);
    } else {
      assert Low(x, n) / 2 == Low(x / 2, n - 1);
      if k > 0 {
        LowBit(x / 2, n - 1, k - 1);
      }
    }
  }

  lemma {:induction false} OrBit(x: nat, y: nat, k: nat)
    ensures Bit(Or(x, y), k) == (Bit(x, k) || Bit(y, k))
    decreases x + y
  {
    if x == 0 || y == 0 {
      ZeroBit(k);
    } else {
      assert Or(x, y) / 2 == Or(x / 2, y / 2);
      if k > 0 {
        OrBit(x / 2, y / 2, k - 1);
      }
    }
  }

  lemma {:induction false} ZeroBit(k: nat)
    ensures !Bit(0, k)
  {
    if k > 0 {
      ZeroBit(k - 1);
    }
  }

  lemma {:induction false} HighBitClear(x: nat, n: nat, k: nat)
    requires x < Pow2(n) && k >= n
    ensures !Bit(x, k)
  {
    if n == 0 {
      ZeroBit(k);
    } else {
      HighBitClear(x / 2, n - 1, k - 1);
    }
  }

  // ---- what the operators do to the number ----

  lemma {:induction false} Pow2Add(m: nat, n: nat)
    ensures Pow2(m + n) == Pow2(m) * Pow2(n)
  {
    if m > 0 {
      Pow2Add(m - 1, n);
      DoubleProduct(Pow2(m - 1), Pow2(n));
    }
  }

  lemma {:induction false} LowBound(x: nat, n: nat)
    ensures Low(x, n) < Pow2(n)
  {
    if n > 0 {
      LowBound(x / 2, n - 1);
    }
  }

  lemma {:induction false} LowWhole(x: nat, m: nat, n: nat)
    requires x < Pow2(m) && m <= n
    ensures Low(x, n) == x
  {
    if n > 0 {
      LowWhole(x / 2, if m > 0 then m - 1 else 0, n - 1);
    }
  }

  /** The shift and the mask are division and remainder by a power of two. */
  lemma {:induction false} ShrLow(x: nat, n: nat)
    ensures x == Shr(x, n) * Pow2(n) + Low(x, n)
  {
    if n > 0 {
      ShrLow(x / 2, n - 1);
      DoubleProduct(Shr(x, n), Pow2(n - 1));
    }
  }

  lemma DoubleProduct(a: nat, p: nat)
    ensures 2 * (a * p) == a * (2 * p) == (2 * a) * p
  {
  }

  lemma MulAtLeast(d: nat, p: nat)
    requires d > 0
    ensures d * p >= p
  {
  }

  /** `q * p + r` with `r` below `p` splits in one way only. */
  lemma SplitUnique(q: nat, r: nat, q': nat, r': nat, p: nat)
    requires r < p && r' < p
    requires q * p + r == q' * p + r'
    ensures q == q' && r == r'
  {
    Distribute(q', q, p);
    if q < q' {
      MulAtLeast(q' - q, p);
    } else if q' < q {
      Distribute(q, q', p);
      MulAtLeast(q - q', p);
    }
  }

  lemma ShrLowAre(x: nat, n: nat, q: nat, r: nat)
    requires x == q * Pow2(n) + r && r < Pow2(n)
    ensures Shr(x, n) == q && Low(x, n) == r
  {
    ShrLow(x, n);
    LowBound(x, n);
    SplitUnique(Shr(x, n), Low(x, n), q, r, Pow2(n));
  }

  lemma {:induction false} ShlIs(x: nat, n: nat)
    ensures Shl(x, n) == x * Pow2(n)
  {
    if n > 0 {
      ShlIs(x, n - 1);
      DoubleProduct(x, Pow2(n - 1));
    }
  }

  /** `x << n | y` is concatenation when `y` fits below the shift. */
  lemma {:induction false} OrAppends(x: nat, n: nat, y: nat)
    requires y < Pow2(n)
    ensures Or(Shl(x, n), y) == x * Pow2(n) + y
  {
    ShlIs(x, n);
    if n > 0 && y > 0 && x > 0 {
      MulAtLeast(x, Pow2(n));
      OrAppends(x, n - 1, y / 2);
      OrHalves(Shl(x, n - 1), y);
      DoubleProduct(x, Pow2(n - 1));
    }
  }

  lemma OrHalves(a: nat, y: nat)
    ensures Or(2 * a, y) == y % 2 + 2 * Or(a, y / 2)
  {
  }
}
