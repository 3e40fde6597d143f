/** The fixed prefix code of match positions: the 256-entry lookup tables and the code words behind them. */
module PositionCode {
  import opened Bits
  import opened BitStream

  /** `D_LEN[i]`: the code length of the position code an eight-bit window starts with. */
  function DLen(i: nat): nat {
    if i < 32 then 3 else if i < 80 then 4 else if i < 144 then 5
    else if i < 192 then 6 else if i < 240 then 7 else 8
  }

  /** `D_CODE[i]`: that code, the upper six bits of a position. */
  function DCode(i: nat): nat {
    if i < 32 then 0
    else if i < 80 then 1 + (i - 32) / 16
    else if i < 144 then 4 + (i - 80) / 8
    else if i < 192 then 12 + (i - 144) / 4
    else if i < 240 then 24 + (i - 192) / 2
    else 48 + (i - 240)
  }

  /** The code word of the upper six bits `c` of a position: its length, and the bits themselves. */
  function WordLen(c: nat): nat {
    if c < 1 then 3 else if c < 4 then 4 else if c < 12 then 5
    else if c < 24 then 6 else if c < 48 then 7 else 8
  }

  function Word(c: nat): nat {
    if c < 1 then 0 else if c < 4 then c + 1 else if c < 12 then c + 6
    else if c < 24 then c + 24 else if c < 48 then c + 72 else c + 192
  }

  /** Position `x` is spelled at bit `pos`: the word of its upper six bits, then its lower six bits. */
  ghost predicate PositionAt(data: seq<byte>, pos: nat, x: nat) {
    && x < 4096
    && BitsAt(data, pos, WordLen(x / 64)) == Word(x / 64)
    && BitsAt(data, pos + WordLen(x / 64), 6) == x % 64
  }

  /** What the tables make of the bits at `pos`. */
  function Position(data: seq<byte>, pos: nat): nat {
    var i := BitsAt(data, pos, 8);
    64 * DCode(i) + BitsAt(data, pos + DLen(i), 6)
  }

  function PositionLen(data: seq<byte>, pos: nat): nat {
    DLen(BitsAt(data, pos, 8)) + 6
  }

  lemma TableIffWord(i: nat, c: nat, hi: nat, lo: nat)
    requires i < 256 && c < 64
    requires lo < Pow2(8 - WordLen(c)) && i == hi * Pow2(8 - WordLen(c)) + lo
    ensures DCode(i) == c <==> hi == Word(c)
    ensures DCode(i) < 64 && DLen(i) == WordLen(DCode(i))
  {
    assert Pow2(0) == 1 && Pow2(1) == 2 && Pow2(2) == 4 && Pow2(3) == 8;
    assert Pow2(4) == 16 && Pow2(5) == 32;
  }

  lemma TableAtStream(data: seq<byte>, pos: nat, c: nat)
    requires c < 64
    ensures var i := BitsAt(data, pos, 8);
            && (DCode(i) == c <==> BitsAt(data, pos, WordLen(c)) == Word(c))
            && DCode(i) < 64 && DLen(i) == WordLen(DCode(i))
  {
    var l := WordLen(c);
    Pow2Values();
    BitsAtBound(data, pos, 8);
    BitsAtSplit(data, pos, l, 8 - l);
    BitsAtBound(data, pos + l, 8 - l);
    TableIffWord(BitsAt(data, pos, 8), c, BitsAt(data, pos, l), BitsAt(data, pos + l, 8 - l));
  }

  /** At every bit of every stream exactly one position is spelled, and it is the one the tables give. */
  lemma TablesDecodeWords(data: seq<byte>, pos: nat, x: nat)
    ensures PositionAt(data, pos, x) <==> x == Position(data, pos)
    ensures PositionAt(data, pos, x) ==> PositionLen(data, pos) == WordLen(x / 64) + 6
    ensures Position(data, pos) < 4096
  {
    TableAtStream(data, pos, if x < 4096 then x / 64 else 0);
    BitsAtBound(data, pos + PositionLen(data, pos) - 6, 6);
    assert Pow2(6) == 64;
  }
  /** One word of three bits, three of four, eight of five, twelve of six, twenty-four of seven, sixteen of eight. */
  lemma WordLengths(c: nat)
    requires c < 64
    ensures WordLen(c) == ([3] + seq(3, _ => 4) + seq(8, _ => 5) + seq(12, _ => 6) + seq(24, _ => 7) + seq(16, _ => 8))[c]
  {
  }

  /** The words are numbered in order: the windows of each begin where those of the word before end, the first
      ones at 0 and the last ones end at 256. */
  lemma WordsInOrder(c: nat)
    requires c < 64
    ensures var end := (Word(c) + 1) * Pow2(8 - WordLen(c));
            if c == 63 then end == 256 else end == Word(c + 1) * Pow2(8 - WordLen(c + 1))
    ensures Word(0) == 0
  {
    assert Pow2(0) == 1 && Pow2(1) == 2 && Pow2(2) == 4 && Pow2(3) == 8;
    assert Pow2(4) == 16 && Pow2(5) == 32;
  }
  /** A position is sixty-four times what its word stands for, and the six bits behind the word. */
  lemma PositionIs(data: seq<byte>, pos: nat, c: nat)
    requires c < 64 && BitsAt(data, pos, WordLen(c)) == Word(c)
    ensures Position(data, pos) == 64 * c + BitsAt(data, pos + WordLen(c), 6)
    ensures PositionAt(data, pos, 64 * c + BitsAt(data, pos + WordLen(c), 6))
  {
    hide BitsAt, Word, WordLen;
    BitsAtBound(data, pos + WordLen(c), 6);
    Pow2Values();
    TablesDecodeWords(data, pos, 64 * c + BitsAt(data, pos + WordLen(c), 6));
  }
}
