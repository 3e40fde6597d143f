/** Column types and the layout of a row. */
module Schema {
  import opened Wrappers

  datatype ColType = U8 | U16 | U32 | U64 | I64 | F64 | Bool | Str | Bytes | ListU32 | ListU64

  function TypeCode(ty: ColType): (v: nat)
    ensures 1 <= v <= 11
  {
    match ty
    case U8 => 1 case U16 => 2 case U32 => 3 case U64 => 4 case I64 => 5 case F64 => 6
    case Bool => 7 case Str => 8 case Bytes => 9 case ListU32 => 10 case ListU64 => 11
  }

  function FromU8(v: nat): Option<ColType> {
    match v
    case 1 => Some(U8) case 2 => Some(U16) case 3 => Some(U32) case 4 => Some(U64) case 5 => Some(I64)
    case 6 => Some(F64) case 7 => Some(Bool) case 8 => Some(Str) case 9 => Some(Bytes)
    case 10 => Some(ListU32) case 11 => Some(ListU64)
    case _ => None
  }

  function CellSize(ty: ColType): nat {
    match ty
    case U8 | Bool => 1
    case U16 => 2
    case U32 => 4
    case U64 | I64 | F64 | Str | Bytes | ListU32 | ListU64 => 8
  }

  function Align(ty: ColType): (a: nat)
    ensures a == 1 || a == 2 || a == 4 || a == 8
  {
    match ty
    case U8 | Bool => 1
    case U16 => 2
    case U32 | Str | Bytes | ListU32 | ListU64 => 4
    case U64 | I64 | F64 => 8
  }

  lemma CodesRoundTrip(ty: ColType, v: nat)
    ensures FromU8(v) == Some(ty) <==> TypeCode(ty) == v
  {
  }

  /** The codes of the file format, in order from 1. */
  lemma CodesAre(v: nat)
    ensures FromU8(v) == if 1 <= v <= 11 then Some([U8, U16, U32, U64, I64, F64, Bool, Str, Bytes, ListU32, ListU64][v - 1]) else None
  {
  }

  function AlignUp(n: nat, a: nat): nat
    requires a > 0
  {
    (n + a - 1) / a * a
  }

  predicate Multiple(n: nat, a: nat)
    requires a == 1 || a == 2 || a == 4 || a == 8
  {
    if a == 1 then true else if a == 2 then n % 2 == 0 else if a == 4 then n % 4 == 0 else n % 8 == 0
  }

  /** Rounding up to an alignment reaches the next multiple and no further. */
  lemma AlignUpIs(n: nat, a: nat)
    requires a == 1 || a == 2 || a == 4 || a == 8
    ensures Multiple(AlignUp(n, a), a) && n <= AlignUp(n, a) < n + a
  {
    if a == 1 {
    } else if a == 2 {
    } else if a == 4 {
    } else {
    }
  }

  /** Where column `i` begins, and where the first `i` columns end. */
  function Place(types: seq<ColType>, i: nat): nat
    requires i < |types|
    decreases i, 1
  {
    AlignUp(End(types, i), Align(types[i]))
  }

  function End(types: seq<ColType>, i: nat): nat
    requires i <= |types|
    decreases i, 0
  {
    if i == 0 then 0 else Place(types, i - 1) + CellSize(types[i - 1])
  }

  /** Offsets are stored in sixteen bits. */
  datatype Layout = Layout(offsets: seq<nat>, rowSize: nat)

  function LayoutOf(types: seq<ColType>): (l: Layout)
    ensures |l.offsets| == |types|
  {
    Layout(seq(|types|, i requires 0 <= i < |types| => Place(types, i) % 0x10000), AlignUp(End(types, |types|), 8))
  }

  /** Cells in numbers: behind one byte a cell begins at its own alignment, and the next byte begins where it ends. */
  lemma CellsBetweenBytes(ty: ColType)
    ensures LayoutOf([U8, ty, U8])
            == if ty == U8 || ty == Bool then Layout([0, 1, 2], 8)
               else if ty == U16 then Layout([0, 2, 4], 8)
               else if ty == U32 then Layout([0, 4, 8], 16)
               else if ty == U64 || ty == I64 || ty == F64 then Layout([0, 8, 16], 24)
               else Layout([0, 4, 12], 16)
  {
    hide LayoutOf;
    RowOfThree(ty);
  }

  lemma RowOfThree(ty: ColType)
    ensures var end := Align(ty) + CellSize(ty);
            LayoutOf([U8, ty, U8]) == Layout([0, Align(ty), end], AlignUp(end + 1, 8))
  {
    hide CellSize, AlignUp, Align;
    var types := [U8, ty, U8];
    SmallCells(ty);
    AlignUpByte(ty, Align(ty) + CellSize(ty));
    assert End(types, 1) == 1 && End(types, 2) == Align(ty) + CellSize(ty) && End(types, 3) == Align(ty) + CellSize(ty) + 1;
    assert LayoutOf(types).offsets == [0, Align(ty), Align(ty) + CellSize(ty)];
  }

  lemma SmallCells(ty: ColType)
    ensures CellSize(U8) == 1 && Align(U8) == 1 && Align(ty) <= 8 && CellSize(ty) <= 8
  {
  }

  lemma AlignUpByte(ty: ColType, n: nat)
    ensures AlignUp(0, 1) == 0 && AlignUp(1, Align(ty)) == Align(ty) && AlignUp(n, 1) == n
  {
  }

  lemma MixedRow()
    ensures LayoutOf([U8, U64, U16, Str]) == Layout([0, 8, 16, 20], 32)
  {
    var types := [U8, U64, U16, Str];
    assert End(types, 1) == 1 && End(types, 2) == 16 && End(types, 3) == 18 && End(types, 4) == 28;
  }

  method ComputeLayout(types: seq<ColType>) returns (l: Layout)
    ensures l == LayoutOf(types)
  {
    var off := 0;
    var offsets: seq<nat> := [];
    for i := 0 to |types|
      invariant off == End(types, i) && |offsets| == i
      invariant forall k | 0 <= k < i :: offsets[k] == Place(types, k) % 0x10000
    {
      var a := Align(types[i]);
      off := (off + a - 1) / a * a;
      offsets := offsets + [off % 0x10000];
      off := off + CellSize(types[i]);
    }
    l := Layout(offsets, (off + 7) / 8 * 8);
    assert l.offsets == LayoutOf(types).offsets;
  }

  lemma {:induction false} PlacesInOrder(types: seq<ColType>, i: nat, j: nat)
    requires i < j <= |types|
    ensures Place(types, i) + CellSize(types[i]) <= End(types, j)
    decreases j
  {
    if i < j - 1 {
      PlacesInOrder(types, i, j - 1);
      AlignUpIs(End(types, j - 1), Align(types[j - 1]));
    }
  }

  /** Every cell aligned and inside the row, and each behind the one before it. */
  ghost predicate Sound(types: seq<ColType>, l: Layout)
    requires |l.offsets| == |types|
  {
    && l.rowSize % 8 == 0
    && (forall i | 0 <= i < |types| ::
          Multiple(l.offsets[i], Align(types[i])) && l.offsets[i] + CellSize(types[i]) <= l.rowSize)
    && (forall i, j | 0 <= i < j < |types| :: l.offsets[i] + CellSize(types[i]) <= l.offsets[j])
  }

  lemma PlaceIsAligned(types: seq<ColType>, i: nat)
    requires i < |types|
    ensures Multiple(Place(types, i), Align(types[i]))
    ensures End(types, i) <= Place(types, i) < End(types, i) + 8
  {
    AlignUpIs(End(types, i), Align(types[i]));
  }

  /** The layout is sound exactly when the last column begins within sixteen bits. */
  lemma SoundIffFits(types: seq<ColType>)
    ensures Sound(types, LayoutOf(types)) <==> (types == [] || Place(types, |types| - 1) < 0x10000)
  {
    var n, l := |types|, LayoutOf(types);
    AlignUpIs(End(types, n), 8);
    if types != [] {
      if Place(types, n - 1) < 0x10000 {
        FitsIsSound(types);
      } else {
        WrapsIsNotSound(types, n - 1);
      }
    }
  }

  lemma PlacesBelowLast(types: seq<ColType>, i: nat)
    requires i < |types|
    ensures Place(types, i) <= Place(types, |types| - 1)
    ensures Place(types, i) + CellSize(types[i]) <= End(types, |types|)
  {
    hide AlignUp, CellSize, Align;
    var n := |types|;
    PlacesInOrder(types, i, n);
    if i < n - 1 {
      PlaceIsAligned(types, n - 1);
      PlacesInOrder(types, i, n - 1);
    }
  }

  lemma ExactOffset(types: seq<ColType>, i: nat)
    requires i < |types| && Place(types, |types| - 1) < 0x10000
    ensures LayoutOf(types).offsets[i] == Place(types, i)
    ensures Multiple(Place(types, i), Align(types[i]))
    ensures Place(types, i) + CellSize(types[i]) <= LayoutOf(types).rowSize
  {
    hide AlignUp, Place, End, CellSize, Align, Multiple;
    PlacesBelowLast(types, i);
    PlaceIsAligned(types, i);
    AlignUpIs(End(types, |types|), 8);
  }

  lemma FitsIsSound(types: seq<ColType>)
    requires types != [] && Place(types, |types| - 1) < 0x10000
    ensures Sound(types, LayoutOf(types))
  {
    var n, l := |types|, LayoutOf(types);
    AlignUpIs(End(types, n), 8);
    hide Place, End, Align, CellSize, Multiple;
    forall i | 0 <= i < n
      ensures l.offsets[i] == Place(types, i)
      ensures Multiple(l.offsets[i], Align(types[i])) && l.offsets[i] + CellSize(types[i]) <= l.rowSize
    {
      ExactOffset(types, i);
    }
    forall i, j | 0 <= i < j < n
      ensures l.offsets[i] + CellSize(types[i]) <= l.offsets[j]
    {
      PlacesInOrder(types, i, j);
      PlaceIsAligned(types, j);
    }
  }

  /** The first column whose offset no longer fits is stored below the one before it. */
  lemma {:induction false} WrapsIsNotSound(types: seq<ColType>, j: nat)
    requires j < |types| && Place(types, j) >= 0x10000
    ensures !Sound(types, LayoutOf(types))
  {
    hide AlignUp, Multiple, Align;
    var l := LayoutOf(types);
    PlaceIsAligned(types, j);
    if j == 0 {
      assert false;
    } else if Place(types, j - 1) >= 0x10000 {
      WrapsIsNotSound(types, j - 1);
    } else {
      assert l.offsets[j] < 16 && l.offsets[j - 1] + CellSize(types[j - 1]) > l.offsets[j];
    }
  }

  // ---- a layout that does not fit ----

  function Wide(n: nat): (types: seq<ColType>)
    ensures |types| == n && forall i | 0 <= i < n :: types[i] == U64
  {
    seq(n, _ => U64)
  }

  lemma {:induction false} WideEnds(n: nat, i: nat)
    requires i <= n
    ensures End(Wide(n), i) == 8 * i
  {
    hide AlignUp;
    if i > 0 {
      WideEnds(n, i - 1);
      EightAligned(i - 1);
    }
  }

  lemma EightAligned(i: nat)
    ensures AlignUp(8 * i, 8) == 8 * i
  {
  }

  /** 8193 columns of eight bytes are too many, 8192 are not. */
  lemma TooManyColumns()
    ensures !Sound(Wide(8193), LayoutOf(Wide(8193))) && Sound(Wide(8192), LayoutOf(Wide(8192)))
  {
    hide LayoutOf, Sound, AlignUp, End;
    WideEnds(8193, 8192);
    WideEnds(8192, 8191);
    EightAligned(8192);
    EightAligned(8191);
    SoundIffFits(Wide(8193));
    SoundIffFits(Wide(8192));
  }
}
