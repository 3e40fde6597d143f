/** The bytes of a `.tbl` image by their addresses: what every reader of the format, in whatever language, finds where. */
module TblFields {
  import opened Wrappers
  import opened Bits
  import opened Schema
  import opened Tbl
  import opened TblRoundTrip

  /** Where the record of column `i` begins: behind the fixed header, the schema's name, and the records before. */
  function RecordAt(s: OwnedSchema, i: nat): nat
    requires i <= |s.columns|
  {
    if i == 0 then 100 + |s.name| else RecordAt(s, i - 1) + 9 + |s.columns[i - 1].name|
  }

  /** Two bytes as a number. */
  function Pair(lo: nat, hi: nat): nat {
    lo + 256 * hi
  }

  /** The offset a column record stores, and the size. */
  function StoredOffset(b: seq<byte>, s: OwnedSchema, i: nat): nat
    requires i < |s.columns| && RecordAt(s, i) + 9 + |s.columns[i].name| <= |b|
  {
    var at := RecordAt(s, i) + 5 + |s.columns[i].name|;
    Pair(b[at], b[at + 1])
  }

  function StoredSize(b: seq<byte>, s: OwnedSchema, i: nat): nat
    requires i < |s.columns| && RecordAt(s, i) + 9 + |s.columns[i].name| <= |b|
  {
    var at := RecordAt(s, i) + 7 + |s.columns[i].name|;
    Pair(b[at], b[at + 1])
  }

  /** Numbers are stored least significant byte first. */
  lemma LittleEndian(b: seq<byte>, at: nat, k: nat)
    requires at + k + 1 <= |b|
    ensures NumAt(b, at, k + 1) == Pair(b[at], NumAt(b, at + 1, k))
    ensures NumAt(b, at, 0) == 0
  {
    assert b[at..at + k + 1][1..] == b[at + 1..at + 1 + k];
  }

  lemma TwoBytes(b: seq<byte>, at: nat, n: nat)
    requires n < 65536 && Stands(b, at, Le(n, 2))
    ensures at + 2 <= |b| && Pair(b[at], b[at + 1]) == n
  {
    assert Le(n, 2) == [n % 256] + Le(n / 256, 1) && Le(n / 256, 1) == [n / 256 % 256] + Le(n / 256 / 256, 0);
    assert b[at..at + 2][0] == n % 256 && b[at..at + 2][1] == n / 256;
  }

  // ---- the column records ----

  lemma {:induction false} BlockStands(b: seq<byte>, at: nat, cols: seq<Column>, places: seq<seq<byte>>, i: nat)
    requires FourEach(cols, places) && i < |cols| && Stands(b, at, ColBlocks(cols, places))
    ensures Stands(b, at + |ColBlocks(cols[..i], places[..i])|, ColBlock(cols[i], places[i]))
    decreases |cols|
  {
    hide ColBlocks, ColBlock, Stands, FourEach;
    var n := |cols| - 1;
    FourFront(cols, places);
    LastBlock(cols, places);
    StandsSplit(b, at, ColBlocks(cols[..n], places[..n]), ColBlock(cols[n], places[n]));
    if i < n {
      BlockStands(b, at, cols[..n], places[..n], i);
      assert cols[..n][..i] == cols[..i] && places[..n][..i] == places[..i];
    }
  }

  lemma {:induction false} BlocksEnd(s: OwnedSchema, places: seq<seq<byte>>, i: nat)
    requires FourEach(s.columns, places) && i <= |s.columns|
    ensures 100 + |s.name| + |ColBlocks(s.columns[..i], places[..i])| == RecordAt(s, i)
  {
    hide ColBlocks, StrBlock;
    if i == 0 {
      NoColBlocks(s.columns, places);
    } else {
      BlocksEnd(s, places, i - 1);
      ColBlocksSnoc(s.columns, places, i - 1);
      RecordLength(s.columns[i - 1], places[i - 1]);
    }
  }

  lemma RecordLength(c: Column, place: seq<byte>)
    ensures |ColBlock(c, place)| == |c.name| + 5 + |place|
  {
  }

  /** The record of a column: the length of its name, the name, the code of its type, and its place in the layout. */
  lemma RecordStands(b: seq<byte>, at: nat, c: Column, off: nat)
    requires Stands(b, at, ColBlock(c, PlaceBytes(c.ty, off))) && off < 65536
    ensures at + 9 + |c.name| <= |b|
    ensures |c.name| < U32_MAX ==> NumAt(b, at, 4) == |c.name|
    ensures b[at + 4..at + 4 + |c.name|] == c.name && b[at + 4 + |c.name|] == TypeCode(c.ty)
    ensures var q := at + 5 + |c.name|;
            Pair(b[q], b[q + 1]) == off && Pair(b[q + 2], b[q + 3]) == CellSize(c.ty)
  {
    hide Le, TypeCode, CellSize, Pow256, NumAt;
    var code: seq<byte> := [TypeCode(c.ty)];
    var q := at + 5 + |c.name|;
    RecordLength(c, PlaceBytes(c.ty, off));
    assert ColBlock(c, PlaceBytes(c.ty, off)) == Le(|c.name|, 4) + c.name + code + (Le(off, 2) + Le(CellSize(c.ty), 2));
    StandsSplit(b, at, Le(|c.name|, 4) + c.name + code, Le(off, 2) + Le(CellSize(c.ty), 2));
    StandsSplit(b, at, Le(|c.name|, 4) + c.name, code);
    StandsSplit(b, at, Le(|c.name|, 4), c.name);
    StandsSplit(b, q, Le(off, 2), Le(CellSize(c.ty), 2));
    SmallCells(c.ty);
    TwoBytes(b, q, off);
    TwoBytes(b, q + 2, CellSize(c.ty));
    if |c.name| < U32_MAX {
      Pow256Values();
      NumberReads(b, at, |c.name|, 4);
    }
    assert b[at + 4 + |c.name|] == code[0];
  }

  /** In the image of every table the record of column `i` stands at its address, and stores the offset and the size
      of the column's cell in the layout. */
  lemma ColumnRecord(t: Table, i: nat)
    requires |t.digest| == 32 && i < |t.schema.columns|
    ensures var b, c, at := Image(t), t.schema.columns[i], RecordAt(t.schema, i);
            && at + 9 + |c.name| <= |b|
            && (|c.name| < 0x1_0000_0000 ==> NumAt(b, at, 4) == |c.name|)
            && b[at + 4..at + 4 + |c.name|] == c.name && b[at + 4 + |c.name|] == TypeCode(c.ty)
            && StoredOffset(b, t.schema, i) == LayoutOf(Types(t.schema)).offsets[i]
            && StoredSize(b, t.schema, i) == CellSize(c.ty)
  {
    hide ImageWith, Stands, ColBlock, ColBlocks, StrBlock, LayoutOf, RecordAt, PlaceBytes, NumAt, Fixed;
    var s, b, places := t.schema, Image(t), Places(t.schema);
    PlacesAreFour(s);
    ImageParts(t, places);
    StandsSplit(b, FIXED, StrBlock(s.name), ColBlocks(s.columns, places));
    NameLength(s.name);
    BlockStands(b, FIXED + |StrBlock(s.name)|, s.columns, places, i);
    BlocksEnd(s, places, i);
    OffsetsFit(Types(s), i);
    RecordStands(b, RecordAt(s, i), s.columns[i], LayoutOf(Types(s)).offsets[i]);
  }

  lemma NameLength(name: seq<byte>)
    ensures FIXED + |StrBlock(name)| == 100 + |name|
  {
  }

  lemma OffsetsFit(types: seq<ColType>, i: nat)
    requires i < |types|
    ensures LayoutOf(types).offsets[i] < 65536
  {
  }

  /** Cells at the stored places are those of a layout: aligned, in the row, and each behind the one before. */
  ghost predicate StoredSound(b: seq<byte>, t: Table)
    requires forall i | 0 <= i < |t.schema.columns| :: RecordAt(t.schema, i) + 9 + |t.schema.columns[i].name| <= |b|
  {
    var s := t.schema;
    && (forall i | 0 <= i < |s.columns| ::
          Multiple(StoredOffset(b, s, i), Align(s.columns[i].ty)) && StoredOffset(b, s, i) + StoredSize(b, s, i) <= RowSize(s))
    && (forall i, j | 0 <= i < j < |s.columns| :: StoredOffset(b, s, i) + StoredSize(b, s, i) <= StoredOffset(b, s, j))
  }

  /** They are exactly when the last column begins within sixteen bits. */
  lemma StoredSoundIffFits(t: Table)
    requires |t.digest| == 32
    ensures forall i | 0 <= i < |t.schema.columns| :: RecordAt(t.schema, i) + 9 + |t.schema.columns[i].name| <= |Image(t)|
    ensures StoredSound(Image(t), t)
            <==> (t.schema.columns == [] || Place(Types(t.schema), |t.schema.columns| - 1) < 65536)
  {
    hide ImageWith, LayoutOf, RecordAt, StoredOffset, StoredSize, Place, Multiple, CellSize, Align;
    forall i | 0 <= i < |t.schema.columns|
      ensures RecordAt(t.schema, i) + 9 + |t.schema.columns[i].name| <= |Image(t)|
      ensures StoredOffset(Image(t), t.schema, i) == LayoutOf(Types(t.schema)).offsets[i]
      ensures StoredSize(Image(t), t.schema, i) == CellSize(Types(t.schema)[i])
    {
      ColumnRecord(t, i);
    }
    SoundIffFits(Types(t.schema));
    RowsAreEights(Types(t.schema));
  }

  lemma RowsAreEights(types: seq<ColType>)
    ensures LayoutOf(types).rowSize % 8 == 0
  {
    AlignUpIs(End(types, |types|), 8);
  }

  // ---- the fixed header, the rows and the blob ----

  lemma HeaderEnds(s: OwnedSchema)
    ensures HeaderLen(s) == RecordAt(s, |s.columns|)
  {
    hide ColBlocks, StrBlock, PlaceBytes, LayoutOf, Types, RecordAt;
    var places := Places(s);
    PlacesAreFour(s);
    BlocksEnd(s, places, |s.columns|);
    NameLength(s.name);
    assert s.columns[..|s.columns|] == s.columns && places[..|s.columns|] == places;
  }

  /** The image of a table whose numbers fit their fields, address by address. */
  lemma ImageByAddress(t: Table)
    requires |t.digest| == 32 && Typed(t) && RecordAt(t.schema, |t.schema.columns|) < 0x1_0000_0000
    ensures var b, s := Image(t), t.schema;
            var end := RecordAt(s, |s.columns|);
            && |b| >= 100 + |s.name|
            && b[0..8] == [77, 79, 83, 84, 66, 76, 48, 49]
            && NumAt(b, 8, 4) == end && NumAt(b, 12, 4) == s.version && NumAt(b, 16, 4) == |s.columns|
            && NumAt(b, 20, 4) == RowSize(s) && NumAt(b, 24, 4) == (if t.sorted then 1 else 0) && NumAt(b, 28, 4) == 0
            && NumAt(b, 32, 8) == t.nrows && NumAt(b, 56, 8) == |t.blob| && b[64..96] == t.digest
            && NumAt(b, 96, 4) == |s.name| && b[100..100 + |s.name|] == s.name
            && var rows, blob := NumAt(b, 40, 8), NumAt(b, 48, 8);
               && rows % 8 == 0 && end <= rows < end + 8
               && blob % 8 == 0 && rows + |t.rows| <= blob < rows + |t.rows| + 8
               && |b| == blob + |t.blob|
               && b[rows..rows + |t.rows|] == t.rows && b[blob..] == t.blob
               && (forall i | end <= i < rows :: b[i] == 0) && (forall i | rows + |t.rows| <= i < blob :: b[i] == 0)
  {
    hide ImageWith, Words, Pow256, NumAt, Typed, Fixed, HeaderLen, RowSize, RowsOff, BlobOff, Sizes, Offsets, RecordAt, ColBlocks, Le,
      Places, LayoutOf;
    var b := Image(t);
    HeaderEnds(t.schema);
    SchemaBlockCovers(t.schema);
    PlacesAreFour(t.schema);
    ImageParts(t, Places(t.schema));
    FixedParts(t, b);
    NumbersFit(t);
    NumbersRead(b, Sizes(t), Offsets(t));
    LastSize(t, b);
    SizesAre(t);
    ImageOffsets(t);
    NameStands(t, b);
    PaddingStands(t);
  }

  lemma SizesAre(t: Table)
    ensures Sizes(t)[0] == HeaderLen(t.schema) && Sizes(t)[1] == t.schema.version && Sizes(t)[2] == |t.schema.columns|
    ensures Sizes(t)[3] == RowSize(t.schema) && Sizes(t)[4] == (if t.sorted then 1 else 0) && Sizes(t)[5] == 0
    ensures Offsets(t) == [t.nrows, RowsOff(t), BlobOff(t), |t.blob|]
  {
  }

  lemma LastSize(t: Table, b: seq<byte>)
    requires |Sizes(t)| == 6 && Sizes(t)[5] < Pow256(4) && Stands(b, 8, Words(Sizes(t), 4))
    ensures |b| >= 32 && NumAt(b, 28, 4) == Sizes(t)[5]
  {
    hide Stands, Words, Pow256, NumAt, Sizes;
    WordReads(b, 8, Sizes(t), 4, 5);
  }

  lemma NameStands(t: Table, b: seq<byte>)
    requires Stands(b, FIXED, SchemaBlock(t.schema, Places(t.schema))) && |t.schema.name| < U32_MAX
    ensures |b| >= 100 + |t.schema.name| && NumAt(b, 96, 4) == |t.schema.name| && b[100..100 + |t.schema.name|] == t.schema.name
  {
    hide ColBlocks, Places, LayoutOf, Le, Pow256, NumAt;
    var s := t.schema;
    StandsSplit(b, FIXED, StrBlock(s.name), ColBlocks(s.columns, Places(s)));
    StandsSplit(b, FIXED, Le(|s.name|, 4), s.name);
    Pow256Values();
    NumberReads(b, FIXED, |s.name|, 4);
  }

  lemma PaddingStands(t: Table)
    requires |t.digest| == 32
    ensures var b := Image(t);
            && HeaderLen(t.schema) <= RowsOff(t) <= RowsOff(t) + |t.rows| <= BlobOff(t) <= |b|
            && (forall i | HeaderLen(t.schema) <= i < RowsOff(t) :: b[i] == 0)
            && (forall i | RowsOff(t) + |t.rows| <= i < BlobOff(t) :: b[i] == 0)
  {
    hide Fixed, HeaderLen, RowsOff, BlobOff, SchemaBlock;
    FixedLen(t);
    ImageOffsets(t);
    PlacesAreFour(t.schema);
    BlockLength(t.schema, Places(t.schema));
  }
  // ---- which files open ----

  /** The record of column `i` of the schema `s`, but for the place it stores. */
  predicate RecordOf(b: seq<byte>, s: OwnedSchema, i: nat, utf8: seq<byte> -> bool)
    requires i < |s.columns|
  {
    var c, at := s.columns[i], RecordAt(s, i);
    && at + 9 + |c.name| <= |b|
    && NumAt(b, at, 4) == |c.name| && b[at + 4..at + 4 + |c.name|] == c.name && utf8(c.name)
    && FromU8(b[at + 4 + |c.name|]) == Some(c.ty)
  }

  /** The schema `s` stands behind the fixed header. */
  predicate SchemaOf(b: seq<byte>, s: OwnedSchema, utf8: seq<byte> -> bool) {
    && 100 + |s.name| <= |b| && NumAt(b, 96, 4) == |s.name| && b[100..100 + |s.name|] == s.name && utf8(s.name)
    && forall i: nat | i < |s.columns| :: RecordOf(b, s, i, utf8)
  }

  /** The file `b` has the header `h` and the schema `s`, address by address. */
  predicate FileOf(b: seq<byte>, h: Header, s: OwnedSchema, utf8: seq<byte> -> bool) {
    && |b| >= 96 && b[0..8] == [77, 79, 83, 84, 66, 76, 48, 49]
    && h.headerLen == NumAt(b, 8, 4) && h.version == NumAt(b, 12, 4) && h.ncols == NumAt(b, 16, 4)
    && h.rowSize == NumAt(b, 20, 4) && h.sorted == (NumAt(b, 24, 4) % 2 == 1)
    && h.nrows == NumAt(b, 32, 8) && h.rowsOff == NumAt(b, 40, 8) && h.blobOff == NumAt(b, 48, 8)
    && h.blobLen == NumAt(b, 56, 8) && h.digest == b[64..96]
    && h.headerLen <= |b| && h.rowsOff <= |b| && h.blobOff + h.blobLen <= |b|
    && SchemaOf(b, s, utf8)
    && s.version == h.version && |s.columns| == h.ncols
    && RecordAt(s, |s.columns|) == h.headerLen && RowSize(s) == h.rowSize
  }

  lemma {:induction false} RecordAtFront(s: OwnedSchema, n: nat, i: nat)
    requires i <= n <= |s.columns|
    ensures RecordAt(s.(columns := s.columns[..n]), i) == RecordAt(s, i)
  {
    if i > 0 {
      RecordAtFront(s, n, i - 1);
    }
  }

  lemma RecordOfFront(b: seq<byte>, s: OwnedSchema, n: nat, i: nat, utf8: seq<byte> -> bool)
    requires i < n <= |s.columns|
    ensures RecordOf(b, s.(columns := s.columns[..n]), i, utf8) == RecordOf(b, s, i, utf8)
  {
    RecordAtFront(s, n, i);
  }

  /** Taking a record: exactly where one stands. */
  lemma TakeRecord(b: seq<byte>, s: OwnedSchema, i: nat, utf8: seq<byte> -> bool)
    requires i < |s.columns|
    ensures RecordOf(b, s, i, utf8)
            <==> var c, at := s.columns[i], RecordAt(s, i);
                 && TakeStr(b, at, utf8) == Ok((c.name, at + 4 + |c.name|)) && at + 9 + |c.name| <= |b|
                 && FromU8(b[at + 4 + |c.name|]) == Some(c.ty)
  {
    hide FromU8, RecordAt, NumAt;
  }

  lemma TakeOne(b: seq<byte>, p: nat, c: Column, q: nat, cols: seq<Column>, at: nat, utf8: seq<byte> -> bool)
    requires TakeColumns(b, at, |cols|, utf8) == Ok((cols, p))
    ensures TakeColumns(b, at, |cols| + 1, utf8) == Ok((cols + [c], q))
            <==> TakeStr(b, p, utf8) == Ok((c.name, q - 5)) && q <= |b| && FromU8(b[q - 5]) == Some(c.ty)
  {
    hide FromU8;
    var r := TakeColumns(b, at, |cols| + 1, utf8);
    if r.Ok? && r.value.0 == cols + [c] {
      assert r.value.0[|cols|] == c;
    }
  }

  /** The schema without its last column. */
  function Shorter(s: OwnedSchema): OwnedSchema
    requires s.columns != []
  {
    s.(columns := s.columns[..|s.columns| - 1])
  }

  lemma ShorterRecords(b: seq<byte>, s: OwnedSchema, utf8: seq<byte> -> bool)
    requires s.columns != []
    ensures var n := |s.columns| - 1;
            && RecordAt(Shorter(s), n) == RecordAt(s, n)
            && ((forall i: nat | i < n :: RecordOf(b, Shorter(s), i, utf8)) <==> (forall i: nat | i < n :: RecordOf(b, s, i, utf8)))
  {
    hide RecordOf, RecordAt;
    var n := |s.columns| - 1;
    RecordAtFront(s, n, n);
    forall i: nat | i < n
      ensures RecordOf(b, Shorter(s), i, utf8) == RecordOf(b, s, i, utf8)
    {
      RecordOfFront(b, s, n, i, utf8);
    }
  }

  /** Records that stand one behind the other are taken, and no others are. */
  lemma {:induction false} StandingTaken(b: seq<byte>, s: OwnedSchema, utf8: seq<byte> -> bool)
    requires forall i: nat | i < |s.columns| :: RecordOf(b, s, i, utf8)
    ensures TakeColumns(b, 100 + |s.name|, |s.columns|, utf8) == Ok((s.columns, RecordAt(s, |s.columns|)))
    decreases |s.columns|
  {
    hide RecordOf, TakeStr, FromU8;
    if s.columns == [] {
      assert RecordAt(s, 0) == 100 + |s.name|;
    } else {
      hide TakeColumns;
      var n := |s.columns| - 1;
      var c := s.columns[n];
      assert s.columns == Shorter(s).columns + [c];
      ShorterRecords(b, s, utf8);
      StandingTaken(b, Shorter(s), utf8);
      TakeRecord(b, s, n, utf8);
      TakeOne(b, RecordAt(s, n), c, RecordAt(s, n + 1), Shorter(s).columns, 100 + |s.name|, utf8);
    }
  }

  lemma {:induction false} TakenStanding(b: seq<byte>, s: OwnedSchema, q: nat, utf8: seq<byte> -> bool)
    requires TakeColumns(b, 100 + |s.name|, |s.columns|, utf8) == Ok((s.columns, q))
    ensures q == RecordAt(s, |s.columns|) && forall i: nat | i < |s.columns| :: RecordOf(b, s, i, utf8)
    decreases |s.columns|
  {
    hide RecordOf, TakeStr, FromU8;
    if s.columns == [] {
      assert RecordAt(s, 0) == 100 + |s.name|;
    } else {
      var n, at := |s.columns| - 1, 100 + |s.name|;
      var c := s.columns[n];
      FrontTaken(b, at, s.columns, q, utf8);
      hide TakeColumns;
      var p := TakeColumns(b, at, n, utf8).value.1;
      assert s.columns == Shorter(s).columns + [c];
      TakenStanding(b, Shorter(s), p, utf8);
      ShorterRecords(b, s, utf8);
      TakeOne(b, p, c, q, Shorter(s).columns, at, utf8);
      TakeRecord(b, s, n, utf8);
      StrEnds(b, p, utf8);
    }
  }

  lemma StrEnds(b: seq<byte>, at: nat, utf8: seq<byte> -> bool)
    ensures TakeStr(b, at, utf8).Ok? ==> TakeStr(b, at, utf8).value.1 == at + 4 + |TakeStr(b, at, utf8).value.0|
  {
  }

  lemma FrontTaken(b: seq<byte>, at: nat, cols: seq<Column>, q: nat, utf8: seq<byte> -> bool)
    requires cols != [] && TakeColumns(b, at, |cols|, utf8) == Ok((cols, q))
    ensures var r := TakeColumns(b, at, |cols| - 1, utf8); r.Ok? && r.value.0 == cols[..|cols| - 1]
  {
    hide TakeStr, FromU8;
  }
  /** A file parses exactly as what it holds. */
  lemma ParsedIff(b: seq<byte>, h: Header, s: OwnedSchema, utf8: seq<byte> -> bool)
    ensures Parsed(b, utf8) == Ok((h, s)) <==> FileOf(b, h, s, utf8)
  {
    hide NumAt, LayoutOf, RecordAt, RecordOf, TakeColumns;
    if FileOf(b, h, s, utf8) {
      StandingTaken(b, s, utf8);
      TakeName(b, s.name, utf8);
    }
    if Parsed(b, utf8) == Ok((h, s)) {
      TakeName(b, s.name, utf8);
      StrEnds(b, 96, utf8);
      TakenStanding(b, s, h.headerLen, utf8);
    }
  }

  lemma TakeName(b: seq<byte>, name: seq<byte>, utf8: seq<byte> -> bool)
    ensures TakeStr(b, 96, utf8) == Ok((name, 100 + |name|))
            <==> 100 + |name| <= |b| && NumAt(b, 96, 4) == |name| && b[100..100 + |name|] == name && utf8(name)
  {
    hide NumAt;
  }

  /** A file that does not parse is malformed, unless it is long enough and begins with something else. */
  lemma RefusedAs(b: seq<byte>, utf8: seq<byte> -> bool)
    ensures Parsed(b, utf8) == Err(VersionError) <==> |b| >= 96 && b[0..8] != [77, 79, 83, 84, 66, 76, 48, 49]
  {
    hide NumAt, LayoutOf, TakeColumns, TakeStr;
    if Parsed(b, utf8).Err? && |b| >= 96 && b[0..8] == MAGIC {
      TakesNoVersion(b, utf8);
    }
  }

  lemma TakesNoVersion(b: seq<byte>, utf8: seq<byte> -> bool)
    ensures TakeStr(b, 96, utf8) != Err(VersionError)
    ensures forall p, n :: TakeColumns(b, p, n, utf8) != Err(VersionError)
  {
    forall p, n: nat
      ensures TakeColumns(b, p, n, utf8) != Err(VersionError)
    {
      ColumnsNoVersion(b, p, n, utf8);
    }
  }

  lemma {:induction false} ColumnsNoVersion(b: seq<byte>, p: nat, n: nat, utf8: seq<byte> -> bool)
    ensures TakeColumns(b, p, n, utf8) != Err(VersionError)
  {
    if n > 0 {
      ColumnsNoVersion(b, p, n - 1, utf8);
    }
  }

  /** The table `t` is the file of the header `h` and the schema `own`, under a known schema or its own. */
  predicate TableOf(b: seq<byte>, h: Header, own: OwnedSchema, known: Option<OwnedSchema>, verify: bool,
                    hash: seq<byte> -> seq<byte>, t: Table) {
    && h.rowsOff + h.nrows * h.rowSize <= |b| && h.blobOff + h.blobLen <= |b|
    && t.rows == b[h.rowsOff..h.rowsOff + h.nrows * h.rowSize] && t.blob == b[h.blobOff..h.blobOff + h.blobLen]
    && t.digest == hash(t.rows + t.blob) && (verify ==> t.digest == h.digest)
    && t.nrows == h.nrows && t.sorted == h.sorted
    && t.schema.version == own.version && t.schema.columns == own.columns
    && t.schema == if known.Some? then known.value else own
  }

  /** A file opens as a table exactly when it is the file of that table. */
  lemma OpenedIff(b: seq<byte>, known: Option<OwnedSchema>, verify: bool, hash: seq<byte> -> seq<byte>, utf8: seq<byte> -> bool,
                  t: Table)
    ensures Opened(b, known, verify, hash, utf8) == Ok(t)
            <==> exists h, own :: FileOf(b, h, own, utf8) && TableOf(b, h, own, known, verify, hash, t)
  {
    hide FileOf, Parsed, LayoutOf, TableOf, Opened;
    if h, own :| FileOf(b, h, own, utf8) && TableOf(b, h, own, known, verify, hash, t) {
      ParsedIff(b, h, own, utf8);
      RowSizeOfFile(b, h, own, utf8);
      OpenedParsed(b, h, own, known, verify, hash, utf8, t);
    }
    if Opened(b, known, verify, hash, utf8) == Ok(t) {
      OpenedParses(b, known, verify, hash, utf8);
      var (h, own) := Parsed(b, utf8).value;
      ParsedIff(b, h, own, utf8);
      RowSizeOfFile(b, h, own, utf8);
      OpenedParsed(b, h, own, known, verify, hash, utf8, t);
    }
  }

  lemma OpenedParses(b: seq<byte>, known: Option<OwnedSchema>, verify: bool, hash: seq<byte> -> seq<byte>, utf8: seq<byte> -> bool)
    ensures Opened(b, known, verify, hash, utf8).Ok? ==> Parsed(b, utf8).Ok?
  {
    hide Parsed;
  }

  lemma OpenedParsed(b: seq<byte>, h: Header, own: OwnedSchema, known: Option<OwnedSchema>, verify: bool,
                     hash: seq<byte> -> seq<byte>, utf8: seq<byte> -> bool, t: Table)
    requires Parsed(b, utf8) == Ok((h, own)) && RowSize(own) == h.rowSize
    ensures Opened(b, known, verify, hash, utf8) == Ok(t) <==> TableOf(b, h, own, known, verify, hash, t)
  {
    hide Parsed, RowSize;
    SameRowSize(own, t.schema);
    if known.Some? {
      SameRowSize(own, known.value);
    }
  }

  lemma SameRowSize(s: OwnedSchema, s': OwnedSchema)
    ensures s.columns == s'.columns ==> RowSize(s) == RowSize(s')
  {
    assert s.columns == s'.columns ==> Types(s) == Types(s');
  }

  lemma RowSizeOfFile(b: seq<byte>, h: Header, s: OwnedSchema, utf8: seq<byte> -> bool)
    requires FileOf(b, h, s, utf8)
    ensures RowSize(s) == h.rowSize && h.blobOff + h.blobLen <= |b|
  {
  }
  /** The rows and the blob are inside the file, and have the digest that is asked of them. */
  predicate ContentsOf(b: seq<byte>, h: Header, verify: bool, hash: seq<byte> -> seq<byte>) {
    && h.rowsOff + h.nrows * h.rowSize <= |b| && h.blobOff + h.blobLen <= |b|
    && (verify ==> hash(b[h.rowsOff..h.rowsOff + h.nrows * h.rowSize] + b[h.blobOff..h.blobOff + h.blobLen]) == h.digest)
  }

  /** The known schema, if there is one, is not that of the file. */
  predicate OtherThanKnown(own: OwnedSchema, known: Option<OwnedSchema>) {
    known.Some? && (known.value.version != own.version || known.value.columns != own.columns)
  }

  lemma VersionRefusedParsed(b: seq<byte>, h: Header, own: OwnedSchema, known: Option<OwnedSchema>, verify: bool,
                             hash: seq<byte> -> seq<byte>, utf8: seq<byte> -> bool)
    requires Parsed(b, utf8) == Ok((h, own))
    ensures Opened(b, known, verify, hash, utf8) == Err(VersionError)
            <==> ContentsOf(b, h, verify, hash) && OtherThanKnown(own, known)
  {
    hide Parsed, LayoutOf;
  }

  /** What is refused for its version: a file of another kind, or a sound one whose schema is not the known one. */
  lemma VersionRefusedIff(b: seq<byte>, known: Option<OwnedSchema>, verify: bool, hash: seq<byte> -> seq<byte>,
                          utf8: seq<byte> -> bool)
    ensures Opened(b, known, verify, hash, utf8) == Err(VersionError)
            <==> || (|b| >= 96 && b[0..8] != [77, 79, 83, 84, 66, 76, 48, 49])
                 || exists h, own :: FileOf(b, h, own, utf8) && ContentsOf(b, h, verify, hash) && OtherThanKnown(own, known)
  {
    hide FileOf, ContentsOf, Parsed, LayoutOf, OtherThanKnown, Contents, Resolved, Assembled;
    RefusedAs(b, utf8);
    if h, own :| FileOf(b, h, own, utf8) && ContentsOf(b, h, verify, hash) && OtherThanKnown(own, known) {
      ParsedIff(b, h, own, utf8);
      VersionRefusedParsed(b, h, own, known, verify, hash, utf8);
    }
    if Parsed(b, utf8).Ok? {
      var (h, own) := Parsed(b, utf8).value;
      ParsedIff(b, h, own, utf8);
      VersionRefusedParsed(b, h, own, known, verify, hash, utf8);
    }
  }
}
