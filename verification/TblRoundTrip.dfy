/** Reading a `.tbl` image back: the cursor that parses it, and what a round trip recovers. */
module TblRoundTrip {
  import opened Wrappers
  import opened Bits
  import opened Schema
  import opened Tbl

  // ---- the reader ----

  method ParseHeader(b: seq<byte>, utf8: seq<byte> -> bool) returns (r: Result<(Header, OwnedSchema), Error>)
    ensures r == Parsed(b, utf8)
  {
    hide HeaderOf, TakeStr, FromU8, LayoutOf;
    if |b| < FIXED {
      return Err(FormatError);
    }
    if b[0..8] != MAGIC {
      return Err(VersionError);
    }
    var h := HeaderOf(b);
    if h.headerLen > |b| || h.rowsOff > |b| || h.blobOff > |b| || h.blobOff + h.blobLen > |b| {
      return Err(FormatError);
    }
    var at := FIXED;
    var name := TakeStr(b, at, utf8);
    if name.Err? {
      return Err(name.error);
    }
    at := name.value.1;
    ghost var start := at;
    var columns: seq<Column> := [];
    for n := 0 to h.ncols
      invariant TakeColumns(b, start, n, utf8) == Ok((columns, at))
    {
      ErrorStays(b, start, n + 1, h.ncols, utf8);
      var cname := TakeStr(b, at, utf8);
      if cname.Err? {
        return Err(cname.error);
      }
      at := cname.value.1;
      if at + 5 > |b| {
        return Err(FormatError);
      }
      var ty := FromU8(b[at]);
      if ty.None? {
        return Err(FormatError);
      }
      at := at + 5;
      columns := columns + [Column(cname.value.0, ty.value)];
    }
    if at != h.headerLen {
      return Err(FormatError);
    }
    var s := OwnedSchema(name.value.0, h.version, columns);
    var l := ComputeLayout(Types(s));
    if l.rowSize != h.rowSize {
      return Err(FormatError);
    }
    r := Ok((h, s));
  }

  /** A malformed column record stops the whole schema block. */
  lemma {:induction false} ErrorStays(b: seq<byte>, at: nat, m: nat, n: nat, utf8: seq<byte> -> bool)
    requires m <= n
    ensures TakeColumns(b, at, m, utf8).Err? ==> TakeColumns(b, at, n, utf8) == TakeColumns(b, at, m, utf8)
    decreases n
  {
    hide TakeStr, FromU8;
    if m < n {
      ErrorStays(b, at, m, n - 1, utf8);
    }
  }

  // ---- what the reader finds in an image ----

  /** The bytes `x` stand in `b` at `at`. */
  ghost predicate Stands(b: seq<byte>, at: nat, x: seq<byte>) {
    at + |x| <= |b| && b[at..at + |x|] == x
  }

  lemma StandsSplit(b: seq<byte>, at: nat, x: seq<byte>, y: seq<byte>)
    requires Stands(b, at, x + y)
    ensures Stands(b, at, x) && Stands(b, at + |x|, y)
  {
    var whole := b[at..at + |x + y|];
    forall i | 0 <= i < |x|
      ensures b[at + i] == x[i]
    {
      assert whole[i] == (x + y)[i];
    }
    forall i | 0 <= i < |y|
      ensures b[at + |x| + i] == y[i]
    {
      assert whole[|x| + i] == (x + y)[|x| + i];
    }
  }

  lemma NumberReads(b: seq<byte>, at: nat, n: nat, k: nat)
    requires n < Pow256(k) && Stands(b, at, Le(n, k))
    ensures at + k <= |b| && NumAt(b, at, k) == n
  {
    LeReadsBack(n, k);
  }

  /** The numbers of a run of numbers that stands at `base` read back. */
  lemma {:induction false} WordReads(b: seq<byte>, base: nat, ws: seq<nat>, k: nat, i: nat)
    requires (k == 4 || k == 8) && i < |ws| && ws[i] < Pow256(k)
    requires Stands(b, base, Words(ws, k))
    ensures var at := base + if k == 4 then 4 * i else 8 * i;
            at + k <= |b| && NumAt(b, at, k) == ws[i]
  {
    hide Stands, Le, Pow256, NumAt;
    var n := |ws| - 1;
    WordsLen(ws[..n], k);
    StandsSplit(b, base, Words(ws[..n], k), Le(ws[n], k));
    if i == n {
      NumberReads(b, base + |Words(ws[..n], k)|, ws[n], k);
    } else {
      WordReads(b, base, ws[..n], k, i);
    }
  }

  lemma StrReads(b: seq<byte>, at: nat, s: seq<byte>, utf8: seq<byte> -> bool)
    requires Stands(b, at, StrBlock(s)) && |s| < U32_MAX && utf8(s)
    ensures TakeStr(b, at, utf8) == Ok((s, at + |StrBlock(s)|))
  {
    hide Le, Pow256, NumAt;
    Pow256Values();
    StandsSplit(b, at, Le(|s|, 4), s);
    NumberReads(b, at, |s|, 4);
  }

  /** The names of a schema are valid text. */
  predicate Readable(s: OwnedSchema, utf8: seq<byte> -> bool) {
    utf8(s.name) && forall i | 0 <= i < |s.columns| :: utf8(s.columns[i].name)
  }

  lemma ColumnReads(b: seq<byte>, at: nat, c: Column, place: seq<byte>, utf8: seq<byte> -> bool)
    requires Stands(b, at, ColBlock(c, place)) && |place| == 4 && |c.name| < U32_MAX && utf8(c.name)
    ensures TakeStr(b, at, utf8).Ok?
    ensures var (name, q) := TakeStr(b, at, utf8).value;
            name == c.name && q + 5 == at + |ColBlock(c, place)| <= |b| && FromU8(b[q]) == Some(c.ty)
  {
    hide StrBlock, TakeStr, FromU8, TypeCode;
    var code: seq<byte> := [TypeCode(c.ty)];
    assert ColBlock(c, place) == StrBlock(c.name) + (code + place);
    StandsSplit(b, at, StrBlock(c.name), code + place);
    StandsSplit(b, at + |StrBlock(c.name)|, code, place);
    StrReads(b, at, c.name, utf8);
    CodesRoundTrip(c.ty, TypeCode(c.ty));
    assert b[at + |StrBlock(c.name)|] == code[0];
  }

  /** One more column record. */
  lemma TakeOneMore(b: seq<byte>, at: nat, cols: seq<Column>, p: nat, c: Column, place: seq<byte>, utf8: seq<byte> -> bool)
    requires TakeColumns(b, at, |cols|, utf8) == Ok((cols, p))
    requires Stands(b, p, ColBlock(c, place)) && |place| == 4 && |c.name| < U32_MAX && utf8(c.name)
    ensures TakeColumns(b, at, |cols| + 1, utf8) == Ok((cols + [c], p + |ColBlock(c, place)|))
  {
    ColumnReads(b, p, c, place, utf8);
    hide TakeStr, ColBlock, FromU8, Stands;
  }

  /** Four bytes for every column. */
  predicate FourEach(cols: seq<Column>, places: seq<seq<byte>>) {
    |places| == |cols| && forall i | 0 <= i < |places| :: |places[i]| == 4
  }

  /** Names that are valid text and whose lengths fit. */
  predicate NamesRead(cols: seq<Column>, utf8: seq<byte> -> bool) {
    forall i | 0 <= i < |cols| :: |cols[i].name| < U32_MAX && utf8(cols[i].name)
  }

  lemma FourFront(cols: seq<Column>, places: seq<seq<byte>>)
    requires cols != [] && FourEach(cols, places)
    ensures |places| == |cols|
    ensures FourEach(cols[..|cols| - 1], places[..|cols| - 1]) && |places[|cols| - 1]| == 4
  {
  }

  lemma LastBlock(cols: seq<Column>, places: seq<seq<byte>>)
    requires cols != [] && |places| == |cols|
    ensures var n := |cols| - 1; ColBlocks(cols, places) == ColBlocks(cols[..n], places[..n]) + ColBlock(cols[n], places[n])
  {
    hide ColBlock;
  }

  lemma FrontNames(cols: seq<Column>, utf8: seq<byte> -> bool)
    requires cols != [] && NamesRead(cols, utf8)
    ensures var n := |cols| - 1; NamesRead(cols[..n], utf8) && |cols[n].name| < U32_MAX && utf8(cols[n].name)
  {
  }

  lemma NoColumns(b: seq<byte>, at: nat, places: seq<seq<byte>>, utf8: seq<byte> -> bool)
    requires FourEach([], places)
    ensures places == [] && ColBlocks([], places) == [] && TakeColumns(b, at, 0, utf8) == Ok(([], at))
  {
  }

  lemma {:induction false} ColumnsRead(b: seq<byte>, at: nat, cols: seq<Column>, places: seq<seq<byte>>, utf8: seq<byte> -> bool)
    requires FourEach(cols, places) && NamesRead(cols, utf8) && Stands(b, at, ColBlocks(cols, places))
    ensures TakeColumns(b, at, |cols|, utf8) == Ok((cols, at + |ColBlocks(cols, places)|))
  {
    hide TakeColumns, ColBlocks, ColBlock, Stands, NamesRead, FourEach;
    if cols == [] {
      NoColumns(b, at, places, utf8);
    } else {
      var n := |cols| - 1;
      FourFront(cols, places);
      LastBlock(cols, places);
      assert cols[..n] + [cols[n]] == cols;
      FrontNames(cols, utf8);
      StandsSplit(b, at, ColBlocks(cols[..n], places[..n]), ColBlock(cols[n], places[n]));
      ColumnsRead(b, at, cols[..n], places[..n], utf8);
      TakeOneMore(b, at, cols[..n], at + |ColBlocks(cols[..n], places[..n])|, cols[n], places[n], utf8);
    }
  }

  lemma {:induction false} BlocksCover(cols: seq<Column>, places: seq<seq<byte>>)
    requires |cols| == |places|
    ensures |cols| <= |ColBlocks(cols, places)|
    ensures forall i | 0 <= i < |cols| :: |cols[i].name| <= |ColBlocks(cols, places)|
  {
    hide TypeCode, ColBlocks;
    if cols != [] {
      LastBlock(cols, places);
      BlocksCover(cols[..|cols| - 1], places[..|cols| - 1]);
    }
  }

  /** What stands in the place of the offsets and sizes does not change the length. */
  lemma {:induction false} BlocksLength(cols: seq<Column>, places: seq<seq<byte>>, places': seq<seq<byte>>)
    requires FourEach(cols, places) && FourEach(cols, places')
    ensures |ColBlocks(cols, places)| == |ColBlocks(cols, places')|
  {
    hide StrBlock, TypeCode, ColBlocks;
    if cols != [] {
      LastBlock(cols, places);
      LastBlock(cols, places');
      FourFront(cols, places);
      FourFront(cols, places');
      BlocksLength(cols[..|cols| - 1], places[..|cols| - 1], places'[..|cols| - 1]);
    }
  }

  lemma BlockLength(s: OwnedSchema, places: seq<seq<byte>>)
    requires FourEach(s.columns, places)
    ensures FIXED + |SchemaBlock(s, places)| == HeaderLen(s)
  {
    hide ColBlocks, PlaceBytes, LayoutOf, Types, StrBlock;
    BlocksLength(s.columns, places, Places(s));
  }

  /** What the integer types of the original guarantee. */
  predicate Typed(t: Table) {
    && t.schema.version < U32_MAX && RowSize(t.schema) < U32_MAX
    && t.nrows < U64_MAX && BlobOff(t) + |t.blob| < U64_MAX
  }

  /** A table as `assemble` makes it. */
  predicate Built(t: Table, hash: seq<byte> -> seq<byte>) {
    && |t.rows| == RowsLen(t.nrows, RowSize(t.schema))
    && t.digest == hash(t.rows + t.blob) && |t.digest| == 32
  }

  lemma ImageParts(t: Table, places: seq<seq<byte>>)
    requires |t.digest| == 32 && FourEach(t.schema.columns, places)
    ensures |ImageWith(t, places)| == BlobOff(t) + |t.blob|
    ensures FIXED <= HeaderLen(t.schema) <= RowsOff(t) <= RowsOff(t) + |t.rows| <= BlobOff(t)
    ensures Stands(ImageWith(t, places), 0, Fixed(t)) && Stands(ImageWith(t, places), FIXED, SchemaBlock(t.schema, places))
    ensures Stands(ImageWith(t, places), RowsOff(t), t.rows) && Stands(ImageWith(t, places), BlobOff(t), t.blob)
  {
    FixedLen(t);
    ImageOffsets(t);
    BlockLength(t.schema, places);
    var a, c, d := Fixed(t), SchemaBlock(t.schema, places), Zeros(RowsOff(t) - HeaderLen(t.schema));
    var e := Zeros(BlobOff(t) - (RowsOff(t) + |t.rows|));
    assert ImageWith(t, places) == a + c + d + t.rows + e + t.blob;
    hide ImageWith, Fixed, SchemaBlock, RowsOff, BlobOff, Zeros, HeaderLen;
    assert |a| == FIXED && |a + c| == HeaderLen(t.schema) && |a + c + d| == RowsOff(t);
    SixStand(ImageWith(t, places), a, c, d, t.rows, e, t.blob);
  }

  lemma SixStand(b: seq<byte>, a: seq<byte>, c: seq<byte>, d: seq<byte>, e: seq<byte>, f: seq<byte>, g: seq<byte>)
    requires b == a + c + d + e + f + g
    ensures Stands(b, 0, a) && Stands(b, |a|, c) && Stands(b, |a + c + d|, e) && Stands(b, |a + c + d + e + f|, g)
  {
    assert Stands(b, 0, a + c + d + e + f + g);
    hide Stands;
    StandsSplit(b, 0, a + c + d + e + f, g);
    StandsSplit(b, 0, a + c + d + e, f);
    StandsSplit(b, 0, a + c + d, e);
    StandsSplit(b, 0, a + c, d);
    StandsSplit(b, 0, a, c);
  }

  ghost function Sizes(t: Table): (r: seq<nat>)
    ensures |r| == 6
  {
    [HeaderLen(t.schema), t.schema.version, |t.schema.columns|, RowSize(t.schema), if t.sorted then 1 else 0, 0]
  }

  ghost function Offsets(t: Table): (r: seq<nat>)
    ensures |r| == 4
  {
    [t.nrows, RowsOff(t), BlobOff(t), |t.blob|]
  }

  lemma FixedIs(t: Table)
    ensures Fixed(t) == MAGIC + Words(Sizes(t), 4) + Words(Offsets(t), 8) + t.digest
    ensures |Words(Sizes(t), 4)| == 24 && |Words(Offsets(t), 8)| == 32
  {
    WordsLen(Sizes(t), 4);
    WordsLen(Offsets(t), 8);
    hide Words, HeaderLen, RowSize, RowsOff, BlobOff;
  }

  lemma FixedParts(t: Table, b: seq<byte>)
    ensures |t.digest| == 32 && Stands(b, 0, Fixed(t)) ==>
            && Stands(b, 0, MAGIC) && Stands(b, 8, Words(Sizes(t), 4)) && Stands(b, 32, Words(Offsets(t), 8))
            && Stands(b, 64, t.digest)
  {
    hide Stands, Words, Fixed, Sizes, Offsets;
    FixedIs(t);
    var w, v := Words(Sizes(t), 4), Words(Offsets(t), 8);
    if |t.digest| == 32 && Stands(b, 0, Fixed(t)) {
      StandsSplit(b, 0, MAGIC + w + v, t.digest);
      StandsSplit(b, 0, MAGIC + w, v);
      StandsSplit(b, 0, MAGIC, w);
    }
  }

  lemma NumbersFit(t: Table)
    requires Typed(t) && HeaderLen(t.schema) < U32_MAX
    ensures |Sizes(t)| == 6 && forall i | 0 <= i < 6 :: Sizes(t)[i] < Pow256(4)
    ensures |Offsets(t)| == 4 && forall i | 0 <= i < 4 :: Offsets(t)[i] < Pow256(8)
  {
    hide HeaderLen, RowSize, RowsOff, BlobOff;
    SchemaBlockCovers(t.schema);
    ImageOffsets(t);
    Pow256Values();
  }

  lemma NumbersRead(b: seq<byte>, ws: seq<nat>, vs: seq<nat>)
    requires |ws| == 6 && (forall i | 0 <= i < 6 :: ws[i] < Pow256(4)) && Stands(b, 8, Words(ws, 4)) && |b| >= FIXED
    requires |vs| == 4 && (forall i | 0 <= i < 4 :: vs[i] < Pow256(8)) && Stands(b, 32, Words(vs, 8))
    ensures NumAt(b, 8, 4) == ws[0] && NumAt(b, 12, 4) == ws[1] && NumAt(b, 16, 4) == ws[2]
    ensures NumAt(b, 20, 4) == ws[3] && NumAt(b, 24, 4) == ws[4]
    ensures NumAt(b, 32, 8) == vs[0] && NumAt(b, 40, 8) == vs[1] && NumAt(b, 48, 8) == vs[2] && NumAt(b, 56, 8) == vs[3]
  {
    hide Stands, Words, Pow256, NumAt;
    WordReads(b, 8, ws, 4, 0);
    WordReads(b, 8, ws, 4, 1);
    WordReads(b, 8, ws, 4, 2);
    WordReads(b, 8, ws, 4, 3);
    WordReads(b, 8, ws, 4, 4);
    WordReads(b, 32, vs, 8, 0);
    WordReads(b, 32, vs, 8, 1);
    WordReads(b, 32, vs, 8, 2);
    WordReads(b, 32, vs, 8, 3);
  }

  lemma HeaderReads(t: Table, b: seq<byte>)
    requires |t.digest| == 32 && Typed(t) && HeaderLen(t.schema) < U32_MAX && Stands(b, 0, Fixed(t))
    ensures |b| >= FIXED && b[0..8] == MAGIC
    ensures HeaderOf(b) == Header(HeaderLen(t.schema), t.schema.version, |t.schema.columns|, RowSize(t.schema), t.sorted,
                                  t.nrows, RowsOff(t), BlobOff(t), |t.blob|, t.digest)
  {
    hide Words, Pow256, NumAt, Typed, Fixed, HeaderLen, RowSize, RowsOff, BlobOff, Sizes, Offsets, HeaderOf;
    FixedParts(t, b);
    NumbersFit(t);
    NumbersRead(b, Sizes(t), Offsets(t));
    HeaderFrom(t, b);
  }

  lemma HeaderFrom(t: Table, b: seq<byte>)
    requires |b| >= FIXED
    ensures b[64..96] == t.digest && NumAt(b, 8, 4) == Sizes(t)[0] && NumAt(b, 12, 4) == Sizes(t)[1]
            && NumAt(b, 16, 4) == Sizes(t)[2] && NumAt(b, 20, 4) == Sizes(t)[3] && NumAt(b, 24, 4) == Sizes(t)[4]
            && NumAt(b, 32, 8) == Offsets(t)[0] && NumAt(b, 40, 8) == Offsets(t)[1]
            && NumAt(b, 48, 8) == Offsets(t)[2] && NumAt(b, 56, 8) == Offsets(t)[3]
            ==> HeaderOf(b) == Header(HeaderLen(t.schema), t.schema.version, |t.schema.columns|, RowSize(t.schema), t.sorted,
                                      t.nrows, RowsOff(t), BlobOff(t), |t.blob|, t.digest)
  {
    hide NumAt, HeaderLen, RowSize, RowsOff, BlobOff;
  }

  lemma SchemaBlockCovers(s: OwnedSchema)
    ensures |s.columns| <= HeaderLen(s) && |s.name| <= HeaderLen(s)
    ensures forall i | 0 <= i < |s.columns| :: |s.columns[i].name| <= HeaderLen(s)
  {
    hide ColBlocks, LayoutOf, Types, PlaceBytes;
    BlocksCover(s.columns, Places(s));
  }

  lemma SchemaNamesRead(s: OwnedSchema, utf8: seq<byte> -> bool)
    requires Readable(s, utf8) && HeaderLen(s) < U32_MAX
    ensures |s.name| < U32_MAX && utf8(s.name) && NamesRead(s.columns, utf8)
  {
    hide HeaderLen;
    SchemaBlockCovers(s);
  }

  lemma SchemaReads(s: OwnedSchema, places: seq<seq<byte>>, b: seq<byte>, utf8: seq<byte> -> bool)
    requires Readable(s, utf8) && HeaderLen(s) < U32_MAX && FourEach(s.columns, places)
    requires Stands(b, FIXED, SchemaBlock(s, places))
    ensures TakeStr(b, FIXED, utf8).Ok? && TakeStr(b, FIXED, utf8).value.0 == s.name
    ensures TakeColumns(b, TakeStr(b, FIXED, utf8).value.1, |s.columns|, utf8) == Ok((s.columns, HeaderLen(s)))
  {
    hide StrBlock, ColBlocks, TakeStr, TakeColumns, Stands, HeaderLen, Places, NamesRead;
    SchemaNamesRead(s, utf8);
    BlockLength(s, places);
    StandsSplit(b, FIXED, StrBlock(s.name), ColBlocks(s.columns, places));
    StrReads(b, FIXED, s.name, utf8);
    ColumnsRead(b, FIXED + |StrBlock(s.name)|, s.columns, places, utf8);
  }

  /** What a table must be for its image to parse, whatever digest it claims. */
  predicate Writable(t: Table, utf8: seq<byte> -> bool) {
    |t.digest| == 32 && Typed(t) && Readable(t.schema, utf8) && HeaderLen(t.schema) < U32_MAX
  }

  /** An image parses back to the header and the schema it was written with, whatever stands in the place of the
      offsets and sizes. */
  lemma ImageParses(t: Table, places: seq<seq<byte>>, utf8: seq<byte> -> bool)
    requires FourEach(t.schema.columns, places)
    ensures Writable(t, utf8) ==>
            Parsed(ImageWith(t, places), utf8)
            == Ok((Header(HeaderLen(t.schema), t.schema.version, |t.schema.columns|, RowSize(t.schema), t.sorted,
                          t.nrows, RowsOff(t), BlobOff(t), |t.blob|, t.digest), t.schema))
  {
    hide ImageWith, RowsOff, BlobOff, RowSize, HeaderOf, Fixed, SchemaBlock, Typed, TakeStr, TakeColumns, Readable, Stands, HeaderLen;
    if Writable(t, utf8) {
      ImageParts(t, places);
      HeaderReads(t, ImageWith(t, places));
      SchemaReads(t.schema, places, ImageWith(t, places), utf8);
    }
  }

  /** The rows and the blob of an image. */
  lemma ImageContents(t: Table, places: seq<seq<byte>>, h: Header)
    requires |t.digest| == 32 && FourEach(t.schema.columns, places) && |t.rows| == RowsLen(t.nrows, RowSize(t.schema))
    ensures h.rowsOff == RowsOff(t) && h.blobOff == BlobOff(t) && h.blobLen == |t.blob|
            && h.nrows == t.nrows && h.rowSize == RowSize(t.schema)
            ==> Contents(ImageWith(t, places), h) == Ok((t.rows, t.blob))
  {
    ImageParts(t, places);
    hide ImageWith, RowsOff, BlobOff, RowSize, RowsLen, Fixed, SchemaBlock, HeaderLen;
  }

  // ---- the main results ----

  /** What an open makes of the parts of an image, with the digest `digest` in its header. */
  function OpenedParts(t: Table, known: Option<OwnedSchema>, verify: bool, hash: seq<byte> -> seq<byte>): Result<Table, Error> {
    if verify && hash(t.rows + t.blob) != t.digest then Err(FormatError)
    else
      match known
      case None => Ok(t.(digest := hash(t.rows + t.blob)))
      case Some(s) =>
        if s.version == t.schema.version && s.columns == t.schema.columns
        then Ok(t.(schema := s, digest := hash(t.rows + t.blob))) else Err(VersionError)
  }

  /** Opening an image, of whatever digest and with whatever offsets and sizes in its column records. */
  lemma ImageOpens(t: Table, places: seq<seq<byte>>, known: Option<OwnedSchema>, verify: bool,
                   hash: seq<byte> -> seq<byte>, utf8: seq<byte> -> bool)
    requires FourEach(t.schema.columns, places)
    ensures Writable(t, utf8) && |t.rows| == RowsLen(t.nrows, RowSize(t.schema)) ==>
            Opened(ImageWith(t, places), known, verify, hash, utf8) == OpenedParts(t, known, verify, hash)
  {
    if Writable(t, utf8) && |t.rows| == RowsLen(t.nrows, RowSize(t.schema)) {
      ImageParses(t, places, utf8);
      ImageContents(t, places, Parsed(ImageWith(t, places), utf8).value.0);
      if known.Some? && known.value.columns == t.schema.columns {
        assert Types(known.value) == Types(t.schema);
      }
      hide ImageWith, RowsOff, BlobOff, LayoutOf, Types, Parsed, Typed, RowsLen, HeaderLen, Contents, Readable;
    }
  }

  lemma PlacesAreFour(s: OwnedSchema)
    ensures FourEach(s.columns, Places(s))
  {
  }

  /** A table as it is assembled, that the header can describe. */
  predicate Survives(t: Table, hash: seq<byte> -> seq<byte>, utf8: seq<byte> -> bool) {
    Built(t, hash) && Writable(t, utf8)
  }

  /** Opening the image of a table gives the table back. A compiled schema of that name must agree in version
      and columns, and then takes the place of the file's own. */
  lemma RoundTrip(t: Table, known: Option<OwnedSchema>, verify: bool, hash: seq<byte> -> seq<byte>, utf8: seq<byte> -> bool)
    ensures Survives(t, hash, utf8) ==>
            Opened(Image(t), known, verify, hash, utf8) ==
            match known
            case None => Ok(t)
            case Some(s) =>
              if s.version == t.schema.version && s.columns == t.schema.columns then Ok(t.(schema := s)) else Err(VersionError)
  {
    PlacesAreFour(t.schema);
    hide Opened, ImageWith, Places, FourEach, Writable, RowSize, RowsLen;
    ImageOpens(t, Places(t.schema), known, verify, hash, utf8);
  }

  /** The stored offsets and sizes are not looked at: whatever stands in their place, the table opens the same. */
  lemma StoredPlacesIgnored(t: Table, places: seq<seq<byte>>, known: Option<OwnedSchema>, verify: bool,
                            hash: seq<byte> -> seq<byte>, utf8: seq<byte> -> bool)
    requires FourEach(t.schema.columns, places)
    ensures Survives(t, hash, utf8) ==>
            Opened(ImageWith(t, places), known, verify, hash, utf8) == Opened(Image(t), known, verify, hash, utf8)
            && Opened(ImageWith(t, places), None, verify, hash, utf8) == Ok(t)
  {
    if Survives(t, hash, utf8) {
      PlacesAreFour(t.schema);
      hide Opened, ImageWith, Places, FourEach, Writable, RowSize, RowsLen;
      ImageOpens(t, places, known, verify, hash, utf8);
      ImageOpens(t, places, None, verify, hash, utf8);
      ImageOpens(t, Places(t.schema), known, verify, hash, utf8);
    }
  }

  /** Such an image that disagrees with its layout: one `u8` column, at offset 0 and of size 1, said to be at
      offset 7 and of size 9. */
  lemma DisagreeingPlacesOpen(utf8: seq<byte> -> bool)
    requires utf8([])
    ensures var t := Table(OwnedSchema([], 1, [Column([], U8)]), 0, [], [], false, Zeros(32));
            Places(t.schema) != [[7, 0, 9, 0]]
            && Opened(ImageWith(t, [[7, 0, 9, 0]]), None, true, _ => Zeros(32), utf8) == Ok(t)
  {
    hide Opened, ImageWith, Places, Survives, SchemaBlock, LayoutOf, Types, HeaderLen;
    var s := OwnedSchema([], 1, [Column([], U8)]);
    var t := Table(s, 0, [], [], false, Zeros(32));
    var places: seq<seq<byte>> := [[7, 0, 9, 0]];
    var hash := (_: seq<byte>) => Zeros(32);
    OneColumnSurvives(t, hash, utf8);
    PlacesAreFour(s);
    OneColumnPlaces(s);
    StoredPlacesIgnored(t, places, None, true, hash, utf8);
  }

  lemma OneColumnPlaces(s: OwnedSchema)
    requires |s.columns| == 1 && s.columns[0].ty == U8
    ensures Places(s)[0][2] == 1
  {
    hide LayoutOf, Types;
    assert PlaceBytes(U8, LayoutOf(Types(s)).offsets[0])[2] == Le(1, 2)[0] == 1;
  }

  lemma OneColumnSurvives(t: Table, hash: seq<byte> -> seq<byte>, utf8: seq<byte> -> bool)
    requires t == Table(OwnedSchema([], 1, [Column([], U8)]), 0, [], [], false, Zeros(32))
    requires utf8([]) && hash([]) == Zeros(32)
    ensures Survives(t, hash, utf8)
  {
    var s, c := t.schema, Column([], U8);
    assert t.rows + t.blob == [];
    PlacesAreFour(s);
    assert ColBlocks([c][..0], Places(s)[..0]) == [];
    assert |ColBlocks([c], Places(s))| == |ColBlock(c, Places(s)[0])| == 9;
    assert HeaderLen(s) == FIXED + 13;
    ImageOffsets(t);
    assert Types(s) == [U8];
    assert Place([U8], 0) == 0 && End([U8], 1) == 1;
  }

  lemma {:induction false} TakenLength(b: seq<byte>, at: nat, n: nat, utf8: seq<byte> -> bool, places: seq<seq<byte>>)
    requires TakeColumns(b, at, n, utf8).Ok? && FourEach(TakeColumns(b, at, n, utf8).value.0, places)
    ensures var (cols, q) := TakeColumns(b, at, n, utf8).value;
            |cols| == n && q == at + |ColBlocks(cols, places)|
    decreases n
  {
    hide TakeStr, FromU8, TypeCode;
    if n > 0 {
      var (cols, q) := TakeColumns(b, at, n, utf8).value;
      assert cols[..n - 1] == TakeColumns(b, at, n - 1, utf8).value.0;
      TakenLength(b, at, n - 1, utf8, places[..n - 1]);
      assert q == TakeColumns(b, at, n - 1, utf8).value.1 + |ColBlock(cols[n - 1], places[n - 1])|;
    }
  }

  /** Of every image that parses, the schema block is consumed to exactly the header's length. */
  lemma ParsedFillsHeader(b: seq<byte>, utf8: seq<byte> -> bool)
    ensures match Parsed(b, utf8)
            case Err(_) => true
            case Ok((h, s)) => h.headerLen == HeaderLen(s) < U32_MAX && h.rowSize == RowSize(s) && h.version == s.version
  {
    if Parsed(b, utf8).Ok? {
      var (h, s) := Parsed(b, utf8).value;
      var p := TakeStr(b, FIXED, utf8).value.1;
      PlacesAreFour(s);
      TakenLength(b, p, h.ncols, utf8, Places(s));
      Pow256Values();
      FromLeBound(b[8..12]);
    }
  }

  /** A table survives the round trip exactly when its header length fits the 32 bits it is stored in. */
  lemma RoundTripIffHeaderFits(t: Table, verify: bool, hash: seq<byte> -> seq<byte>, utf8: seq<byte> -> bool)
    ensures Built(t, hash) && Typed(t) && Readable(t.schema, utf8) ==>
            (Opened(Image(t), None, verify, hash, utf8) == Ok(t) <==> HeaderLen(t.schema) < U32_MAX)
  {
    if Built(t, hash) && Typed(t) && Readable(t.schema, utf8) {
      if HeaderLen(t.schema) < U32_MAX {
        RoundTrip(t, None, verify, hash, utf8);
      } else {
        ParsedFillsHeader(Image(t), utf8);
      }
    }
  }

  /** One that does not: a name of 2^32 bytes. */
  lemma LongNameLost(verify: bool, hash: seq<byte> -> seq<byte>, utf8: seq<byte> -> bool)
    requires |hash([])| == 32 && utf8(Zeros(U32_MAX))
    ensures var t := Table(OwnedSchema(Zeros(U32_MAX), 1, []), 0, [], [], false, hash([]));
            && Built(t, hash) && Typed(t) && Readable(t.schema, utf8)
            && Opened(Image(t), None, verify, hash, utf8) != Ok(t)
  {
    hide Opened, Image;
    var t := Table(OwnedSchema(Zeros(U32_MAX), 1, []), 0, [], [], false, hash([]));
    assert t.rows + t.blob == [];
    RoundTripIffHeaderFits(t, verify, hash, utf8);
  }

  /** A verified open refuses an image whose rows or blob were changed, unless the digest does not tell them from
      those written. */
  lemma ChangedContentRefused(t: Table, rows: seq<byte>, blob: seq<byte>, known: Option<OwnedSchema>,
                              hash: seq<byte> -> seq<byte>, utf8: seq<byte> -> bool)
    requires |rows| == |t.rows| && |blob| == |t.blob| && (rows != t.rows || blob != t.blob)
    ensures Survives(t, hash, utf8) ==>
            var changed := Image(t.(rows := rows, blob := blob));
            && |changed| == |Image(t)|
            && (hash(rows + blob) != hash(t.rows + t.blob) ==> Opened(changed, known, true, hash, utf8) == Err(FormatError))
            && (hash(rows + blob) == hash(t.rows + t.blob) && known.None? ==>
                  Opened(changed, known, true, hash, utf8) == Ok(t.(rows := rows, blob := blob)))
  {
    hide Opened, ImageWith, Places, FourEach, Readable, RowSize, RowsLen, Stands, SchemaBlock, Fixed, AlignUp, HeaderLen;
    if Survives(t, hash, utf8) {
      var t' := t.(rows := rows, blob := blob);
      assert RowsOff(t') == RowsOff(t) && BlobOff(t') == BlobOff(t);
      PlacesAreFour(t.schema);
      ImageParts(t, Places(t.schema));
      ImageParts(t', Places(t.schema));
      ImageOpens(t', Places(t.schema), known, true, hash, utf8);
    }
  }

  /** Two tables with the same image are the same table. */
  lemma ImageInjective(t: Table, t': Table, hash: seq<byte> -> seq<byte>, utf8: seq<byte> -> bool)
    ensures Survives(t, hash, utf8) && Survives(t', hash, utf8) && Image(t) == Image(t') ==> t == t'
  {
    hide Image, Opened;
    if Survives(t, hash, utf8) && Survives(t', hash, utf8) && Image(t) == Image(t') {
      RoundTrip(t, None, false, hash, utf8);
      RoundTrip(t', None, false, hash, utf8);
    }
  }

  method OpenOwned(b: seq<byte>, known: Option<OwnedSchema>, verify: bool,
                   hash: seq<byte> -> seq<byte>, utf8: seq<byte> -> bool) returns (r: Result<Table, Error>)
    ensures r == Opened(b, known, verify, hash, utf8)
  {
    hide Parsed, Assembled, Resolved;
    var p := ParseHeader(b, utf8);
    if p.Err? {
      return Err(p.error);
    }
    var (h, own) := p.value;
    var contents := Contents(b, h);
    if contents.Err? {
      return Err(contents.error);
    }
    var (rows, blob) := contents.value;
    if verify {
      if hash(rows + blob) != h.digest {
        return Err(FormatError);
      }
    }
    var s := Resolved(own, known);
    if s.Err? {
      return Err(s.error);
    }
    r := Assembled(s.value, h, rows, blob, hash);
  }
}
