/** The `.tbl` image of a table: what is written, what is read back, and what is refused. */
module Tbl {
  import opened Wrappers
  import opened Bits
  import opened Schema

  const MAGIC: seq<byte> := [77, 79, 83, 84, 66, 76, 48, 49]
  const FIXED := 96
  const U32_MAX := 0x1_0000_0000
  const U64_MAX := 0x1_0000_0000_0000_0000

  datatype Error = FormatError | VersionError

  datatype Column = Column(name: seq<byte>, ty: ColType)

  datatype OwnedSchema = OwnedSchema(name: seq<byte>, version: nat, columns: seq<Column>)

  datatype Table = Table(schema: OwnedSchema, nrows: nat, rows: seq<byte>, blob: seq<byte>, sorted: bool,
                         digest: seq<byte>)

  datatype Header = Header(headerLen: nat, version: nat, ncols: nat, rowSize: nat, sorted: bool, nrows: nat,
                           rowsOff: nat, blobOff: nat, blobLen: nat, digest: seq<byte>)

  function Types(s: OwnedSchema): (r: seq<ColType>)
    ensures |r| == |s.columns|
  {
    seq(|s.columns|, i requires 0 <= i < |s.columns| => s.columns[i].ty)
  }

  function RowSize(s: OwnedSchema): nat {
    LayoutOf(Types(s)).rowSize
  }

  // ---- numbers ----

  /** The `k` low bytes of `n`, least significant first. */
  function Le(n: nat, k: nat): (r: seq<byte>)
    ensures |r| == k
  {
    if k == 0 then [] else [n % 256] + Le(n / 256, k - 1)
  }

  function FromLe(b: seq<byte>): nat {
    if b == [] then 0 else b[0] + 256 * FromLe(b[1..])
  }

  function Pow256(k: nat): nat {
    if k == 0 then 1 else 256 * Pow256(k - 1)
  }

  lemma {:induction false} LeReadsBack(n: nat, k: nat)
    requires n < Pow256(k)
    ensures FromLe(Le(n, k)) == n
  {
    if k > 0 {
      LeReadsBack(n / 256, k - 1);
    }
  }

  lemma {:induction false} FromLeBound(b: seq<byte>)
    ensures FromLe(b) < Pow256(|b|)
  {
    if b != [] {
      FromLeBound(b[1..]);
    }
  }

  lemma Pow256Values()
    ensures Pow256(4) == U32_MAX && Pow256(8) == U64_MAX
  {
    assert Pow256(2) == 0x10000;
    assert Pow256(4) == U32_MAX;
    assert Pow256(6) == 0x1_0000_0000_0000;
  }

  function NumAt(b: seq<byte>, at: nat, k: nat): nat
    requires at + k <= |b|
  {
    FromLe(b[at..at + k])
  }

  function Zeros(n: nat): (r: seq<byte>)
    ensures |r| == n
  {
    seq(n, _ => 0)
  }

  // ---- what is written ----

  function StrBlock(s: seq<byte>): seq<byte> {
    Le(|s|, 4) + s
  }

  /** A column record: the name, the type, and four bytes for the offset and the size of the cell. */
  function ColBlock(c: Column, place: seq<byte>): seq<byte> {
    StrBlock(c.name) + [TypeCode(c.ty)] + place
  }

  function ColBlocks(cols: seq<Column>, places: seq<seq<byte>>): seq<byte>
    requires |cols| == |places|
  {
    if cols == [] then []
    else ColBlocks(cols[..|cols| - 1], places[..|cols| - 1]) + ColBlock(cols[|cols| - 1], places[|cols| - 1])
  }

  function PlaceBytes(ty: ColType, off: nat): (r: seq<byte>)
    ensures |r| == 4
  {
    Le(off, 2) + Le(CellSize(ty), 2)
  }

  /** The offsets and sizes that are written: those of the layout. */
  function Places(s: OwnedSchema): (r: seq<seq<byte>>)
    ensures |r| == |s.columns|
  {
    seq(|s.columns|, i requires 0 <= i < |s.columns| => PlaceBytes(s.columns[i].ty, LayoutOf(Types(s)).offsets[i]))
  }

  function SchemaBlock(s: OwnedSchema, places: seq<seq<byte>>): seq<byte>
    requires |places| == |s.columns|
  {
    StrBlock(s.name) + ColBlocks(s.columns, places)
  }

  function HeaderLen(s: OwnedSchema): nat {
    FIXED + |SchemaBlock(s, Places(s))|
  }

  function RowsOff(t: Table): nat {
    AlignUp(HeaderLen(t.schema), 8)
  }

  function BlobOff(t: Table): nat {
    AlignUp(RowsOff(t) + |t.rows|, 8)
  }

  function Words(ws: seq<nat>, k: nat): seq<byte> {
    if ws == [] then [] else Words(ws[..|ws| - 1], k) + Le(ws[|ws| - 1], k)
  }

  function Fixed(t: Table): seq<byte> {
    MAGIC
    + Words([HeaderLen(t.schema), t.schema.version, |t.schema.columns|, RowSize(t.schema), if t.sorted then 1 else 0, 0], 4)
    + Words([t.nrows, RowsOff(t), BlobOff(t), |t.blob|], 8)
    + t.digest
  }

  lemma WordsSnoc(ws: seq<nat>, w: nat, k: nat)
    ensures Words([], k) == [] && Words(ws + [w], k) == Words(ws, k) + Le(w, k)
  {
    assert (ws + [w])[..|ws|] == ws;
  }

  function Image(t: Table): seq<byte> {
    ImageWith(t, Places(t.schema))
  }

  /** The image with other bytes in the place of the offsets and sizes of the columns. */
  function ImageWith(t: Table, places: seq<seq<byte>>): seq<byte>
    requires |places| == |t.schema.columns|
  {
    AlignUpIs(HeaderLen(t.schema), 8);
    AlignUpIs(RowsOff(t) + |t.rows|, 8);
    Fixed(t) + SchemaBlock(t.schema, places) + Zeros(RowsOff(t) - HeaderLen(t.schema)) + t.rows
    + Zeros(BlobOff(t) - (RowsOff(t) + |t.rows|)) + t.blob
  }

  /** Pads with zero bytes up to `n`. */
  method Resize(out: seq<byte>, n: nat) returns (r: seq<byte>)
    requires |out| <= n
    ensures r == out + Zeros(n - |out|)
  {
    r := out + Zeros(n - |out|);
  }

  /** One more number of a run of numbers behind `head`. */
  method PutWord(out: seq<byte>, n: nat, k: nat, ghost head: seq<byte>, ghost ws: seq<nat>)
    returns (r: seq<byte>, ghost ws': seq<nat>)
    requires out == head + Words(ws, k)
    ensures ws' == ws + [n] && r == head + Words(ws', k)
  {
    WordsSnoc(ws, n, k);
    hide Words, Le;
    r, ws' := out + Le(n, k), ws + [n];
  }

  method WriteSizes(a: nat, b: nat, c: nat, d: nat, e: nat) returns (out: seq<byte>)
    ensures out == MAGIC + Words([a, b, c, d, e, 0], 4)
  {
    WordsSnoc([], 0, 4);
    assert [] + [a] + [b] + [c] + [d] + [e] + [0] == [a, b, c, d, e, 0];
    hide Words;
    out := MAGIC;
    ghost var ws: seq<nat> := [];
    out, ws := PutWord(out, a, 4, MAGIC, ws);
    out, ws := PutWord(out, b, 4, MAGIC, ws);
    out, ws := PutWord(out, c, 4, MAGIC, ws);
    out, ws := PutWord(out, d, 4, MAGIC, ws);
    out, ws := PutWord(out, e, 4, MAGIC, ws);
    out, ws := PutWord(out, 0, 4, MAGIC, ws);
  }

  method WriteOffsets(head: seq<byte>, a: nat, b: nat, c: nat, d: nat) returns (out: seq<byte>)
    ensures out == head + Words([a, b, c, d], 8)
  {
    WordsSnoc([], 0, 8);
    assert [] + [a] + [b] + [c] + [d] == [a, b, c, d];
    hide Words;
    out := head;
    ghost var ws: seq<nat> := [];
    out, ws := PutWord(out, a, 8, head, ws);
    out, ws := PutWord(out, b, 8, head, ws);
    out, ws := PutWord(out, c, 8, head, ws);
    out, ws := PutWord(out, d, 8, head, ws);
  }

  method WriteColumn(c: Column, off: nat) returns (rec: seq<byte>)
    ensures rec == ColBlock(c, PlaceBytes(c.ty, off))
  {
    rec := Le(|c.name|, 4) + c.name;
    rec := rec + [TypeCode(c.ty)];
    rec := rec + Le(off, 2);
    rec := rec + Le(CellSize(c.ty), 2);
  }

  lemma NoColBlocks(cols: seq<Column>, places: seq<seq<byte>>)
    requires |cols| == |places|
    ensures ColBlocks(cols[..0], places[..0]) == []
  {
  }

  lemma ColBlocksSnoc(cols: seq<Column>, places: seq<seq<byte>>, i: nat)
    requires i < |cols| == |places|
    ensures ColBlocks(cols[..i + 1], places[..i + 1]) == ColBlocks(cols[..i], places[..i]) + ColBlock(cols[i], places[i])
  {
    assert cols[..i + 1][..i] == cols[..i] && places[..i + 1][..i] == places[..i];
  }

  method WriteSchema(s: OwnedSchema) returns (sb: seq<byte>, l: Layout)
    ensures sb == SchemaBlock(s, Places(s)) && l == LayoutOf(Types(s))
  {
    hide ColBlocks, PlaceBytes, LayoutOf;
    var types := Types(s);
    l := ComputeLayout(types);
    sb := Le(|s.name|, 4) + s.name;
    sb := WriteColumns(s.columns, l.offsets, sb, Places(s));
  }

  method WriteColumns(cols: seq<Column>, offsets: seq<nat>, head: seq<byte>, ghost places: seq<seq<byte>>) returns (sb: seq<byte>)
    requires |cols| == |offsets| == |places|
    requires forall i | 0 <= i < |cols| :: places[i] == PlaceBytes(cols[i].ty, offsets[i])
    ensures sb == head + ColBlocks(cols, places)
  {
    hide ColBlock, ColBlocks, PlaceBytes;
    NoColBlocks(cols, places);
    sb := head;
    for i := 0 to |cols|
      invariant sb == head + ColBlocks(cols[..i], places[..i])
    {
      ColBlocksSnoc(cols, places, i);
      var rec := WriteColumn(cols[i], offsets[i]);
      sb := sb + rec;
    }
    assert cols[..|cols|] == cols && places[..|cols|] == places;
  }

  method Write(t: Table) returns (out: seq<byte>)
    requires |t.digest| == 32
    ensures out == Image(t)
  {
    hide ImageWith, AlignUp, Fixed, SchemaBlock, Zeros, LayoutOf, Types, Words, Places;
    var sb, l := WriteSchema(t.schema);
    ImageOffsets(t);
    FixedLen(t);
    ImageIs(t, sb);
    var headerLen := FIXED + |sb|;
    var rowsOff := AlignUp(headerLen, 8);
    var blobOff := AlignUp(rowsOff + |t.rows|, 8);
    out := WriteFixed(t, headerLen, l.rowSize, rowsOff, blobOff);
    out := out + sb;
    out := Resize(out, rowsOff);
    out := out + t.rows;
    assert |out| == rowsOff + |t.rows|;
    out := Resize(out, blobOff);
    out := out + t.blob;
  }

  lemma ImageIs(t: Table, sb: seq<byte>)
    requires sb == SchemaBlock(t.schema, Places(t.schema))
    ensures HeaderLen(t.schema) <= RowsOff(t) && RowsOff(t) + |t.rows| <= BlobOff(t)
    ensures Image(t) == Fixed(t) + sb + Zeros(RowsOff(t) - HeaderLen(t.schema)) + t.rows
                        + Zeros(BlobOff(t) - (RowsOff(t) + |t.rows|)) + t.blob
  {
    hide Fixed, HeaderLen;
    ImageOffsets(t);
  }

  /** The fixed header. */
  method WriteFixed(t: Table, headerLen: nat, rowSize: nat, rowsOff: nat, blobOff: nat) returns (out: seq<byte>)
    requires headerLen == HeaderLen(t.schema) && rowSize == RowSize(t.schema)
    requires rowsOff == RowsOff(t) && blobOff == BlobOff(t)
    ensures out == Fixed(t)
  {
    hide Words, HeaderLen, RowSize, RowsOff, BlobOff;
    out := WriteSizes(headerLen, t.schema.version, |t.schema.columns|, rowSize, if t.sorted then 1 else 0);
    out := WriteOffsets(out, t.nrows, rowsOff, blobOff, |t.blob|);
    out := out + t.digest;
  }

  lemma ImageOffsets(t: Table)
    ensures HeaderLen(t.schema) <= RowsOff(t) < HeaderLen(t.schema) + 8
    ensures RowsOff(t) + |t.rows| <= BlobOff(t) < RowsOff(t) + |t.rows| + 8
    ensures RowsOff(t) % 8 == BlobOff(t) % 8 == 0
  {
    AlignUpIs(HeaderLen(t.schema), 8);
    AlignUpIs(RowsOff(t) + |t.rows|, 8);
  }

  lemma {:induction false} WordsLen(ws: seq<nat>, k: nat)
    requires k == 4 || k == 8
    ensures |Words(ws, k)| == if k == 4 then 4 * |ws| else 8 * |ws|
  {
    if ws != [] {
      WordsLen(ws[..|ws| - 1], k);
    }
  }

  lemma FixedLen(t: Table)
    requires |t.digest| == 32
    ensures |Fixed(t)| == FIXED
  {
    hide Words;
    WordsLen([HeaderLen(t.schema), t.schema.version, |t.schema.columns|, RowSize(t.schema), if t.sorted then 1 else 0, 0], 4);
    WordsLen([t.nrows, RowsOff(t), BlobOff(t), |t.blob|], 8);
  }

  // ---- what is read ----

  function HeaderOf(b: seq<byte>): Header
    requires |b| >= FIXED
  {
    Header(NumAt(b, 8, 4), NumAt(b, 12, 4), NumAt(b, 16, 4), NumAt(b, 20, 4), NumAt(b, 24, 4) % 2 == 1,
           NumAt(b, 32, 8), NumAt(b, 40, 8), NumAt(b, 48, 8), NumAt(b, 56, 8), b[64..96])
  }

  /** A length-prefixed string at `at`, and the offset behind it. */
  function TakeStr(b: seq<byte>, at: nat, utf8: seq<byte> -> bool): (r: Result<(seq<byte>, nat), Error>)
    ensures r.Ok? ==> r.value.1 == at + 4 + |r.value.0| <= |b|
  {
    if at + 4 > |b| then Err(FormatError)
    else
      var n := NumAt(b, at, 4);
      if at + 4 + n > |b| then Err(FormatError)
      else
        var s := b[at + 4..at + 4 + n];
        if utf8(s) then Ok((s, at + 4 + n)) else Err(FormatError)
  }

  /** The first `n` column records from `at` on, and the offset behind them. */
  function TakeColumns(b: seq<byte>, at: nat, n: nat, utf8: seq<byte> -> bool): (r: Result<(seq<Column>, nat), Error>)
    ensures r.Ok? ==> |r.value.0| == n
  {
    if n == 0 then Ok(([], at))
    else
      match TakeColumns(b, at, n - 1, utf8)
      case Err(e) => Err(e)
      case Ok((cols, p)) =>
        match TakeStr(b, p, utf8)
        case Err(e) => Err(e)
        case Ok((name, q)) =>
          if q + 5 > |b| then Err(FormatError)
          else
            match FromU8(b[q])
            case None => Err(FormatError)
            case Some(ty) => Ok((cols + [Column(name, ty)], q + 5))
  }

  function Parsed(b: seq<byte>, utf8: seq<byte> -> bool): Result<(Header, OwnedSchema), Error> {
    if |b| < FIXED then Err(FormatError)
    else if b[0..8] != MAGIC then Err(VersionError)
    else
      var h := HeaderOf(b);
      if h.headerLen > |b| || h.rowsOff > |b| || h.blobOff > |b| || h.blobOff + h.blobLen > |b| then Err(FormatError)
      else
        match TakeStr(b, FIXED, utf8)
        case Err(e) => Err(e)
        case Ok((name, p)) =>
          match TakeColumns(b, p, h.ncols, utf8)
          case Err(e) => Err(e)
          case Ok((columns, q)) =>
            var s := OwnedSchema(name, h.version, columns);
            if q != h.headerLen then Err(FormatError)
            else if RowSize(s) != h.rowSize then Err(FormatError)
            else Ok((h, s))
  }

  /** A known name must match the compiled version and columns; an unknown one keeps the file's schema. */
  function Resolved(own: OwnedSchema, known: Option<OwnedSchema>): Result<OwnedSchema, Error> {
    match known
    case None => Ok(own)
    case Some(s) => if s.version == own.version && s.columns == own.columns then Ok(s) else Err(VersionError)
  }

  /** The bytes of all the rows, as the header counts them. */
  function RowsLen(nrows: nat, rowSize: nat): nat {
    nrows * rowSize
  }

  /** The rows and the blob a header points at. */
  function Contents(b: seq<byte>, h: Header): (r: Result<(seq<byte>, seq<byte>), Error>)
    ensures r.Ok? ==> |r.value.0| == RowsLen(h.nrows, h.rowSize) && |r.value.1| == h.blobLen
  {
    var rowsLen := RowsLen(h.nrows, h.rowSize);
    if h.rowsOff + rowsLen > |b| || h.blobOff + h.blobLen > |b| then Err(FormatError)
    else Ok((b[h.rowsOff..h.rowsOff + rowsLen], b[h.blobOff..h.blobOff + h.blobLen]))
  }

  /** A table over a schema; the rows must be a whole number of them. */
  function Assembled(s: OwnedSchema, h: Header, rows: seq<byte>, blob: seq<byte>, hash: seq<byte> -> seq<byte>): Result<Table, Error> {
    if |rows| != RowsLen(h.nrows, RowSize(s)) then Err(FormatError)
    else Ok(Table(s, h.nrows, rows, blob, h.sorted, hash(rows + blob)))
  }

  function Opened(b: seq<byte>, known: Option<OwnedSchema>, verify: bool,
                  hash: seq<byte> -> seq<byte>, utf8: seq<byte> -> bool): Result<Table, Error> {
    match Parsed(b, utf8)
    case Err(e) => Err(e)
    case Ok((h, own)) =>
      match Contents(b, h)
      case Err(e) => Err(e)
      case Ok((rows, blob)) =>
        if verify && hash(rows + blob) != h.digest then Err(FormatError)
        else
          match Resolved(own, known)
          case Err(e) => Err(e)
          case Ok(s) => Assembled(s, h, rows, blob, hash)
  }
}
