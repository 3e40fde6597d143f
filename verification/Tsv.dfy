/** The TSV rendering of a table, and why every cell can be read back from it. */
module Tsv {
  import opened Text

  /** A cell as TSV shows it: a string, to be escaped, or the text of a number, a bool, bytes or a list. */
  datatype Cell = Str(s: string) | Plain(text: string)

  datatype Table = Table(names: seq<string>, rows: seq<seq<Cell>>)

  function CellText(cell: Cell): string {
    match cell
    case Str(s) => Replace(Replace(Replace(s, '\\', "\\\\"), '\t', "\\t"), '\n', "\\n")
    case Plain(text) => text
  }

  function CellTexts(row: seq<Cell>): (r: seq<string>)
    ensures |r| == |row| && forall i | 0 <= i < |row| :: r[i] == CellText(row[i])
  {
    seq(|row|, i requires 0 <= i < |row| => CellText(row[i]))
  }

  function LinesOf(t: Table): seq<string> {
    [Join(t.names, '\t')] + seq(|t.rows|, r requires 0 <= r < |t.rows| => Join(CellTexts(t.rows[r]), '\t'))
  }

  function Rendered(t: Table): string {
    Lines(LinesOf(t))
  }

  method Render(t: Table) returns (out: string)
    ensures out == Rendered(t)
  {
    hide Lines, Join, CellTexts;
    LinesSnoc([], Join(t.names, '\t'));
    out := "";
    out := out + Join(t.names, '\t');
    out := out + "\n";
    ghost var lines := [Join(t.names, '\t')];
    assert [] + [Join(t.names, '\t')] == lines;
    for r := 0 to |t.rows|
      invariant lines == LinesOf(t)[..r + 1] && out == Lines(lines)
    {
      var line := Join(CellTexts(t.rows[r]), '\t');
      LinesSnoc(lines, line);
      out := out + line;
      out := out + "\n";
      lines := lines + [line];
    }
    assert LinesOf(t)[..|t.rows| + 1] == LinesOf(t);
  }

  // ---- the escapes ----

  function EscapeChar(c: char): string {
    if c == '\\' then "\\\\" else if c == '\t' then "\\t" else if c == '\n' then "\\n" else [c]
  }

  function Escape(s: string): string {
    if s == "" then "" else EscapeChar(s[0]) + Escape(s[1..])
  }

  lemma ReplaceTwo(x: char, y: char, c: char, r: string)
    requires x != c && y != c
    ensures Replace([x, y], c, r) == [x, y]
  {
    assert [x, y] == [x] + [y];
    ReplaceAppend([x], [y], c, r);
    ReplaceOne(x, c, r);
    ReplaceOne(y, c, r);
  }

  lemma EscapesOfOne(c: char)
    ensures CellText(Str([c])) == EscapeChar(c)
    ensures CellText(Str([c])) == if c == '\t' then ['\\', 't'] else if c == '\n' then ['\\', 'n']
                                  else if c == '\\' then ['\\', '\\'] else [c]
  {
    hide Replace;
    ReplaceOne(c, '\\', "\\\\");
    ReplaceOne(c, '\t', "\\t");
    ReplaceOne(c, '\n', "\\n");
    ReplaceTwo('\\', '\\', '\t', "\\t");
    ReplaceTwo('\\', '\\', '\n', "\\n");
    ReplaceTwo('\\', 't', '\n', "\\n");
  }

  /** The three replacements one after the other escape character by character. */
  lemma {:induction false} EscapesCompose(s: string)
    ensures CellText(Str(s)) == Escape(s)
  {
    if s != "" {
      assert s == [s[0]] + s[1..];
      var a, b := [s[0]], s[1..];
      EscapesOfOne(s[0]);
      EscapesCompose(b);
      ReplaceAppend(a, b, '\\', "\\\\");
      ReplaceAppend(Replace(a, '\\', "\\\\"), Replace(b, '\\', "\\\\"), '\t', "\\t");
      ReplaceAppend(Replace(Replace(a, '\\', "\\\\"), '\t', "\\t"), Replace(Replace(b, '\\', "\\\\"), '\t', "\\t"), '\n', "\\n");
    }
  }

  /** Undoes the escapes. */
  function Unescape(s: string): string {
    if s == "" then ""
    else if s[0] == '\\' && |s| >= 2 then
      (if s[1] == 't' then "\t" else if s[1] == 'n' then "\n" else [s[1]]) + Unescape(s[2..])
    else [s[0]] + Unescape(s[1..])
  }

  lemma UnescapeChar(c: char, rest: string)
    ensures Unescape(EscapeChar(c) + rest) == [c] + Unescape(rest)
  {
    var e := EscapeChar(c);
    assert (e + rest)[0] == e[0] && (e + rest)[|e|..] == rest;
    if |e| == 2 {
      assert (e + rest)[1] == e[1];
    }
  }

  lemma {:induction false} EscapeUndone(s: string)
    ensures Unescape(Escape(s)) == s
  {
    if s != "" {
      EscapeUndone(s[1..]);
      UnescapeChar(s[0], Escape(s[1..]));
    }
  }

  lemma {:induction false} EscapeHidesSeparators(s: string)
    ensures '\t' !in Escape(s) && '\n' !in Escape(s)
  {
    if s != "" {
      EscapeHidesSeparators(s[1..]);
    }
  }

  // ---- the main result ----

  predicate Clean(s: string) {
    '\t' !in s && '\n' !in s
  }

  /** Rows as wide as the header, and no separator in the unescaped texts: what the schema and the formatting
      of numbers, bools, bytes and lists give. */
  predicate Typical(t: Table) {
    && (forall r | 0 <= r < |t.rows| :: |t.rows[r]| == |t.names|)
    && (forall r, c | 0 <= r < |t.rows| && 0 <= c < |t.rows[r]| :: t.rows[r][c].Plain? ==> Clean(t.rows[r][c].text))
  }

  /** A table with columns, whose names hold no separator. */
  predicate Regular(t: Table) {
    Typical(t) && t.names != [] && forall i | 0 <= i < |t.names| :: Clean(t.names[i])
  }

  /** What a reader of TSV sees: the parts of every line. */
  function Read(text: string): seq<seq<string>> {
    var lines := Split(text, '\n');
    seq(|lines| - 1, i requires 0 <= i < |lines| - 1 => Split(lines[i], '\t'))
  }

  lemma CellIsClean(cell: Cell)
    requires cell.Plain? ==> Clean(cell.text)
    ensures Clean(CellText(cell))
    ensures match cell case Str(s) => Unescape(CellText(cell)) == s case Plain(text) => CellText(cell) == text
  {
    if cell.Str? {
      EscapesCompose(cell.s);
      EscapeHidesSeparators(cell.s);
      EscapeUndone(cell.s);
    }
  }

  lemma RowReads(t: Table, r: nat)
    requires Regular(t) && r < |t.rows|
    ensures '\n' !in Join(CellTexts(t.rows[r]), '\t')
    ensures Split(Join(CellTexts(t.rows[r]), '\t'), '\t') == CellTexts(t.rows[r])
  {
    var row := t.rows[r];
    forall c | 0 <= c < |row|
      ensures Clean(CellTexts(row)[c])
    {
      CellIsClean(row[c]);
    }
    JoinKeepsOut(CellTexts(row), '\t', '\n');
    SplitJoin(CellTexts(row), '\t');
  }

  /** Reading the rendering gives the header and every cell text back. */
  ghost predicate Survives(t: Table) {
    && |Read(Rendered(t))| == |t.rows| + 1 && Read(Rendered(t))[0] == t.names
    && forall r | 0 <= r < |t.rows| :: Read(Rendered(t))[r + 1] == CellTexts(t.rows[r])
  }

  lemma NamesAreClean(t: Table)
    requires Regular(t)
    ensures forall i | 0 <= i < |t.names| :: '\n' !in t.names[i] && '\t' !in t.names[i]
  {
  }

  lemma RegularSurvives(t: Table)
    requires Regular(t)
    ensures Survives(t)
  {
    hide Split, Join, Lines, CellText, Clean;
    var lines := LinesOf(t);
    NamesAreClean(t);
    JoinKeepsOut(t.names, '\t', '\n');
    SplitJoin(t.names, '\t');
    forall r | 0 <= r < |t.rows|
      ensures '\n' !in lines[r + 1] && Split(lines[r + 1], '\t') == CellTexts(t.rows[r])
    {
      RowReads(t, r);
    }
    SplitLines(lines);
  }

  /** Whatever text is read, no part holds a separator and no line is without parts. */
  lemma ReadIsClean(text: string, r: nat, c: nat)
    requires r < |Read(text)|
    ensures Read(text)[r] != [] && (c < |Read(text)[r]| ==> Clean(Read(text)[r][c]))
  {
    hide Split;
    var line := Split(text, '\n')[r];
    if c < |Read(text)[r]| {
      forall x | x in Split(line, '\t')[c]
        ensures x != '\t' && x != '\n'
      {
        SplitHolds(line, '\t', c, x);
        SplitHolds(text, '\n', r, x);
      }
    }
  }

  /** The header and every row read back exactly when there is a column and no name holds a separator. */
  lemma ReadsBackIffCleanNames(t: Table)
    requires Typical(t)
    ensures Survives(t) <==> t.names != [] && forall i | 0 <= i < |t.names| :: Clean(t.names[i])
  {
    hide Read, Rendered, CellTexts;
    if Regular(t) {
      RegularSurvives(t);
    }
    if Survives(t) {
      ReadIsClean(Rendered(t), 0, 0);
      forall i | 0 <= i < |t.names|
        ensures Clean(t.names[i])
      {
        ReadIsClean(Rendered(t), 0, i);
      }
    }
  }

  /** Unescaping a string cell's text gives the string; any other cell's text is read as it is. */
  lemma CellReadsBack(t: Table, r: nat, c: nat)
    requires Regular(t) && r < |t.rows| && c < |t.rows[r]|
    ensures |Read(Rendered(t))| == |t.rows| + 1 && |Read(Rendered(t))[r + 1]| == |t.rows[r]|
    ensures var part := Read(Rendered(t))[r + 1][c];
            match t.rows[r][c] case Str(s) => Unescape(part) == s case Plain(text) => part == text
  {
    hide Read, Rendered, Unescape;
    RegularSurvives(t);
    CellIsClean(t.rows[r][c]);
  }

  /** Without columns the reading breaks: it finds one empty part in a row of none. */
  lemma NoColumnsMisread(n: nat)
    ensures var t := Table([], seq(n, _ => []));
            |Read(Rendered(t))| == n + 1 && Read(Rendered(t))[0] == [""] != t.names
  {
    var t := Table([], seq(n, _ => []));
    SplitLines(LinesOf(t));
  }

  /** A name with a tab in it is read as two columns. */
  lemma TabbedNameMisread()
    ensures var t := Table(["a\tb"], []);
            Read(Rendered(t)) == [["a", "b"]] && !Survives(t)
  {
    hide Split;
    var t := Table(["a\tb"], []);
    var line := "a" + ['\t'] + "b";
    assert t.names[0] == line && LinesOf(t) == [line];
    SplitFirst("a", "b", '\t');
    SplitFirst("b", "", '\t');
    assert Split(line, '\t') == ["a", "b"];
    SplitLines([line]);
    assert Split(Rendered(t), '\n') == [line, ""];
    assert Read(Rendered(t)) == [["a", "b"]];
  }
}
