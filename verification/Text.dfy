/** Lines, separators and replacement in strings. */
module Text {
  /** `s.replace(c, r)` */
  function Replace(s: string, c: char, r: string): string {
    if s == "" then "" else (if s[0] == c then r else [s[0]]) + Replace(s[1..], c, r)
  }

  function Join(parts: seq<string>, sep: char): string {
    if parts == [] then ""
    else if |parts| == 1 then parts[0]
    else parts[0] + [sep] + Join(parts[1..], sep)
  }

  /** The rendered lines, each ended by a newline. */
  function Lines(lines: seq<string>): string {
    if lines == [] then "" else lines[0] + "\n" + Lines(lines[1..])
  }

  lemma {:induction false} LinesSnoc(lines: seq<string>, line: string)
    ensures Lines([]) == "" && Lines(lines + [line]) == Lines(lines) + (line + "\n")
  {
    if lines == [] {
      assert lines + [line] == [line];
    } else {
      assert (lines + [line])[1..] == lines[1..] + [line];
      LinesSnoc(lines[1..], line);
    }
  }

  lemma {:induction false} ReplaceAppend(a: string, b: string, c: char, r: string)
    ensures Replace(a + b, c, r) == Replace(a, c, r) + Replace(b, c, r)
  {
    if a == "" {
      assert a + b == b;
    } else {
      assert (a + b)[1..] == a[1..] + b;
      ReplaceAppend(a[1..], b, c, r);
    }
  }

  lemma ReplaceOne(x: char, c: char, r: string)
    ensures Replace([x], c, r) == if x == c then r else [x]
  {
    assert [x][1..] == "";
  }

  // ---- splitting ----

  /** The parts of `s` between the separators. */
  function Split(s: string, sep: char): (r: seq<string>)
    ensures r != []
  {
    if s == "" then [""]
    else
      var rest := Split(s[1..], sep);
      if s[0] == sep then [""] + rest else [[s[0]] + rest[0]] + rest[1..]
  }

  lemma {:induction false} SplitFirst(a: string, b: string, sep: char)
    requires sep !in a
    ensures Split(a, sep) == [a]
    ensures Split(a + [sep] + b, sep) == [a] + Split(b, sep)
  {
    if a == "" {
      assert a + [sep] + b == [sep] + b && ([sep] + b)[1..] == b;
    } else {
      var all := a + [sep] + b;
      assert all[0] == a[0] && all[1..] == a[1..] + [sep] + b;
      SplitFirst(a[1..], b, sep);
      assert a == [a[0]] + a[1..];
    }
  }

  /** Splitting undoes joining, for at least one part. */
  lemma {:induction false} SplitJoin(parts: seq<string>, sep: char)
    requires parts != [] && forall i | 0 <= i < |parts| :: sep !in parts[i]
    ensures Split(Join(parts, sep), sep) == parts
  {
    if |parts| == 1 {
      SplitFirst(parts[0], "", sep);
      assert parts == [parts[0]];
    } else {
      SplitJoin(parts[1..], sep);
      SplitFirst(parts[0], Join(parts[1..], sep), sep);
      assert parts == [parts[0]] + parts[1..];
    }
  }

  lemma {:induction false} SplitLines(lines: seq<string>)
    requires forall i | 0 <= i < |lines| :: '\n' !in lines[i]
    ensures Split(Lines(lines), '\n') == lines + [""]
  {
    if lines == [] {
    } else {
      SplitLines(lines[1..]);
      SplitFirst(lines[0], Lines(lines[1..]), '\n');
      assert lines == [lines[0]] + lines[1..];
    }
  }

  /** The parts hold no separator, and nothing the whole does not hold. */
  lemma {:induction false} SplitHolds(s: string, sep: char, i: nat, c: char)
    requires i < |Split(s, sep)| && c in Split(s, sep)[i]
    ensures c != sep && c in s
  {
    if s != "" {
      var rest := Split(s[1..], sep);
      if i > 0 {
        SplitHolds(s[1..], sep, if s[0] == sep then i - 1 else i, c);
      } else if s[0] != sep && c != s[0] {
        SplitHolds(s[1..], sep, 0, c);
      }
    }
  }

  lemma {:induction false} JoinKeepsOut(parts: seq<string>, sep: char, c: char)
    requires c != sep && forall i | 0 <= i < |parts| :: c !in parts[i]
    ensures c !in Join(parts, sep)
  {
    if |parts| > 1 {
      JoinKeepsOut(parts[1..], sep, c);
    }
  }

  lemma {:induction false} LinesAppend(a: seq<string>, b: seq<string>)
    ensures Lines(a + b) == Lines(a) + Lines(b)
  {
    if a == [] {
      assert a + b == b;
    } else {
      assert (a + b)[1..] == a[1..] + b;
      LinesAppend(a[1..], b);
    }
  }
}
