/** The structural similarity of two C functions: token skeletons, and the score over them. */
module Ccompare {
  import opened Lcs

  /** The character classes of the host's Unicode tables. */
  datatype Classes = Classes(white: char -> bool, alphabetic: char -> bool, numeric: char -> bool)

  const OPERATORS := "+-*/%<>=!&|^~?:."
  const GROUPING := "(){};,"

  predicate IsOperator(c: char) {
    c in OPERATORS
  }

  predicate IsGrouping(c: char) {
    c in GROUPING
  }

  const TYPES: seq<string> := [
    "int", "uint", "long", "ulong", "char", "uchar", "short", "ushort", "bool", "void", "float", "double", "byte",
    "int1", "int2", "int4", "int8", "uint1", "uint2", "uint4", "uint8", "undefined", "undefined1", "undefined2",
    "undefined4", "undefined8", "xunknown1", "xunknown2", "xunknown4", "xunknown8", "code", "unkbyte", "unkuint"]

  const KEYWORDS: seq<string> := [
    "return", "while", "for", "if", "else", "do", "switch", "case", "break", "goto", "default"]

  /** What every Unicode table says of the characters the tokenizer names. */
  ghost predicate Sound(u: Classes) {
    && (forall c :: u.white(c) ==> !u.alphabetic(c) && !u.numeric(c) && c != '_' && !IsOperator(c))
    && (forall c :: IsOperator(c) || IsGrouping(c) || c == '_' ==> !u.alphabetic(c) && !u.numeric(c))
    && (forall c :: '0' <= c <= '9' ==> u.numeric(c) && !u.alphabetic(c))
    && u.alphabetic('x')
  }

  predicate Word(u: Classes, c: char) {
    u.alphabetic(c) || u.numeric(c) || c == '_'
  }

  predicate Numeral(u: Classes, c: char) {
    u.alphabetic(c) || u.numeric(c) || c == 'x'
  }

  predicate Digit(c: char) {
    '0' <= c <= '9'
  }

  /** How many leading characters of `s` satisfy `p`. */
  function Run(p: char -> bool, s: string): (n: nat)
    ensures n <= |s| && (forall k | 0 <= k < n :: p(s[k])) && (n < |s| ==> !p(s[n]))
  {
    if s == "" || !p(s[0]) then 0 else 1 + Run(p, s[1..])
  }

  predicate IsType(w: string) {
    w in TYPES
  }

  predicate IsKeyword(w: string) {
    w in KEYWORDS
  }

  function WordToken(w: string): string {
    if IsType(w) then "T" else if IsKeyword(w) then w else "ID"
  }

  function WordChars(u: Classes): char -> bool {
    c => Word(u, c)
  }

  function NumeralChars(u: Classes): char -> bool {
    c => Numeral(u, c)
  }

  function OperatorChars(): char -> bool {
    c => IsOperator(c)
  }

  /** The token `s` starts with, if it starts with one, and how many characters it or the noise takes. */
  function First(u: Classes, s: string): (r: (seq<string>, nat))
    requires Sound(u) && s != ""
    ensures |r.0| <= 1 && 1 <= r.1 <= |s|
  {
    var c := s[0];
    if u.white(c) then ([], 1)
    else if u.alphabetic(c) || c == '_' then
      var n := Run(WordChars(u), s);
      ([WordToken(s[..n])], n)
    else if Digit(c) then (["N"], Run(NumeralChars(u), s))
    else if IsGrouping(c) then ([], 1)
    else
      var n := Run(OperatorChars(), s);
      if n > 0 then ([s[..n]], n) else ([], 1)
  }

  /** The token skeleton of a C function. */
  function Skeleton(u: Classes, s: string): seq<string>
    requires Sound(u)
    decreases |s|
  {
    if s == "" then [] else First(u, s).0 + Skeleton(u, s[First(u, s).1..])
  }

  // ---- where a text may be cut without changing its tokens ----

  /** No token runs across the cut between `a` and `b`. */
  predicate Cut(u: Classes, a: string, b: string) {
    a == "" || b == "" ||
    (!(Word(u, a[|a| - 1]) && Word(u, b[0])) && !(IsOperator(a[|a| - 1]) && IsOperator(b[0])))
  }

  lemma {:induction false} RunStops(p: char -> bool, a: string, b: string)
    requires a != "" && b != "" ==> !(p(a[|a| - 1]) && p(b[0]))
    requires a != ""
    ensures Run(p, a + b) == Run(p, a)
  {
    assert (a + b)[0] == a[0];
    assert (a + b)[1..] == a[1..] + b;
    if p(a[0]) {
      if |a| == 1 {
        assert a[1..] + b == b;
      } else {
        RunStops(p, a[1..], b);
      }
    }
  }

  lemma FirstBeforeCut(u: Classes, a: string, b: string)
    requires Sound(u) && a != "" && Cut(u, a, b)
    ensures First(u, a + b) == First(u, a)
  {
    hide Run;
    var c := a[0];
    assert (a + b)[0] == c;
    if !u.white(c) {
      if u.alphabetic(c) || c == '_' {
        RunStops(WordChars(u), a, b);
        var n := Run(WordChars(u), a);
        assert (a + b)[..n] == a[..n];
      } else if Digit(c) {
        RunStops(NumeralChars(u), a, b);
      } else if !IsGrouping(c) {
        RunStops(OperatorChars(), a, b);
        var n := Run(OperatorChars(), a);
        assert (a + b)[..n] == a[..n];
      }
    }
  }

  /** Tokenizing is compositional at every such cut. */
  lemma {:induction false} SkeletonOfCut(u: Classes, a: string, b: string)
    requires Sound(u) && Cut(u, a, b)
    ensures Skeleton(u, a + b) == Skeleton(u, a) + Skeleton(u, b)
    decreases |a|
  {
    hide First, Sound;
    if a == "" {
      assert a + b == b;
    } else {
      FirstBeforeCut(u, a, b);
      var n := First(u, a).1;
      SkeletonOfCut(u, a[n..], b);
      assert (a + b)[n..] == a[n..] + b;
    }
  }

  /** Whitespace or grouping punctuation between two texts separates them, and adds nothing. */
  lemma SkeletonOfSeparated(u: Classes, a: string, sep: char, b: string)
    requires Sound(u) && (u.white(sep) || IsGrouping(sep))
    ensures Skeleton(u, a + [sep] + b) == Skeleton(u, a) + Skeleton(u, b)
  {
    NotAWord(u, sep);
    assert Cut(u, a, [sep] + b);
    NoiseAddsNothing(u, sep, b);
    hide Skeleton, Sound, Cut;
    assert a + [sep] + b == a + ([sep] + b);
    SkeletonOfCut(u, a, [sep] + b);
  }

  lemma NoiseAddsNothing(u: Classes, sep: char, b: string)
    requires Sound(u) && (u.white(sep) || IsGrouping(sep))
    ensures Skeleton(u, [sep] + b) == Skeleton(u, b)
  {
    NotAWord(u, sep);
    assert First(u, [sep] + b) == ([], 1);
    assert ([sep] + b)[1..] == b;
  }

  lemma NotAWord(u: Classes, sep: char)
    requires Sound(u) && (u.white(sep) || IsGrouping(sep))
    ensures !Word(u, sep) && !IsOperator(sep) && !Digit(sep)
  {
  }

  // ---- what the skeleton forgets ----

  /** A letter or an underscore, then letters, digits and underscores. */
  predicate Name(u: Classes, w: string) {
    && w != "" && (u.alphabetic(w[0]) || w[0] == '_')
    && forall k | 0 <= k < |w| :: u.alphabetic(w[k]) || u.numeric(w[k]) || w[k] == '_'
  }

  /** A decimal digit, then letters and digits. */
  predicate Literal(u: Classes, w: string) {
    w != "" && '0' <= w[0] <= '9' && forall k | 0 <= k < |w| :: u.alphabetic(w[k]) || u.numeric(w[k])
  }

  lemma SkeletonOfName(u: Classes, w: string)
    requires Sound(u) && Name(u, w)
    ensures Skeleton(u, w) == [WordToken(w)]
  {
    assert Run(WordChars(u), w) == |w|;
    assert w[..|w|] == w && w[|w|..] == "";
  }

  lemma SkeletonOfLiteral(u: Classes, w: string)
    requires Sound(u) && Literal(u, w)
    ensures Skeleton(u, w) == ["N"]
  {
    assert Run(NumeralChars(u), w) == |w|;
    assert w[|w|..] == "";
  }

  /** A name, type, or number `w` stands whole between `a` and `b`. */
  predicate Between(u: Classes, a: string, w: string, b: string) {
    && (Name(u, w) || Literal(u, w))
    && (a != "" ==> var c := a[|a| - 1]; !u.alphabetic(c) && !u.numeric(c) && c != '_')
    && (b != "" ==> var c := b[0]; !u.alphabetic(c) && !u.numeric(c) && c != '_')
  }

  lemma EndsAreWords(u: Classes, w: string)
    requires Sound(u) && (Name(u, w) || Literal(u, w))
    ensures !IsOperator(w[0]) && !IsOperator(w[|w| - 1])
  {
  }

  lemma SkeletonAround(u: Classes, a: string, w: string, b: string)
    requires Sound(u) && Between(u, a, w, b)
    ensures Skeleton(u, a + w + b) == Skeleton(u, a) + [if Name(u, w) then WordToken(w) else "N"] + Skeleton(u, b)
  {
    hide Skeleton, Run, Sound, IsOperator;
    EndsAreWords(u, w);
    assert (a + w)[|a + w| - 1] == w[|w| - 1];
    SkeletonOfCut(u, a + w, b);
    SkeletonOfCut(u, a, w);
    if Name(u, w) {
      SkeletonOfName(u, w);
    } else {
      SkeletonOfLiteral(u, w);
    }
  }

  /** In texts: a type name adds `T`, each of the eleven words of control flow adds itself, and any other name `ID`. */
  lemma WordsAround(u: Classes, a: string, w: string, b: string)
    requires Sound(u) && Between(u, a, w, b) && Name(u, w)
    ensures var types := {
              "int", "uint", "long", "ulong", "char", "uchar", "short", "ushort", "bool", "void", "float", "double", "byte",
              "int1", "int2", "int4", "int8", "uint1", "uint2", "uint4", "uint8", "undefined", "undefined1", "undefined2",
              "undefined4", "undefined8", "xunknown1", "xunknown2", "xunknown4", "xunknown8", "code", "unkbyte", "unkuint"};
            var control := {
              "return", "while", "for", "if", "else", "do", "switch", "case", "break", "goto", "default"};
            Skeleton(u, a + w + b)
            == Skeleton(u, a) + [if w in types then "T" else if w in control then w else "ID"] + Skeleton(u, b)
  {
    hide Skeleton, Sound, Between, Name;
    SkeletonAround(u, a, w, b);
  }

  /** The words of control flow by length, first letter, and where that is not enough the second. */
  predicate ControlShape(w: string) {
    && |w| >= 2
    && (|w|, w[0]) in {(6, 'r'), (5, 'w'), (3, 'f'), (2, 'i'), (4, 'e'), (2, 'd'), (6, 's'), (4, 'c'), (5, 'b'), (4, 'g'), (7, 'd')}
    && (w[0] == 'c' ==> w[1] == 'a')
  }

  lemma ControlIsShaped(w: string)
    requires IsKeyword(w)
    ensures ControlShape(w)
  {
  }

  predicate TypeShape(w: string) {
    && |w| >= 3
    && (|w|, w[0]) in {(3, 'i'), (4, 'i'), (4, 'u'), (5, 'u'), (6, 'u'), (7, 'u'), (9, 'u'), (10, 'u'), (4, 'l'), (4, 'c'),
                       (5, 's'), (4, 'b'), (4, 'v'), (5, 'f'), (6, 'd'), (9, 'x')}
    && (w[0] == 'c' ==> w[1] != 'a')
  }

  lemma TypeIsShaped(w: string)
    requires IsType(w)
    ensures TypeShape(w)
  {
  }

  lemma TypesAreNot(w: string)
    requires IsType(w)
    ensures !ControlShape(w)
  {
    hide IsType;
    TypeIsShaped(w);
  }

  lemma ControlIsNoMark(w: string)
    requires IsKeyword(w)
    ensures w != "T" && w != "ID" && w != "N" && !IsType(w)
  {
    hide IsType, IsKeyword;
    ControlIsShaped(w);
    if IsType(w) {
      TypesAreNot(w);
    }
  }

  lemma ControlWords(w: string)
    requires w in {"return", "while", "for", "if", "else", "do", "switch", "case", "break", "goto", "default"}
    ensures IsKeyword(w)
  {
  }

  /** Two names in the same place: the score is 1 exactly when they are one name, two types, or two names that are
      neither types nor words of control flow. */
  lemma NamesScoreOneIff(u: Classes, a: string, w: string, w': string, b: string)
    requires Sound(u) && Between(u, a, w, b) && Name(u, w) && Between(u, a, w', b) && Name(u, w')
    ensures Score(Skeleton(u, a + w + b), Skeleton(u, a + w' + b)) == 1.0
            <==> w == w' || (IsType(w) && IsType(w')) || (!IsType(w) && !IsKeyword(w) && !IsType(w') && !IsKeyword(w'))
  {
    hide Skeleton, Sound, Between, Name, Score, IsType, IsKeyword, WordToken;
    SkeletonAround(u, a, w, b);
    SkeletonAround(u, a, w', b);
    ScoreLaws(Skeleton(u, a + w + b), Skeleton(u, a + w' + b));
    TokensApart(w, w');
    var sa, sb := Skeleton(u, a), Skeleton(u, b);
    assert (sa + [WordToken(w)] + sb)[|sa|] == WordToken(w);
    assert (sa + [WordToken(w')] + sb)[|sa|] == WordToken(w');
  }

  lemma TokensApart(w: string, w': string)
    ensures WordToken(w) == WordToken(w')
            <==> w == w' || (IsType(w) && IsType(w')) || (!IsType(w) && !IsKeyword(w) && !IsType(w') && !IsKeyword(w'))
  {
    hide IsType, IsKeyword;
    if IsKeyword(w) {
      ControlIsNoMark(w);
    }
    if IsKeyword(w') {
      ControlIsNoMark(w');
    }
    assert "T"[0] != "ID"[0];
  }

  /** A word of control flow and any other name in its place give different skeletons, and score below 1. */
  lemma ControlTellsApart(u: Classes, a: string, w: string, w': string, b: string)
    requires Sound(u) && Between(u, a, w, b) && Name(u, w) && Between(u, a, w', b) && Name(u, w') && w != w'
    requires w in {"return", "while", "for", "if", "else", "do", "switch", "case", "break", "goto", "default"}
    ensures Skeleton(u, a + w + b) != Skeleton(u, a + w' + b)
    ensures Score(Skeleton(u, a + w + b), Skeleton(u, a + w' + b)) < 1.0
  {
    hide Skeleton, Sound, Between, Name, Score, IsType, IsKeyword;
    ControlWords(w);
    ControlIsNoMark(w);
    NamesScoreOneIff(u, a, w, w', b);
    ScoreLaws(Skeleton(u, a + w + b), Skeleton(u, a + w' + b));
  }

  /** Renaming an identifier, changing a type, or changing a number leaves the skeleton as it is. */
  lemma RenamingKeepsSkeleton(u: Classes, a: string, w: string, w': string, b: string)
    requires Sound(u) && Between(u, a, w, b) && Between(u, a, w', b)
    requires Name(u, w) == Name(u, w') && (Name(u, w) ==> WordToken(w) == WordToken(w'))
    ensures Skeleton(u, a + w + b) == Skeleton(u, a + w' + b)
  {
    SkeletonAround(u, a, w, b);
    SkeletonAround(u, a, w', b);
  }

  // ---- what it keeps ----

  predicate Operator(w: string) {
    w != "" && forall k | 0 <= k < |w| :: IsOperator(w[k])
  }

  /** The classes are apart. */
  lemma OperatorIsNothingElse(u: Classes, c: char)
    requires Sound(u) && IsOperator(c)
    ensures !u.white(c) && !u.alphabetic(c) && c != '_' && !Digit(c) && !IsGrouping(c) && !Word(u, c)
  {
    assert c != '_' && !Digit(c) && !IsGrouping(c);
  }

  lemma SkeletonOfOperator(u: Classes, w: string)
    requires Sound(u) && Operator(w)
    ensures Skeleton(u, w) == [w]
  {
    OperatorIsNothingElse(u, w[0]);
    hide IsOperator, IsGrouping, Sound;
    assert Run(OperatorChars(), w) == |w|;
    assert w[..|w|] == w && w[|w|..] == "";
  }

  /** A whole run of operator characters is one token, kept as it is written: a leading `*` or `&` as well. */
  lemma SkeletonAroundOperator(u: Classes, a: string, w: string, b: string)
    requires Sound(u) && Operator(w)
    requires (a == "" || !IsOperator(a[|a| - 1])) && (b == "" || !IsOperator(b[0]))
    ensures Skeleton(u, a + w + b) == Skeleton(u, a) + [w] + Skeleton(u, b)
  {
    hide Skeleton, Sound, IsOperator, Word, Digit;
    OperatorIsNothingElse(u, w[0]);
    OperatorIsNothingElse(u, w[|w| - 1]);
    assert (a + w)[|a + w| - 1] == w[|w| - 1];
    assert Cut(u, a, w) && Cut(u, a + w, b);
    hide Cut;
    SkeletonOfCut(u, a + w, b);
    SkeletonOfCut(u, a, w);
    SkeletonOfOperator(u, w);
  }

  /** The star of a declaration stays. */
  lemma LeadingStarStays(u: Classes)
    requires Sound(u) && u.white(' ') && Name(u, "int") && Name(u, "p")
    ensures Skeleton(u, "int *p") == ["T", "*", "ID"]
  {
    hide Skeleton, WordToken, Name;
    Unfold(u, "", 0);
    SkeletonOfName(u, "int");
    SkeletonOfName(u, "p");
    TwoWordTokens();
    SkeletonOfSeparated(u, "int", ' ', "");
    assert "int" + [' '] + "" == "int ";
    assert !IsOperator(' ') && !IsOperator('p') && Operator("*");
    hide IsOperator, Operator, Sound;
    SkeletonAroundOperator(u, "int ", "*", "p");
    assert "int " + "*" + "p" == "int *p";
  }

  /** The tokens of a single character. */
  lemma CharTokens(u: Classes, c: char)
    requires Sound(u)
    ensures Skeleton(u, [c])
            == if c in {'+', '-', '*', '/', '%', '<', '>', '=', '!', '&', '|', '^', '~', '?', ':', '.'} then [[c]]
               else if '0' <= c <= '9' then ["N"]
               else if u.alphabetic(c) || c == '_' then ["ID"]
               else []
  {
    OperatorsAre(c);
    if IsOperator(c) {
      SkeletonOfOperator(u, [c]);
    } else if Digit(c) {
      SkeletonOfLiteral(u, [c]);
    } else if u.alphabetic(c) || c == '_' {
      NoShortTypes([c]);
      NoShortKeywords([c]);
      SkeletonOfName(u, [c]);
    } else {
      hide IsOperator;
      assert First(u, [c]) == ([], 1);
      assert [c][1..] == "";
    }
  }

  lemma OperatorsAre(c: char)
    ensures IsOperator(c)
            <==> c in {'+', '-', '*', '/', '%', '<', '>', '=', '!', '&', '|', '^', '~', '?', ':', '.'}
    ensures IsOperator(c) ==> !Digit(c) && c != '_'
  {
    var s := OPERATORS;
    assert s[0] == '+' && s[1] == '-' && s[2] == '*' && s[3] == '/' && s[4] == '%' && s[5] == '<' && s[6] == '>' && s[7] == '=';
    assert s[8] == '!' && s[9] == '&' && s[10] == '|' && s[11] == '^' && s[12] == '~' && s[13] == '?' && s[14] == ':' && s[15] == '.';
  }

  lemma TwoWordTokens()
    ensures WordToken("int") == "T" && WordToken("p") == "ID"
  {
    assert IsType("int") by { assert TYPES[0] == "int"; }
    hide IsType, IsKeyword;
    NoShortTypes("p");
    NoShortKeywords("p");
  }

  lemma NoShortTypes(w: string)
    requires |w| == 1
    ensures !IsType(w)
  {
    assert forall t | t in TYPES :: |t| >= 3;
  }

  lemma NoShortKeywords(w: string)
    requires |w| == 1
    ensures !IsKeyword(w)
  {
    assert forall t | t in KEYWORDS :: |t| >= 2;
  }

  // ---- the score ----

  /** The score of two skeletons, exactly. */
  function Score(a: seq<string>, b: seq<string>): real {
    if a == [] && b == [] then 1.0
    else 2.0 * Table(a, b) as real / (|a| + |b|) as real
  }

  lemma ScoreLaws(a: seq<string>, b: seq<string>)
    ensures Score(a, b) == Score(b, a)
    ensures 0.0 <= Score(a, b) <= 1.0
    ensures Score(a, b) == 1.0 <==> a == b
  {
    Symmetric(a, b);
    AtMostEither(a, b);
    if |a| == |b| {
      WholeOnlyIfEqual(a, b);
    }
    if |a| + |b| > 0 {
      Ratio(2 * Table(a, b), |a| + |b|);
    }
  }

  /** The score times the two lengths is twice the length of the longest common subsequence. */
  lemma ScoreIs(a: seq<string>, b: seq<string>, n: nat)
    requires IsLongest(a, b, n)
    ensures a == [] && b == [] ==> Score(a, b) == 1.0
    ensures a != [] || b != [] ==> Score(a, b) * (|a| + |b|) as real == 2.0 * n as real
  {
    hide Table;
    TableIsLongest(a, b, n);
    if a != [] || b != [] {
      Quotient(2.0 * n as real, (|a| + |b|) as real);
    }
  }

  lemma Quotient(x: real, y: real)
    requires y != 0.0
    ensures x / y * y == x
  {
  }

  lemma Ratio(x: nat, y: nat)
    requires 0 < y && x <= y
    ensures 0.0 <= x as real / y as real <= 1.0
    ensures x as real / y as real == 1.0 <==> x == y
  {
  }

  /** Two functions that differ only in one name, type or number score 1. */
  lemma RenamedScoresOne(u: Classes, a: string, w: string, w': string, b: string)
    requires Sound(u) && Between(u, a, w, b) && Between(u, a, w', b)
    requires Name(u, w) == Name(u, w') && (Name(u, w) ==> WordToken(w) == WordToken(w'))
    ensures Score(Skeleton(u, a + w + b), Skeleton(u, a + w' + b)) == 1.0
  {
    RenamingKeepsSkeleton(u, a, w, w', b);
    ScoreLaws(Skeleton(u, a + w + b), Skeleton(u, a + w' + b));
  }

  // ---- the methods ----

  method Normalize(u: Classes, s: string) returns (toks: seq<string>)
    requires Sound(u)
    ensures toks == Skeleton(u, s)
  {
    hide Skeleton, Sound, First;
    toks := [];
    var i := 0;
    Unfold(u, s, 0);
    while i < |s|
      invariant 0 <= i <= |s|
      invariant toks + Skeleton(u, s[i..]) == Skeleton(u, s)
    {
      Unfold(u, s, i);
      toks, i := ReadToken(u, s, i, toks);
    }
    Unfold(u, s, |s|);
  }

  /** One step of the tokenizer: a token pushed, or noise skipped. */
  method ReadToken(u: Classes, s: string, i: nat, toks: seq<string>) returns (toks': seq<string>, j: nat)
    requires Sound(u) && i < |s|
    ensures toks' == toks + First(u, s[i..]).0 && j == i + First(u, s[i..]).1
  {
    hide Sound, Run, IsType, IsKeyword, Word, Numeral;
    toks' := toks;
    var c := s[i];
    if u.white(c) {
      j := i + 1;
    } else if u.alphabetic(c) || c == '_' {
      j := SkipRun(WordChars(u), s, i);
      var word := s[i..j];
      assert word == s[i..][..j - i];
      if IsType(word) {
        toks' := toks + ["T"];
      } else if IsKeyword(word) {
        toks' := toks + [word];
      } else {
        toks' := toks + ["ID"];
      }
    } else if Digit(c) {
      j := SkipRun(NumeralChars(u), s, i);
      toks' := toks + ["N"];
    } else if IsGrouping(c) {
      j := i + 1;
    } else {
      j := SkipRun(OperatorChars(), s, i);
      if j > i {
        assert s[i..j] == s[i..][..j - i];
        toks' := toks + [s[i..j]];
      } else {
        j := i + 1;
      }
    }
  }

  lemma Unfold(u: Classes, s: string, i: nat)
    requires Sound(u) && i <= |s|
    ensures s[0..] == s
    ensures if i == |s| then Skeleton(u, s[i..]) == [] else
              var f := First(u, s[i..]);
              i + f.1 <= |s| && Skeleton(u, s[i..]) == f.0 + Skeleton(u, s[i + f.1..])
  {
    hide First, Sound;
    if i < |s| {
      var f := First(u, s[i..]);
      assert s[i..][f.1..] == s[i + f.1..];
    }
  }

  /** Advances past the characters that satisfy `p`. */
  method SkipRun(p: char -> bool, s: string, i: nat) returns (j: nat)
    requires i <= |s|
    ensures j == i + Run(p, s[i..])
  {
    j := i;
    while j < |s| && p(s[j])
      invariant i <= j <= |s|
      invariant j - i + Run(p, s[j..]) == Run(p, s[i..])
    {
      assert s[j..][1..] == s[j + 1..];
      j := j + 1;
    }
  }

  method Similarity(u: Classes, a: string, b: string) returns (score: real)
    requires Sound(u)
    ensures score == Score(Skeleton(u, a), Skeleton(u, b))
  {
    hide Skeleton, Table, Sound;
    var ta := Normalize(u, a);
    var tb := Normalize(u, b);
    if ta == [] && tb == [] {
      return 1.0;
    }
    var n := Length(ta, tb);
    score := 2.0 * n as real / (|ta| + |tb|) as real;
  }
}
