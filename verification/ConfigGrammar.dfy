/** The lines a machine config may hold, by how they are put together, and what a parse makes of any text. */
module ConfigGrammar {
  import opened Text
  import opened Config
  import opened ConfigRoundTrip

  // ---- the grammar ----

  predicate White(w: Space, s: string) {
    forall i | 0 <= i < |s| :: w(s[i])
  }

  /** `core` is `raw` without the white space around it. */
  ghost predicate Inside(w: Space, raw: string, core: string) {
    && (core != "" ==> !w(core[0]) && !w(core[|core| - 1]))
    && exists pre, post :: White(w, pre) && White(w, post) && raw == pre + core + post
  }

  /** A key: letters, digits, underscores, hyphens and dots. */
  predicate KeyText(key: string) {
    key != "" && forall i | 0 <= i < |key| ::
                   var c := key[i];
                   '0' <= c <= '9' || 'a' <= c <= 'z' || 'A' <= c <= 'Z' || c == '_' || c == '-' || c == '.'
  }

  /** `line` is `k`, the first equals sign, and `v`. */
  predicate Pair(line: string, k: string, v: string) {
    line == k + "=" + v && '=' !in k
  }

  /** A value is one of the two words, or a string in double quotes; what follows the second quote is not looked at. */
  ghost predicate ValueOf(value: string, text: string) {
    || (value in {"true", "false"} && text == value)
    || ('"' !in text && exists rest :: value == "\"" + text + "\"" + rest)
  }

  datatype Item = Nothing | Title(section: string) | Entry(key: string, text: string)

  ghost predicate KeyAndValue(w: Space, line: string, key: string, value: string) {
    exists k, v :: Pair(line, k, v) && Inside(w, k, key) && Inside(w, v, value)
  }

  ghost predicate TitleOf(w: Space, line: string, section: string) {
    exists name :: Inside(w, name, section) && line == "[" + name + "]" && (name != "" ==> name[0] != '[')
  }

  ghost predicate LineReads(w: Space, line: string, item: Item) {
    match item
    case Nothing => line == "" || line[0] == '#'
    case Title(section) => TitleOf(w, line, section)
    case Entry(key, text) => KeyText(key) && exists value :: KeyAndValue(w, line, key, value) && ValueOf(value, text)
  }

  /** Not blank, no comment, no bracket at the start with one at the end, and no two at the start. */
  predicate Bare(line: string) {
    line != "" && line[0] != '#' && !(|line| >= 2 && line[0] == '[' && (line[1] == '[' || line[|line| - 1] == ']'))
  }

  ghost predicate LineRefuses(w: Space, line: string, reason: Reason) {
    match reason
    case Arrays => |line| >= 2 && line[0] == '[' && line[1] == '['
    case NoEquals => Bare(line) && '=' !in line
    case BadKey => Bare(line) && exists key, value :: KeyAndValue(w, line, key, value) && !KeyText(key)
    case Unterminated =>
      exists key, value :: KeyAndValue(w, line, key, value) && KeyText(key) && value != "" && value[0] == '"' && '"' !in value[1..]
    case BadValue =>
      exists key, value :: KeyAndValue(w, line, key, value) && KeyText(key)
                           && value !in {"true", "false"} && (value == "" || value[0] != '"')
  }

  ghost predicate Reads(w: Space, raw: string, item: Item) {
    exists line :: Inside(w, raw, line) && LineReads(w, line, item)
  }

  ghost predicate Refuses(w: Space, raw: string, reason: Reason) {
    exists line :: Inside(w, raw, line) && LineRefuses(w, line, reason)
  }

  // ---- trimming and splitting ----

  lemma {:induction false} TrimStartWhite(w: Space, pre: string, s: string)
    requires White(w, pre)
    ensures TrimStart(w, pre + s) == TrimStart(w, s)
  {
    if pre == "" {
      assert pre + s == s;
    } else {
      assert (pre + s)[1..] == pre[1..] + s;
      TrimStartWhite(w, pre[1..], s);
    }
  }

  lemma {:induction false} TrimEndWhite(w: Space, s: string, post: string)
    requires White(w, post)
    ensures TrimEnd(w, s + post) == TrimEnd(w, s)
  {
    if post == "" {
      assert s + post == s;
    } else {
      var n := |post| - 1;
      assert (s + post)[..|s + post| - 1] == s + post[..n];
      TrimEndWhite(w, s, post[..n]);
    }
  }

  lemma {:induction false} TrimStartCuts(w: Space, s: string) returns (pre: string)
    ensures White(w, pre) && s == pre + TrimStart(w, s)
    ensures TrimStart(w, s) != "" ==> !w(TrimStart(w, s)[0])
  {
    if s != "" && w(s[0]) {
      pre := TrimStartCuts(w, s[1..]);
      pre := [s[0]] + pre;
    } else {
      pre := "";
    }
  }

  lemma {:induction false} TrimEndCuts(w: Space, s: string) returns (post: string)
    ensures White(w, post) && s == TrimEnd(w, s) + post
    ensures TrimEnd(w, s) != "" ==> !w(TrimEnd(w, s)[|TrimEnd(w, s)| - 1])
  {
    if s != "" && w(s[|s| - 1]) {
      post := TrimEndCuts(w, s[..|s| - 1]);
      post := post + [s[|s| - 1]];
    } else {
      post := "";
    }
  }

  /** Trimming takes off the white space around, all of it and nothing else. */
  lemma TrimIff(w: Space, raw: string, core: string)
    ensures Inside(w, raw, core) <==> core == Trim(w, raw)
  {
    hide TrimStart, TrimEnd;
    if Inside(w, raw, core) {
      var pre, post :| White(w, pre) && White(w, post) && raw == pre + core + post;
      assert raw == pre + (core + post);
      TrimStartWhite(w, pre, core + post);
      CoreStays(w, core, post);
    }
    var pre := TrimStartCuts(w, raw);
    var s := TrimStart(w, raw);
    var post := TrimEndCuts(w, s);
    assert raw == pre + Trim(w, raw) + post;
    assert Trim(w, raw) != "" ==> Trim(w, raw)[0] == s[0];
  }

  lemma CoreStays(w: Space, core: string, post: string)
    requires White(w, post) && (core != "" ==> !w(core[0]) && !w(core[|core| - 1]))
    ensures TrimEnd(w, TrimStart(w, core + post)) == core
  {
    if core == "" {
      TrimStartWhite(w, post, "");
      assert core + post == post + "";
    } else {
      assert (core + post)[0] == core[0];
      TrimEndWhite(w, core, post);
    }
  }

  lemma PairIff(line: string, k: string, v: string)
    ensures Pair(line, k, v) <==> '=' in line && k == line[..Find(line, '=')] && v == line[Find(line, '=') + 1..]
  {
    if Pair(line, k, v) {
      FindFirst(k, '=', v);
    }
    if '=' in line {
      FindIn(line);
      var i := Find(line, '=');
      assert line == line[..i] + [line[i]] + line[i + 1..];
    }
  }

  lemma KeyAndValueIff(w: Space, line: string, key: string, value: string)
    ensures KeyAndValue(w, line, key, value)
            <==> '=' in line && key == Trim(w, line[..Find(line, '=')]) && value == Trim(w, line[Find(line, '=') + 1..])
  {
    hide Pair, Inside, Trim, Find;
    var i := Find(line, '=');
    if k, v :| Pair(line, k, v) && Inside(w, k, key) && Inside(w, v, value) {
      PairIff(line, k, v);
      TrimIff(w, k, key);
      TrimIff(w, v, value);
    }
    if '=' in line {
      FindIn(line);
      PairIff(line, line[..i], line[i + 1..]);
      TrimIff(w, line[..i], key);
      TrimIff(w, line[i + 1..], value);
    }
  }

  lemma FindIn(line: string)
    ensures '=' in line <==> Find(line, '=') < |line|
  {
    assert line[..|line|] == line;
  }

  lemma ValueIff(value: string, text: string, n: nat)
    ensures ValueOf(value, text) <==> ParseValue(value, n) == Ok(text)
  {
    if value != "" && value[0] == '"' {
      var s := value[1..];
      var end := Find(s, '"');
      if rest :| '"' !in text && value == "\"" + text + "\"" + rest {
        assert s == text + "\"" + rest;
        FindFirst(text, '"', rest);
        assert s[..end] == text;
      }
      if end < |s| {
        assert value == "\"" + s[..end] + "\"" + s[end + 1..];
      }
    }
  }

  lemma ValueErrors(value: string, n: nat)
    ensures ParseValue(value, n) == Err(n, Unterminated) <==> value != "" && value[0] == '"' && '"' !in value[1..]
    ensures ParseValue(value, n) == Err(n, BadValue) <==> value !in {"true", "false"} && (value == "" || value[0] != '"')
    ensures ParseValue(value, n).Ok? || ParseValue(value, n) == Err(n, Unterminated) || ParseValue(value, n) == Err(n, BadValue)
  {
    if value != "" && value[0] == '"' {
      var s := value[1..];
      assert s[..|s|] == s;
      assert Find(s, '"') < |s| ==> s[Find(s, '"')] == '"';
    }
  }

  // ---- one line ----

  /** What a line does to the section in force and to the map. */
  function Put(st: State, item: Item): State {
    match item
    case Nothing => st
    case Title(section) => st.(section := section)
    case Entry(key, text) => st.(out := st.out[if st.section == "" then key else st.section + "." + key := text])
  }

  lemma KeyIff(key: string)
    ensures KeyText(key) <==> GoodKey(key)
  {
    if KeyText(key) {
      forall i | 0 <= i < |key|
        ensures KeyChar(key[i])
      {
        assert var c := key[i]; '0' <= c <= '9' || 'a' <= c <= 'z' || 'A' <= c <= 'Z' || c == '_' || c == '-' || c == '.';
      }
    }
  }

  lemma TitleIff(w: Space, line: string, section: string)
    ensures TitleOf(w, line, section)
            <==> IsHeader(line) && line[1] != '[' && section == Trim(w, line[1..|line| - 1])
  {
    hide Inside, Trim;
    if name :| Inside(w, name, section) && line == "[" + name + "]" && (name != "" ==> name[0] != '[') {
      assert line[1..|line| - 1] == name;
      TrimIff(w, name, section);
      assert line[1] == (if name == "" then ']' else name[0]);
    }
    if IsHeader(line) && line[1] != '[' {
      var name := line[1..|line| - 1];
      assert line == "[" + name + "]";
      assert name != "" ==> name[0] == line[1];
      TrimIff(w, name, section);
    }
  }

  /** A key and value whose key is good are on a line that is bare. */
  lemma GoodKeyIsBare(w: Space, line: string, key: string, value: string)
    requires KeyAndValue(w, line, key, value) && KeyText(key) && (line != "" ==> !w(line[0]))
    ensures Bare(line)
  {
    var k, v :| Pair(line, k, v) && Inside(w, k, key) && Inside(w, v, value);
    var pre, post :| White(w, pre) && White(w, post) && k == pre + key + post;
    FirstOf(pre, key, post);
    assert line[0] == k[0];
  }

  lemma FirstOf(pre: string, key: string, post: string)
    requires key != ""
    ensures (pre + key + post)[0] == if pre == "" then key[0] else pre[0]
  {
  }

  /** The line that is left of a raw one. */
  function StepOf(w: Space, line: string, n: nat, st: State): Result<State> {
    if line == "" || line[0] == '#' then Ok(st)
    else if |line| >= 2 && line[0] == '[' && line[1] == '[' then Err(n, Arrays)
    else if IsHeader(line) then Ok(st.(section := Trim(w, line[1..|line| - 1])))
    else ParsePair(w, line, n, st)
  }

  lemma LineIsRead(w: Space, line: string, n: nat, st: State, item: Item)
    requires LineReads(w, line, item) && (line != "" ==> !w(line[0]))
    ensures StepOf(w, line, n, st) == Ok(Put(st, item))
  {
    hide Trim, Find, KeyAndValue, TitleOf, ValueOf, ParseValue, KeyText, GoodKey;
    match item
    case Nothing =>
    case Title(section) => TitleIff(w, line, section);
    case Entry(key, text) =>
      var value :| KeyAndValue(w, line, key, value) && ValueOf(value, text);
      GoodKeyIsBare(w, line, key, value);
      KeyAndValueIff(w, line, key, value);
      FindIn(line);
      KeyIff(key);
      ValueIff(value, text, n);
  }

  lemma LineIsRefused(w: Space, line: string, n: nat, st: State, reason: Reason)
    requires LineRefuses(w, line, reason) && (line != "" ==> !w(line[0]))
    ensures StepOf(w, line, n, st) == Err(n, reason)
  {
    hide Trim, Find, KeyAndValue, ParseValue, KeyText, GoodKey;
    FindIn(line);
    match reason
    case Arrays =>
    case NoEquals =>
    case BadKey =>
      var key, value :| KeyAndValue(w, line, key, value) && !KeyText(key);
      KeyAndValueIff(w, line, key, value);
      KeyIff(key);
    case Unterminated =>
      var key, value :| KeyAndValue(w, line, key, value) && KeyText(key) && value != "" && value[0] == '"' && '"' !in value[1..];
      PairIsRefused(w, line, n, st, key, value, reason);
    case BadValue =>
      var key, value :| KeyAndValue(w, line, key, value) && KeyText(key)
                        && value !in {"true", "false"} && (value == "" || value[0] != '"');
      PairIsRefused(w, line, n, st, key, value, reason);
  }

  lemma PairIsRefused(w: Space, line: string, n: nat, st: State, key: string, value: string, reason: Reason)
    requires KeyAndValue(w, line, key, value) && KeyText(key) && (line != "" ==> !w(line[0]))
    requires if reason == Unterminated then value != "" && value[0] == '"' && '"' !in value[1..]
             else reason == BadValue && value !in {"true", "false"} && (value == "" || value[0] != '"')
    ensures StepOf(w, line, n, st) == Err(n, reason)
  {
    hide Trim, Find, KeyAndValue, ParseValue, KeyText, GoodKey;
    GoodKeyIsBare(w, line, key, value);
    KeyAndValueIff(w, line, key, value);
    FindIn(line);
    KeyIff(key);
    ValueErrors(value, n);
  }

  /** Every line is read or refused. */
  lemma LineIsEither(w: Space, line: string)
    requires line != "" ==> !w(line[0])
    ensures (exists item :: LineReads(w, line, item)) || (exists reason :: LineRefuses(w, line, reason))
  {
    hide Trim, Find, KeyAndValue, TitleOf, ValueOf, ParseValue, KeyText, GoodKey;
    FindIn(line);
    if line == "" || line[0] == '#' {
      assert LineReads(w, line, Nothing);
    } else if |line| >= 2 && line[0] == '[' && line[1] == '[' {
      assert LineRefuses(w, line, Arrays);
    } else if IsHeader(line) {
      TitleIff(w, line, Trim(w, line[1..|line| - 1]));
      assert LineReads(w, line, Title(Trim(w, line[1..|line| - 1])));
    } else if '=' !in line {
      assert LineRefuses(w, line, NoEquals);
    } else {
      var key, value := Trim(w, line[..Find(line, '=')]), Trim(w, line[Find(line, '=') + 1..]);
      KeyAndValueIff(w, line, key, value);
      if KeyText(key) {
        ValueErrors(value, 0);
        if ParseValue(value, 0).Ok? {
          var text := ParseValue(value, 0).value;
          ValueIff(value, text, 0);
          assert LineReads(w, line, Entry(key, text));
        } else {
          assert LineRefuses(w, line, Unterminated) || LineRefuses(w, line, BadValue);
        }
      } else {
        assert LineRefuses(w, line, BadKey);
      }
    }
  }

  lemma StepOfLine(w: Space, raw: string, n: nat, st: State)
    ensures Step(w, raw, n, st) == StepOf(w, Trim(w, raw), n, st)
    ensures Trim(w, raw) != "" ==> !w(Trim(w, raw)[0])
  {
    TrimIff(w, raw, Trim(w, raw));
    hide Trim;
  }

  /** Over all lines: a line that reads as an item does what the item says, one that is refused is refused for that
      reason, and each is one or the other. */
  lemma LinesAre(w: Space, raw: string, n: nat, st: State)
    ensures forall item :: Reads(w, raw, item) ==> Step(w, raw, n, st) == Ok(Put(st, item))
    ensures forall reason :: Refuses(w, raw, reason) ==> Step(w, raw, n, st) == Err(n, reason)
    ensures (exists item :: Reads(w, raw, item)) || (exists reason :: Refuses(w, raw, reason))
  {
    hide Inside, LineReads, LineRefuses, Trim, Step, StepOf, Put;
    StepOfLine(w, raw, n, st);
    var line := Trim(w, raw);
    TrimIff(w, raw, line);
    forall item | Reads(w, raw, item)
      ensures Step(w, raw, n, st) == Ok(Put(st, item))
    {
      var l :| Inside(w, raw, l) && LineReads(w, l, item);
      TrimIff(w, raw, l);
      LineIsRead(w, line, n, st, item);
    }
    forall reason | Refuses(w, raw, reason)
      ensures Step(w, raw, n, st) == Err(n, reason)
    {
      var l :| Inside(w, raw, l) && LineRefuses(w, l, reason);
      TrimIff(w, raw, l);
      LineIsRefused(w, line, n, st, reason);
    }
    LineIsEither(w, line);
    if item :| LineReads(w, line, item) {
      assert Reads(w, raw, item);
    } else {
      var reason :| LineRefuses(w, line, reason);
      assert Refuses(w, raw, reason);
    }
  }

  // ---- the whole text ----

  ghost predicate Accepted(w: Space, raw: string) {
    exists item :: Reads(w, raw, item)
  }

  /** The items one after the other. */
  function After(items: seq<Item>): State {
    if items == [] then START else Put(After(items[..|items| - 1]), items[|items| - 1])
  }

  ghost predicate ItemsRead(w: Space, lines: seq<string>, items: seq<Item>) {
    |items| == |lines| && forall i | 0 <= i < |lines| :: Reads(w, lines[i], items[i])
  }

  lemma {:induction false} StepsOfItems(w: Space, lines: seq<string>, items: seq<Item>)
    requires ItemsRead(w, lines, items)
    ensures Steps(w, lines, START) == Ok(After(items))
  {
    hide Reads, Put, Step;
    if lines != [] {
      var n := |lines| - 1;
      StepsOfItems(w, lines[..n], items[..n]);
      LinesAre(w, lines[n], |lines|, After(items[..n]));
    }
  }

  lemma {:induction false} ItemsOf(w: Space, lines: seq<string>) returns (items: seq<Item>)
    requires forall i | 0 <= i < |lines| :: Accepted(w, lines[i])
    ensures ItemsRead(w, lines, items)
  {
    hide Reads;
    if lines == [] {
      items := [];
    } else {
      var n := |lines| - 1;
      var front := ItemsOf(w, lines[..n]);
      assert Accepted(w, lines[n]);
      var item :| Reads(w, lines[n], item);
      items := front + [item];
      assert forall i | 0 <= i < n :: Reads(w, lines[..n][i], front[i]);
    }
  }

  /** The lines before `n` are accepted and line `n`, counted from 1, is refused. */
  ghost predicate FirstRefused(w: Space, lines: seq<string>, n: nat, reason: Reason) {
    && 1 <= n <= |lines| && Refuses(w, lines[n - 1], reason)
    && forall i | 0 <= i < n - 1 :: Accepted(w, lines[i])
  }

  lemma StepsRefused(w: Space, lines: seq<string>, n: nat, reason: Reason)
    requires FirstRefused(w, lines, n, reason)
    ensures Steps(w, lines, START) == Err(n, reason)
  {
    hide Reads, Refuses, Put, Step, Steps, Accepted;
    var front := lines[..n - 1];
    assert forall i | 0 <= i < |front| :: front[i] == lines[i];
    var items := ItemsOf(w, front);
    StepsOfItems(w, front, items);
    LinesAre(w, lines[n - 1], n, After(items));
    StepsStop(w, lines, n, START);
  }

  lemma {:induction false} EitherAll(w: Space, lines: seq<string>)
    ensures (forall i | 0 <= i < |lines| :: Accepted(w, lines[i])) || exists n: nat, reason :: FirstRefused(w, lines, n, reason)
  {
    hide Reads, Refuses;
    if lines != [] {
      var n := |lines| - 1;
      var front := lines[..n];
      EitherAll(w, front);
      assert forall i | 0 <= i < n :: front[i] == lines[i];
      LinesAre(w, lines[n], 0, START);
      if m: nat, reason :| FirstRefused(w, front, m, reason) {
        assert FirstRefused(w, lines, m, reason);
      } else if !Accepted(w, lines[n]) {
        var reason :| Refuses(w, lines[n], reason);
        assert FirstRefused(w, lines, n + 1, reason);
      }
    }
  }

  lemma ParsedIs(w: Space, lines: seq<string>)
    requires lines != [] && forall i | 0 <= i < |lines| :: '\n' !in lines[i]
    ensures Parsed(w, Join(lines, '\n')) == match Steps(w, lines, START)
                                            case Err(n, e) => Err(n, e)
                                            case Ok(st) => Ok(st.out)
  {
    SplitJoin(lines, '\n');
  }

  /** A text parses exactly when each of its lines is blank, a comment, a section, or a good key and a good value at its
      first equals sign; the map is what the lines say, in their order. */
  lemma ParsesIff(w: Space, lines: seq<string>, m: map<string, string>)
    requires lines != [] && forall i | 0 <= i < |lines| :: '\n' !in lines[i]
    ensures Parsed(w, Join(lines, '\n')) == Ok(m) <==> exists items :: ItemsRead(w, lines, items) && m == After(items).out
    ensures Parsed(w, Join(lines, '\n')).Ok? <==> forall i | 0 <= i < |lines| :: Accepted(w, lines[i])
  {
    hide Reads, Parsed, Steps, FirstRefused;
    ParsedIs(w, lines);
    forall items | ItemsRead(w, lines, items)
      ensures Steps(w, lines, START) == Ok(After(items))
    {
      StepsOfItems(w, lines, items);
    }
    EitherAll(w, lines);
    if n: nat, reason :| FirstRefused(w, lines, n, reason) {
      StepsRefused(w, lines, n, reason);
      SomeRefused(w, lines, n, reason);
    } else {
      var items := ItemsOf(w, lines);
      StepsOfItems(w, lines, items);
    }
  }

  lemma SomeRefused(w: Space, lines: seq<string>, n: nat, reason: Reason)
    requires FirstRefused(w, lines, n, reason)
    ensures exists i :: 0 <= i < |lines| && !Accepted(w, lines[i])
  {
    hide Reads, Refuses;
    LinesAre(w, lines[n - 1], 0, START);
    assert !Accepted(w, lines[n - 1]);
  }

  /** And fails exactly with the number of the first line that is none of these, and its reason. */
  lemma FailsIff(w: Space, lines: seq<string>, n: nat, reason: Reason)
    requires lines != [] && forall i | 0 <= i < |lines| :: '\n' !in lines[i]
    ensures Parsed(w, Join(lines, '\n')) == Err(n, reason) <==> FirstRefused(w, lines, n, reason)
  {
    hide Reads, Parsed, Steps, FirstRefused, Accepted;
    ParsedIs(w, lines);
    if FirstRefused(w, lines, n, reason) {
      StepsRefused(w, lines, n, reason);
    }
    EitherAll(w, lines);
    if k: nat, why :| FirstRefused(w, lines, k, why) {
      StepsRefused(w, lines, k, why);
    } else {
      var items := ItemsOf(w, lines);
      StepsOfItems(w, lines, items);
    }
  }

  /** The name an entry is stored under: its key behind the section of the last title before it. */
  function NameOf(items: seq<Item>, i: nat): string
    requires i < |items| && items[i].Entry?
  {
    var section := SectionAt(items, i);
    if section == "" then items[i].key else section + "." + items[i].key
  }

  function SectionAt(items: seq<Item>, i: nat): string
    requires i <= |items|
  {
    if i == 0 then "" else if items[i - 1].Title? then items[i - 1].section else SectionAt(items, i - 1)
  }

  /** Entry `i` is the last one of its name. */
  predicate LastOfName(items: seq<Item>, i: nat, name: string) {
    && i < |items| && items[i].Entry? && NameOf(items, i) == name
    && forall j | i < j < |items| && items[j].Entry? :: NameOf(items, j) != name
  }

  lemma {:induction false} SectionAtFront(items: seq<Item>, n: nat, i: nat)
    requires i <= n <= |items|
    ensures SectionAt(items[..n], i) == SectionAt(items, i)
  {
    if i > 0 {
      SectionAtFront(items, n, i - 1);
    }
  }

  lemma {:induction false} SectionAfter(items: seq<Item>)
    ensures After(items).section == SectionAt(items, |items|)
  {
    if items != [] {
      var n := |items| - 1;
      SectionAfter(items[..n]);
      SectionAtFront(items, n, n);
    }
  }

  lemma LastOfFront(items: seq<Item>, i: nat, name: string)
    requires items != []
    ensures var n := |items| - 1;
            LastOfName(items, i, name)
            <==> if items[n].Entry? && NameOf(items, n) == name then i == n else i < n && LastOfName(items[..n], i, name)
  {
    var n := |items| - 1;
    forall j: nat | j < n
      ensures SectionAt(items[..n], j) == SectionAt(items, j)
    {
      SectionAtFront(items, n, j);
    }
  }

  /** The map holds for each name the text of its last entry, and no other name. */
  lemma {:induction false} LastEntryWins(items: seq<Item>, name: string, text: string)
    ensures name in After(items).out && After(items).out[name] == text
            <==> exists i: nat :: LastOfName(items, i, name) && items[i].text == text
  {
    if items != [] {
      hide LastOfName;
      var n := |items| - 1;
      LastEntryWins(items[..n], name, text);
      SectionAfter(items[..n]);
      SectionAtFront(items, n, n);
      forall i: nat
        ensures LastOfName(items, i, name)
                <==> if items[n].Entry? && NameOf(items, n) == name then i == n else i < n && LastOfName(items[..n], i, name)
      {
        LastOfFront(items, i, name);
      }
      if items[n].Entry? && NameOf(items, n) == name {
        assert LastOfName(items, n, name);
      } else if i: nat :| LastOfName(items[..n], i, name) && items[..n][i].text == text {
        assert LastOfName(items, i, name) && items[i].text == text;
      }
    }
  }

  lemma Surrounded(w: Space, pre: string, core: string, post: string)
    requires White(w, pre) && White(w, post) && (core != "" ==> !w(core[0]) && !w(core[|core| - 1]))
    ensures Inside(w, pre + core + post, core)
  {
  }

  lemma BareNumberLine(w: Space)
    requires Sound(w)
    ensures KeyAndValue(w, "x = 5", "x", "5") && Inside(w, "x = 5", "x = 5")
  {
    hide Inside;
    assert KeyChar('x') && KeyChar('5');
    Surrounded(w, "", "x", " ");
    Surrounded(w, " ", "5", "");
    Surrounded(w, "", "x = 5", "");
    assert "" + "x" + " " == "x " && " " + "5" + "" == " 5" && "" + "x = 5" + "" == "x = 5";
    assert "x = 5" == "x " + "=" + " 5" && '=' !in "x ";
    assert Pair("x = 5", "x ", " 5");
  }

  /** A bare number is refused, with the number of its line. */
  lemma BareNumberRefused(w: Space)
    requires Sound(w)
    ensures Parsed(w, "x = 5") == Err(1, BadValue)
  {
    hide Reads, Parsed, Accepted, Sound, Inside, KeyAndValue;
    BareNumberLine(w);
    assert "5" != "true" && "5" != "false";
    assert KeyText("x") && LineRefuses(w, "x = 5", BadValue);
    assert FirstRefused(w, ["x = 5"], 1, BadValue);
    FailsIff(w, ["x = 5"], 1, BadValue);
  }
}
