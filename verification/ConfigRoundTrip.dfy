/** When rendering a config map and parsing it again gives the map back: exactly when its keys and values are
    ones the file can hold. */
module ConfigRoundTrip {
  import opened Text
  import opened Config

  /** Rendering turns double quotes into single ones. */
  function Quoted(m: map<string, string>): map<string, string> {
    map k | k in m :: Quote(m[k])
  }

  predicate NewlineFree(m: map<string, string>) {
    forall k | k in m :: '\n' !in k && '\n' !in m[k]
  }

  /** A key the file can hold: behind its last dot a plain key; before it, if there is one, a section that is
      not empty, has no white space around it and does not open a bracket. */
  predicate GoodName(w: Space, k: string) {
    && GoodKey(Key(k))
    && (DotEnd(k) > 0 ==> Section(k) != "" && Trim(w, Section(k)) == Section(k) && Section(k)[0] != '[')
  }

  predicate WellFormed(w: Space, m: map<string, string>) {
    NewlineFree(m) && forall k | k in m :: GoodName(w, k)
  }

  // ---- trimming and finding ----

  lemma TrimIdle(w: Space, s: string)
    ensures (s == "" || !w(s[0])) ==> TrimStart(w, s) == s && (w(' ') ==> TrimStart(w, " " + s) == s)
    ensures (s == "" || !w(s[|s| - 1])) ==> TrimEnd(w, s) == s && (w(' ') ==> TrimEnd(w, s + " ") == s)
  {
    assert (" " + s)[1..] == s && (s + " ")[..|s|] == s;
  }

  predicate Tight(w: Space, s: string) {
    s != "" && !w(s[0]) && !w(s[|s| - 1])
  }

  lemma TrimTight(w: Space, s: string)
    requires Tight(w, s) && w(' ')
    ensures Trim(w, s) == Trim(w, " " + s) == Trim(w, s + " ") == s
  {
    TrimIdle(w, s);
    TrimIdle(w, s + " ");
  }

  lemma {:induction false} TrimEndShape(w: Space, s: string)
    ensures TrimEnd(w, s) <= s && (TrimEnd(w, s) != "" ==> !w(TrimEnd(w, s)[|TrimEnd(w, s)| - 1]))
  {
    if s != "" && w(s[|s| - 1]) {
      TrimEndShape(w, s[..|s| - 1]);
    }
  }

  lemma {:induction false} TrimStartShape(w: Space, s: string)
    ensures TrimStart(w, s) != "" ==> !w(TrimStart(w, s)[0])
    ensures forall c | c in TrimStart(w, s) :: c in s
  {
    if s != "" && w(s[0]) {
      TrimStartShape(w, s[1..]);
    }
  }

  /** What is trimmed is trimmed for good, and holds no new characters. */
  lemma TrimShape(w: Space, s: string)
    ensures Trim(w, s) == "" || Tight(w, Trim(w, s))
    ensures Trim(w, Trim(w, s)) == Trim(w, s)
    ensures forall c | c in Trim(w, s) :: c in s
  {
    TrimStartShape(w, s);
    TrimEndShape(w, TrimStart(w, s));
    var t := Trim(w, s);
    TrimIdle(w, t);
  }

  lemma {:induction false} FindFirst(a: string, c: char, b: string)
    requires c !in a
    ensures Find(a + [c] + b, c) == |a|
  {
    if a != "" {
      assert (a + [c] + b)[1..] == a[1..] + [c] + b;
      FindFirst(a[1..], c, b);
    }
  }

  lemma {:induction false} QuoteFree(v: string)
    ensures '"' !in Quote(v) && ('\n' in Quote(v) <==> '\n' in v)
  {
    if v != "" {
      QuoteFree(v[1..]);
    }
  }

  /** Only double quotes change, each into a single one. */
  lemma {:induction false} QuoteIs(v: string)
    ensures |Quote(v)| == |v| && forall i | 0 <= i < |v| :: Quote(v)[i] == if v[i] == '"' then '\'' else v[i]
  {
    if v != "" {
      QuoteIs(v[1..]);
      assert Quote(v) == [if v[0] == '"' then '\'' else v[0]] + Quote(v[1..]);
    }
  }

  // ---- single lines ----

  /** The text of a value, behind ` = `. */
  function ValueText(v: string): string {
    if v == "true" || v == "false" then v else "\"" + Quote(v) + "\""
  }

  lemma InQuotes(q: string)
    ensures ("\"" + q + "\"")[1..] == q + "\"" == q + ['"'] + ""
  {
  }

  lemma ValueReads(w: Space, v: string, n: nat)
    requires Sound(w)
    ensures Tight(w, ValueText(v)) && ParseValue(ValueText(v), n) == Ok(Quote(v))
  {
    assert KeyChar('t') && KeyChar('f') && KeyChar('e');
    if v == "true" || v == "false" {
      NoQuotes(v);
    } else {
      QuoteFree(v);
      var s := Quote(v) + "\"";
      InQuotes(Quote(v));
      FindFirst(Quote(v), '"', "");
      assert s[..|Quote(v)|] == Quote(v);
    }
  }

  lemma {:induction false} NoQuotes(v: string)
    requires '"' !in v
    ensures Quote(v) == v
  {
    if v != "" {
      NoQuotes(v[1..]);
    }
  }

  lemma EntryLineIs(key: string, v: string)
    ensures EntryLine(key, v) == key + " = " + ValueText(v)
    ensures EntryLine(key, v) == (key + " ") + ['='] + (" " + ValueText(v))
  {
    hide Quote;
    var q := Quote(v);
    assert " = \"" == " = " + "\"";
    assert key + (" = " + "\"") + q + "\"" == key + " = " + ("\"" + q + "\"");
    assert " = " == [' '] + ['='] + [' '];
    assert key + " = " + ValueText(v) == (key + " ") + ['='] + (" " + ValueText(v));
  }

  /** The shape of an entry line with a plain key. */
  lemma EntryShape(w: Space, key: string, text: string)
    requires Sound(w) && GoodKey(key) && Tight(w, text)
    ensures var line := (key + " ") + ['='] + (" " + text);
            && Tight(w, line) && line[0] != '[' && line[0] != '#' && Tight(w, key)
            && Find(line, '=') == |key| + 1 && line[..|key| + 1] == key + " " && line[|key| + 2..] == " " + text
  {
    var line := (key + " ") + ['='] + (" " + text);
    assert KeyChar(key[0]) && KeyChar(key[|key| - 1]);
    assert !KeyChar('[') && !KeyChar('#') && !KeyChar('=');
    assert line[0] == key[0] && line[|line| - 1] == text[|text| - 1];
    assert '=' !in key + " ";
    hide Sound, GoodKey, KeyChar, Find;
    FindFirst(key + " ", '=', " " + text);
  }

  /** An entry with a plain key is stored under the section in force. */
  lemma EntryReads(w: Space, key: string, v: string, n: nat, st: State)
    requires Sound(w) && GoodKey(key)
    ensures Step(w, EntryLine(key, v), n, st) == Ok(st.(out := st.out[Full(st.section, key) := Quote(v)]))
  {
    var line, text := EntryLine(key, v), ValueText(v);
    assert w(' ');
    ValueReads(w, v, n);
    EntryLineIs(key, v);
    EntryShape(w, key, text);
    hide EntryLine, ValueText, Quote, ParseValue, Trim, Find, GoodKey, Sound;
    TrimTight(w, line);
    TrimTight(w, key);
    TrimTight(w, text);
  }

  /** An entry without a key is refused. */
  lemma EmptyKeyFails(w: Space, v: string, n: nat, st: State)
    requires Sound(w)
    ensures Step(w, EntryLine("", v), n, st).Err?
  {
    var line, text := EntryLine("", v), ValueText(v);
    ValueReads(w, v, n);
    EntryLineIs("", v);
    var tail := "= " + text;
    assert line == " " + tail;
    assert tail[0] == '=' && tail[|tail| - 1] == text[|text| - 1];
    TrimTight(w, tail);
    assert tail[..0] == "";
    assert Find(tail, '=') == 0;
    assert Trim(w, "") == "";
  }

  /** A section line puts the section in force, trimmed; one that opens a second bracket is refused. */
  lemma SectionReads(w: Space, section: string, n: nat, st: State)
    requires Sound(w) && section != ""
    ensures Step(w, "[" + section + "]", n, st)
            == if section[0] == '[' then Err(n, Arrays) else Ok(st.(section := Trim(w, section)))
  {
    var line := "[" + section + "]";
    assert line[0] == '[' && line[|line| - 1] == ']' && line[1] == section[0];
    TrimTight(w, line);
    assert line[1..|line| - 1] == section;
  }

  lemma HeaderReads(w: Space, n: nat, st: State)
    requires Sound(w)
    ensures Step(w, HEADER, n, st) == Ok(st)
  {
    HeaderShape();
    assert KeyChar('.');
    TrimTight(w, HEADER);
  }

  lemma HeaderShape()
    ensures HEADER != "" && HEADER[0] == '#' && HEADER[|HEADER| - 1] == '.' && '\n' !in HEADER
  {
    var a, b, c, d := "# mosura machine config: ", "Environment keys only ", "(tool locations); ", "results never depend on it.";
    assert '\n' !in a && '\n' !in b && '\n' !in c && '\n' !in d;
    assert a[0] == '#' && d[|d| - 1] == '.';
    assert HEADER == a + b + c + d;
  }

  // ---- keys ----

  lemma {:induction false} DotEndOf(s: string, key: string)
    requires '.' !in key
    ensures DotEnd(key) == 0 && DotEnd(s + "." + key) == |s| + 1
  {
    if key == "" {
      assert (s + "." + key) == s + ".";
    } else {
      var n := |key| - 1;
      assert (s + "." + key)[..|s + "." + key| - 1] == s + "." + key[..n];
      DotEndOf(s, key[..n]);
    }
  }

  lemma Around(k: string, i: nat)
    requires i < |k| && k[i] == '.'
    ensures k[..i] + "." + k[i + 1..] == k
  {
  }

  /** A key is its section and its last part, unless a dot begins it. */
  lemma NameParts(k: string)
    ensures DotEnd(k) != 1 ==> Full(Section(k), Key(k)) == k
    ensures '.' !in Key(k)
  {
    hide DotEnd;
    if DotEnd(k) > 1 {
      Around(k, DotEnd(k) - 1);
    }
  }

  /** The parts of a name put together from a section and a key without dots. */
  lemma FullParts(section: string, key: string)
    requires '.' !in key
    ensures Key(Full(section, key)) == key && Section(Full(section, key)) == section
    ensures DotEnd(Full(section, key)) > 0 <==> section != ""
  {
    DotEndOf(section, key);
    if section != "" {
      assert (section + "." + key)[..|section|] == section;
      assert (section + "." + key)[|section| + 1..] == key;
    }
  }

  /** Where a key of the map ends up when its lines are read. */
  function Placed(w: Space, k: string): string {
    Full(Trim(w, Section(k)), Key(k))
  }

  lemma GoodNamesStay(w: Space, k: string)
    requires GoodName(w, k)
    ensures Placed(w, k) == k
  {
    NameParts(k);
    if DotEnd(k) == 0 {
      assert Trim(w, "") == "";
    }
  }

  /** Only names the file can hold are places. */
  lemma PlacesAreGood(w: Space, k: string, k': string)
    requires k == Placed(w, k') && (DotEnd(k) > 0 ==> Section(k) != "" ==> Section(k)[0] != '[') && GoodKey(Key(k))
    ensures GoodName(w, k)
  {
    NameParts(k');
    FullParts(Trim(w, Section(k')), Key(k'));
    TrimShape(w, Section(k'));
  }

  // ---- the whole file ----

  /** A map whose lines all read: no newline, a plain key at the end of each name, no bracket opened. */
  predicate Runs(m: map<string, string>) {
    && NewlineFree(m)
    && forall k | k in m :: GoodKey(Key(k)) && (Section(k) != "" ==> Section(k)[0] != '[')
  }

  ghost function PutEntries(out: map<string, string>, section: string, m: map<string, string>, ks: seq<string>): map<string, string>
    requires forall j | 0 <= j < |ks| :: ks[j] in m
  {
    if ks == [] then out
    else PutEntries(out, section, m, ks[..|ks| - 1])[Full(section, Key(ks[|ks| - 1])) := Quote(m[ks[|ks| - 1]])]
  }

  ghost function PutGroups(w: Space, m: map<string, string>, g: seq<Group>): map<string, string>
    requires forall i, j | 0 <= i < |g| && 0 <= j < |g[i].keys| :: g[i].keys[j] in m
  {
    if g == [] then map[]
    else PutEntries(PutGroups(w, m, g[..|g| - 1]), Trim(w, g[|g| - 1].section), m, g[|g| - 1].keys)
  }

  const START := State("", map[])

  lemma StepsSnoc(w: Space, lines: seq<string>, line: string, st: State)
    ensures Steps(w, lines + [line], st) == match Steps(w, lines, st)
                                            case Err(n, e) => Err(n, e)
                                            case Ok(st') => Step(w, line, |lines| + 1, st')
    ensures forall n: nat, blank: State :: Step(w, "", n, blank) == Ok(blank)
  {
    assert (lines + [line])[..|lines|] == lines;
  }

  lemma {:induction false} EntriesRead(w: Space, m: map<string, string>, base: seq<string>, ks: seq<string>, st: State)
    requires Sound(w) && Steps(w, base, START) == Ok(st)
    requires forall j | 0 <= j < |ks| :: ks[j] in m && GoodKey(Key(ks[j]))
    ensures Steps(w, base + EntryLines(m, ks), START) == Ok(st.(out := PutEntries(st.out, st.section, m, ks)))
  {
    hide Step, Steps, EntryLine, Key, Quote, Full;
    if ks == [] {
      assert base + [] == base;
    } else {
      var n := |ks| - 1;
      EntriesRead(w, m, base, ks[..n], st);
      var lines, line := base + EntryLines(m, ks[..n]), EntryLine(Key(ks[n]), m[ks[n]]);
      StepsSnoc(w, lines, line, START);
      EntryReads(w, Key(ks[n]), m[ks[n]], |lines| + 1, st.(out := PutEntries(st.out, st.section, m, ks[..n])));
      assert base + EntryLines(m, ks) == lines + [line];
    }
  }

  lemma GroupReads(w: Space, m: map<string, string>, base: seq<string>, g: Group, st: State)
    requires Sound(w) && Steps(w, base, START) == Ok(st)
    requires forall j | 0 <= j < |g.keys| :: g.keys[j] in m && GoodKey(Key(g.keys[j]))
    requires if g.section == "" then st.section == "" else g.section[0] != '['
    ensures Steps(w, base + GroupLines(m, g), START)
            == Ok(State(Trim(w, g.section), PutEntries(st.out, Trim(w, g.section), m, g.keys)))
  {
    hide Step, Steps, EntryLine, Key, Quote, Full, EntryLines, PutEntries;
    if g.section == "" {
      assert Trim(w, "") == "";
      EntriesRead(w, m, base, g.keys, st);
      assert GroupLines(m, g) == EntryLines(m, g.keys);
    } else {
      var title := "[" + g.section + "]";
      StepsSnoc(w, base, "", START);
      StepsSnoc(w, base + [""], title, START);
      SectionReads(w, g.section, |base + [""]| + 1, st);
      var head := base + [""] + [title];
      EntriesRead(w, m, head, g.keys, st.(section := Trim(w, g.section)));
      assert head + EntryLines(m, g.keys) == base + GroupLines(m, g);
    }
  }

  /** The groups of a map, cut short. */
  ghost predicate Partial(m: map<string, string>, g: seq<Group>) {
    && Increasing(Sections(g))
    && (forall i, j | 0 <= i < |g| && 0 <= j < |g[i].keys| :: g[i].keys[j] in m && Section(g[i].keys[j]) == g[i].section)
    && (forall i | 0 <= i < |g| :: g[i].section != "" ==> g[i].section[0] != '[')
  }

  lemma PartialFront(m: map<string, string>, g: seq<Group>)
    requires Partial(m, g) && g != []
    ensures Partial(m, g[..|g| - 1])
    ensures var g' := g[..|g| - 1]; forall i, j | 0 <= i < |g'| && 0 <= j < |g'[i].keys| :: g'[i].keys[j] in m
    ensures g[|g| - 1].section == "" ==> |g| == 1
  {
    var g' := g[..|g| - 1];
    assert forall i | 0 <= i < |g'| :: Sections(g')[i] == Sections(g)[i];
    if |g| > 1 {
      assert Less(Sections(g)[0], Sections(g)[|g| - 1]);
    }
  }

  lemma NoGroupsRead(w: Space, m: map<string, string>)
    requires Sound(w)
    ensures Steps(w, AllLines(m, []), START) == Ok(State("", PutGroups(w, m, [])))
  {
    hide Step;
    assert [HEADER] == [] + [HEADER];
    assert Steps(w, [], START) == Ok(START);
    StepsSnoc(w, [], HEADER, START);
    HeaderReads(w, 1, START);
  }

  /** The section in force after the groups. */
  ghost function InForce(w: Space, g: seq<Group>): string {
    if g == [] then "" else Trim(w, g[|g| - 1].section)
  }

  lemma LastGroup(w: Space, m: map<string, string>, g: seq<Group>)
    requires Runs(m) && Partial(m, g) && g != []
    ensures var last := g[|g| - 1];
            && (forall j | 0 <= j < |last.keys| :: last.keys[j] in m && GoodKey(Key(last.keys[j])))
            && (if last.section == "" then InForce(w, g[..|g| - 1]) == "" else last.section[0] != '[')
  {
    hide Key, GoodKey, Section, Less;
    PartialFront(m, g);
  }

  lemma {:induction false} AllRead(w: Space, m: map<string, string>, g: seq<Group>)
    requires Sound(w) && Runs(m) && Partial(m, g)
    ensures Steps(w, AllLines(m, g), START) == Ok(State(InForce(w, g), PutGroups(w, m, g)))
  {
    hide Step, Steps, GroupLines, PutEntries, Partial, Runs, Key, GoodKey, Trim;
    if g == [] {
      NoGroupsRead(w, m);
    } else {
      PartialFront(m, g);
      LastGroup(w, m, g);
      var front, last := g[..|g| - 1], g[|g| - 1];
      AllRead(w, m, front);
      GroupReads(w, m, AllLines(m, front), last, State(InForce(w, front), PutGroups(w, m, front)));
    }
  }

  lemma InPartial(m: map<string, string>, g: seq<Group>, i: nat)
    requires Partial(m, g) && i < |g|
    ensures forall j | 0 <= j < |g[i].keys| :: g[i].keys[j] in m && Section(g[i].keys[j]) == g[i].section
    ensures g[i].section != "" ==> g[i].section[0] != '['
  {
  }

  // ---- what has been stored ----

  /** Everything stored is some key of the map at its place, and every key of `ks` is stored. */
  ghost predicate Stored(w: Space, m: map<string, string>, out: map<string, string>) {
    forall x | x in out :: exists k :: k in m && x == Placed(w, k) && out[x] == Quote(m[k])
  }

  lemma {:induction false} EntriesStored(w: Space, m: map<string, string>, out: map<string, string>, section: string, ks: seq<string>)
    requires Stored(w, m, out)
    requires forall j | 0 <= j < |ks| :: ks[j] in m && Section(ks[j]) == section
    ensures var out' := PutEntries(out, Trim(w, section), m, ks);
            && Stored(w, m, out') && out.Keys <= out'.Keys
            && forall j | 0 <= j < |ks| :: Placed(w, ks[j]) in out'
  {
    hide Quote, Key, Section, Trim, Full;
    if ks != [] {
      var n := |ks| - 1;
      EntriesStored(w, m, out, section, ks[..n]);
      assert Placed(w, ks[n]) == Full(Trim(w, section), Key(ks[n]));
      forall j | 0 <= j < n
        ensures Placed(w, ks[j]) in PutEntries(out, Trim(w, section), m, ks[..n])
      {
        assert ks[..n][j] == ks[j];
      }
    }
  }

  lemma {:induction false} GroupsStored(w: Space, m: map<string, string>, g: seq<Group>)
    requires Partial(m, g)
    ensures Stored(w, m, PutGroups(w, m, g))
    ensures forall i, j | 0 <= i < |g| && 0 <= j < |g[i].keys| :: Placed(w, g[i].keys[j]) in PutGroups(w, m, g)
  {
    hide Quote, Key, Section, Trim, Full, PutEntries, Partial, Placed;
    if g == [] {
    } else {
      var n := |g| - 1;
      PartialFront(m, g);
      GroupsStored(w, m, g[..n]);
      InPartial(m, g, n);
      EntriesStored(w, m, PutGroups(w, m, g[..n]), g[n].section, g[n].keys);
      forall i, j | 0 <= i < |g| && 0 <= j < |g[i].keys|
        ensures Placed(w, g[i].keys[j]) in PutGroups(w, m, g)
      {
        if i < n {
          assert g[..n][i] == g[i];
        }
      }
    }
  }

  lemma GroupedIsPartial(m: map<string, string>, g: seq<Group>)
    requires Grouped(m, g) && Runs(m)
    ensures Partial(m, g)
  {
    forall i | 0 <= i < |g|
      ensures g[i].section != "" ==> g[i].section[0] != '['
    {
      assert g[i].keys[0] in m && Section(g[i].keys[0]) == g[i].section;
    }
  }

  // ---- lines without newlines ----

  lemma EntryLineClean(key: string, v: string)
    requires '\n' !in key && '\n' !in v
    ensures '\n' !in EntryLine(key, v)
  {
    QuoteFree(v);
  }

  lemma PartsClean(k: string)
    requires '\n' !in k
    ensures '\n' !in Key(k) && '\n' !in Section(k)
  {
  }

  lemma {:induction false} EntryLinesClean(m: map<string, string>, ks: seq<string>)
    requires NewlineFree(m) && forall j | 0 <= j < |ks| :: ks[j] in m
    ensures |EntryLines(m, ks)| == |ks|
    ensures forall i | 0 <= i < |ks| :: '\n' !in EntryLines(m, ks)[i] && EntryLines(m, ks)[i] == EntryLine(Key(ks[i]), m[ks[i]])
  {
    hide EntryLine, Key;
    if ks != [] {
      var n := |ks| - 1;
      EntryLinesClean(m, ks[..n]);
      PartsClean(ks[n]);
      EntryLineClean(Key(ks[n]), m[ks[n]]);
    }
  }

  /** The lines of a group, its title and its entries, all free of newlines. */
  lemma GroupLinesClean(m: map<string, string>, g: Group)
    requires NewlineFree(m) && g.keys != [] && forall j | 0 <= j < |g.keys| :: g.keys[j] in m && Section(g.keys[j]) == g.section
    ensures forall i | 0 <= i < |GroupLines(m, g)| :: '\n' !in GroupLines(m, g)[i]
    ensures g.section != "" ==> "[" + g.section + "]" in GroupLines(m, g)
    ensures forall j | 0 <= j < |g.keys| :: EntryLine(Key(g.keys[j]), m[g.keys[j]]) in GroupLines(m, g)
  {
    hide EntryLine, Key, EntryLines, Section;
    EntryLinesClean(m, g.keys);
    PartsClean(g.keys[0]);
    assert '\n' !in "[" + g.section + "]";
    var lines := GroupLines(m, g);
    var h := if g.section == "" then 0 else 2;
    forall j | 0 <= j < |g.keys|
      ensures EntryLine(Key(g.keys[j]), m[g.keys[j]]) in lines
    {
      assert lines[h + j] == EntryLines(m, g.keys)[j];
    }
    if g.section != "" {
      assert lines[1] == "[" + g.section + "]";
    }
  }

  lemma {:induction false} AllLinesClean(m: map<string, string>, g: seq<Group>)
    requires NewlineFree(m)
    requires forall i | 0 <= i < |g| :: g[i].keys != []
    requires forall i, j | 0 <= i < |g| && 0 <= j < |g[i].keys| :: g[i].keys[j] in m && Section(g[i].keys[j]) == g[i].section
    ensures forall i | 0 <= i < |AllLines(m, g)| :: '\n' !in AllLines(m, g)[i]
    ensures forall i, x | 0 <= i < |g| && x in GroupLines(m, g[i]) :: x in AllLines(m, g)
  {
    hide GroupLines, Section;
    if g == [] {
      HeaderShape();
    } else {
      var n := |g| - 1;
      AllLinesClean(m, g[..n]);
      GroupLinesClean(m, g[n]);
      forall i, x | 0 <= i < |g| && x in GroupLines(m, g[i])
        ensures x in AllLines(m, g)
      {
        if i < n {
          assert g[..n][i] == g[i];
        }
      }
    }
  }

  /** Parsing the rendered text is reading its lines. */
  lemma ParsedLines(w: Space, m: map<string, string>, g: seq<Group>)
    requires NewlineFree(m) && Grouped(m, g)
    ensures Parsed(w, Lines(AllLines(m, g))) == match Steps(w, AllLines(m, g), START)
                                               case Err(n, e) => Err(n, e)
                                               case Ok(st) => Ok(st.out)
  {
    hide Step, Lines, Split, Steps, Less, Section;
    AllLinesClean(m, g);
    SplitLines(AllLines(m, g));
    StepsSnoc(w, AllLines(m, g), "", START);
  }

  // ---- lines that never read ----

  ghost predicate Hopeless(w: Space, line: string) {
    forall n: nat, st: State :: Step(w, line, n, st).Err?
  }

  lemma {:induction false} HopelessLine(w: Space, lines: seq<string>, line: string)
    requires line in lines && Hopeless(w, line)
    ensures Steps(w, lines, START).Err?
  {
    hide Step;
    var n := |lines| - 1;
    var prefix := lines[..n];
    if lines[n] == line {
      match Steps(w, prefix, START)
      case Err(_, _) =>
      case Ok(st) => assert Step(w, line, |lines|, st).Err?;
    } else {
      assert line in prefix;
      HopelessLine(w, prefix, line);
    }
  }

  // ---- what every parse gives ----

  /** Nothing a parse stores holds a newline, no value holds a double quote, and behind its last dot a name
      is made of key characters. */
  ghost predicate Storable(out: map<string, string>) {
    forall k | k in out :: '\n' !in k && '\n' !in out[k] && '"' !in out[k] && forall c | c in Key(k) :: KeyChar(c)
  }

  lemma KeySnoc(s: string, c: char)
    ensures Key(s + [c]) == if c == '.' then "" else Key(s) + [c]
  {
    assert (s + [c])[..|s|] == s;
    hide DotEnd;
    assert DotEnd(s + [c]) == if c == '.' then |s| + 1 else DotEnd(s);
  }

  lemma {:induction false} KeyOfFull(s: string, key: string)
    ensures forall c | c in Key(Full(s, key)) :: c in key
  {
    if key == "" {
      KeySnoc(s, '.');
    } else if s != "" {
      var n := |key| - 1;
      assert key == key[..n] + [key[n]];
      assert Full(s, key) == Full(s, key[..n]) + [key[n]];
      KeyOfFull(s, key[..n]);
      KeySnoc(Full(s, key[..n]), key[n]);
    }
  }

  lemma StepStorable(w: Space, line: string, n: nat, st: State)
    requires Sound(w) && '\n' !in line && '\n' !in st.section && Storable(st.out) && Step(w, line, n, st).Ok?
    ensures var st' := Step(w, line, n, st).value; '\n' !in st'.section && Storable(st'.out)
  {
    var t := Trim(w, line);
    TrimShape(w, line);
    assert '\n' !in t;
    var st' := Step(w, line, n, st).value;
    if t == "" || t[0] == '#' {
    } else if IsHeader(t) {
      TrimShape(w, t[1..|t| - 1]);
    } else {
      var eq := Find(t, '=');
      var key, text := Trim(w, t[..eq]), Trim(w, t[eq + 1..]);
      TrimShape(w, t[..eq]);
      TrimShape(w, t[eq + 1..]);
      PairStorable(st, key, text, n);
    }
  }

  lemma PairStorable(st: State, key: string, text: string, n: nat)
    requires '\n' !in st.section && Storable(st.out) && GoodKey(key) && '\n' !in text && ParseValue(text, n).Ok?
    ensures Storable(st.out[Full(st.section, key) := ParseValue(text, n).value])
  {
    KeyOfFull(st.section, key);
    assert '\n' !in key by { assert !KeyChar('\n'); }
    var v := ParseValue(text, n).value;
    assert '\n' !in v && '"' !in v;
    assert '\n' !in Full(st.section, key);
    hide Full, Key, ParseValue;
  }

  lemma {:induction false} StepsStorable(w: Space, lines: seq<string>)
    requires Sound(w) && (forall i | 0 <= i < |lines| :: '\n' !in lines[i]) && Steps(w, lines, START).Ok?
    ensures var st := Steps(w, lines, START).value; '\n' !in st.section && Storable(st.out)
  {
    hide Step, Key;
    if lines != [] {
      var n := |lines| - 1;
      StepsStorable(w, lines[..n]);
      StepStorable(w, lines[n], |lines|, Steps(w, lines[..n], START).value);
    }
  }

  lemma {:induction false} SplitClean(s: string, sep: char)
    ensures forall i | 0 <= i < |Split(s, sep)| :: sep !in Split(s, sep)[i]
  {
    if s != "" {
      SplitClean(s[1..], sep);
    }
  }

  /** Whatever text is parsed. */
  lemma ParsedStorable(w: Space, text: string)
    requires Sound(w) && Parsed(w, text).Ok?
    ensures Storable(Parsed(w, text).value)
  {
    hide Step, Split, Steps, Storable;
    SplitClean(text, '\n');
    StepsStorable(w, Split(text, '\n'));
  }

  // ---- the main results ----

  lemma GoodPlacesKeep(w: Space, m: map<string, string>, out: map<string, string>)
    requires Stored(w, m, out) && forall k | k in m :: Placed(w, k) == k && k in out
    ensures out == Quoted(m)
  {
    hide Quote, Placed;
  }

  lemma WellFormedIsKept(w: Space, m: map<string, string>, g: seq<Group>)
    requires Sound(w) && Grouped(m, g) && WellFormed(w, m)
    ensures Parsed(w, Lines(AllLines(m, g))) == Ok(Quoted(m))
  {
    hide Less, Lines, AllLines, Steps, Key, Full, Quote, Quoted, Stored, Placed, PutGroups, Section, Trim, GoodName, Runs, Partial, Sound;
    NamesRun(w, m);
    GroupedIsPartial(m, g);
    ParsedLines(w, m, g);
    AllRead(w, m, g);
    GroupsStored(w, m, g);
    forall k | k in m
      ensures Placed(w, k) == k && k in PutGroups(w, m, g)
    {
      GoodNamesStay(w, k);
      var i :| 0 <= i < |g| && k in g[i].keys;
      var j :| 0 <= j < |g[i].keys| && g[i].keys[j] == k;
    }
    GoodPlacesKeep(w, m, PutGroups(w, m, g));
  }

  lemma NamesRun(w: Space, m: map<string, string>)
    requires WellFormed(w, m)
    ensures Runs(m)
  {
    hide Key, GoodKey, Trim;
  }

  lemma StoredNameIsGood(w: Space, m: map<string, string>, k: string)
    requires Stored(w, m, Quoted(m)) && Runs(m) && k in m
    ensures GoodName(w, k)
  {
    hide Quote, Placed, GoodName, GoodKey, DotEnd, Key, Section;
    assert k in Quoted(m);
    var k' :| k' in m && k == Placed(w, k') && Quoted(m)[k] == Quote(m[k']);
    PlacesAreGood(w, k, k');
  }

  lemma KeptRunsIsWellFormed(w: Space, m: map<string, string>, g: seq<Group>)
    requires Sound(w) && Grouped(m, g) && Runs(m)
    requires Parsed(w, Lines(AllLines(m, g))) == Ok(Quoted(m))
    ensures WellFormed(w, m)
  {
    hide Parsed, Lines, AllLines, Steps, Quoted, Stored, PutGroups, Partial, Sound, GoodName;
    GroupedIsPartial(m, g);
    ParsedLines(w, m, g);
    AllRead(w, m, g);
    GroupsStored(w, m, g);
    forall k | k in m
      ensures GoodName(w, k)
    {
      StoredNameIsGood(w, m, k);
    }
  }

  /** An entry without a key, and a section that opens a second bracket, read in no state. */
  lemma HopelessLines(w: Space, v: string, section: string)
    requires Sound(w)
    ensures Hopeless(w, EntryLine("", v))
    ensures section != "" && section[0] == '[' ==> Hopeless(w, "[" + section + "]")
  {
    forall n: nat, st: State
      ensures Step(w, EntryLine("", v), n, st).Err?
      ensures section != "" && section[0] == '[' ==> Step(w, "[" + section + "]", n, st).Err?
    {
      hide Step, EntryLine;
      EmptyKeyFails(w, v, n, st);
      if section != "" {
        SectionReads(w, section, n, st);
      }
    }
  }

  lemma KeptIsNewlineFree(w: Space, m: map<string, string>, text: string)
    requires Sound(w) && Parsed(w, text) == Ok(Quoted(m))
    ensures NewlineFree(m) && forall k | k in m :: forall c | c in Key(k) :: KeyChar(c)
  {
    hide Key, KeyChar, Quote, Parsed, Sound;
    ParsedStorable(w, text);
    forall k | k in m
      ensures '\n' !in k && '\n' !in m[k] && forall c | c in Key(k) :: KeyChar(c)
    {
      assert k in Quoted(m);
      QuoteFree(m[k]);
    }
  }

  /** A map some line of which no state reads is not read back. */
  lemma KeptHasNoHopelessLine(w: Space, m: map<string, string>, g: seq<Group>, line: string)
    requires NewlineFree(m) && Grouped(m, g) && KeysIn(m, g)
    requires Parsed(w, Lines(AllLines(m, g))).Ok? && line in AllLines(m, g)
    ensures !Hopeless(w, line)
  {
    hide Hopeless, Lines, AllLines, Grouped, Steps;
    ParsedLines(w, m, g);
    if Hopeless(w, line) {
      HopelessLine(w, AllLines(m, g), line);
    }
  }

  lemma KeptRuns(w: Space, m: map<string, string>, g: seq<Group>)
    requires Sound(w) && Grouped(m, g)
    requires Parsed(w, Lines(AllLines(m, g))) == Ok(Quoted(m))
    ensures Runs(m)
  {
    hide Less, Lines, Section, AllLines, DotEnd, Quote, Quoted, Parsed, Hopeless, Sound, Key, KeyChar, EntryLine;
    KeptIsNewlineFree(w, m, Lines(AllLines(m, g)));
    AllLinesClean(m, g);
    forall k | k in m
      ensures GoodKey(Key(k)) && (Section(k) != "" ==> Section(k)[0] != '[')
    {
      var i :| 0 <= i < |g| && k in g[i].keys;
      var j :| 0 <= j < |g[i].keys| && g[i].keys[j] == k;
      GroupLinesClean(m, g[i]);
      HopelessLines(w, m[k], Section(k));
      if Key(k) == "" {
        KeptHasNoHopelessLine(w, m, g, EntryLine("", m[k]));
      }
      if Section(k) != "" && Section(k)[0] == '[' {
        KeptHasNoHopelessLine(w, m, g, "[" + Section(k) + "]");
      }
    }
  }

  /** Rendering a map and parsing the text gives the map back, with its double quotes turned into single
      ones, exactly when the map is well formed. */
  lemma RoundTripIffWellFormed(w: Space, m: map<string, string>, text: string)
    requires Sound(w) && RenderOf(m, text)
    ensures Parsed(w, text) == Ok(Quoted(m)) <==> WellFormed(w, m)
  {
    hide Lines, AllLines, Grouped, Parsed, WellFormed;
    var g :| Grouped(m, g) && KeysIn(m, g) && text == Lines(AllLines(m, g));
    if WellFormed(w, m) {
      WellFormedIsKept(w, m, g);
    } else if Parsed(w, text) == Ok(Quoted(m)) {
      KeptRuns(w, m, g);
      KeptRunsIsWellFormed(w, m, g);
    }
  }

  /** A name that ends in a dot is lost: its line has no key, and the file does not parse. */
  lemma DottedNameFails(w: Space, v: string, text: string)
    requires Sound(w) && RenderOf(map["a." := v], text)
    ensures !WellFormed(w, map["a." := v]) && Parsed(w, text) != Ok(Quoted(map["a." := v]))
  {
    var m := map["a." := v];
    var k := "a.";
    assert DotEnd(k) == 2 && Key(k) == "";
    assert k in m && !GoodName(w, k);
    hide GoodName, Quoted, Parsed, RenderOf, Sound;
    RoundTripIffWellFormed(w, m, text);
  }

  lemma ParsedIsQuoted(m: map<string, string>)
    requires Storable(m)
    ensures Quoted(m) == m
  {
    forall k | k in m
      ensures Quote(m[k]) == m[k]
    {
      NoQuotes(m[k]);
    }
  }

  /** Setting a key in the file of a map and loading the file again gives that map updated at the key,
      exactly when the updated map is well formed. */
  lemma SetThenLoad(w: Space, text: string, key: string, value: string, text': string)
    requires Sound(w) && Parsed(w, text).Ok?
    requires RenderOf(Parsed(w, text).value[key := value], text')
    ensures var m := Parsed(w, text).value;
            Parsed(w, text') == Ok(m[key := Quote(value)]) <==> WellFormed(w, m[key := value])
  {
    hide Quote, Parsed, RenderOf, WellFormed, Storable;
    var m := Parsed(w, text).value;
    ParsedStorable(w, text);
    ParsedIsQuoted(m);
    assert Quoted(m[key := value]) == m[key := Quote(value)] by {
      forall k | k in m ensures Quoted(m)[k] == m[k] {}
    }
    RoundTripIffWellFormed(w, m[key := value], text');
  }

  /** A key set in a file: the text that is written back. A file that does not parse is left alone. */
  method Set(w: Space, text: string, key: string, value: string) returns (r: Result<string>)
    requires Sound(w)
    ensures match Parsed(w, text)
            case Err(n, e) => r == Err(n, e)
            case Ok(m) =>
              r.Ok? && RenderOf(m[key := value], r.value)
              && (Parsed(w, r.value) == Ok(m[key := Quote(value)]) <==> WellFormed(w, m[key := value]))
  {
    hide Parsed, RenderOf, WellFormed, Quote;
    var parsed := Parse(w, text);
    if parsed.Err? {
      return Err(parsed.line, parsed.reason);
    }
    var out := Render(parsed.value[key := value]);
    SetThenLoad(w, text, key, value, out);
    r := Ok(out);
  }

  function SmallMap(): map<string, string> {
    map["r" := "y", "a.b" := "x", "a.c" := "true"]
  }

  function SmallGroups(): seq<Group> {
    [Group("", ["r"]), Group("a", ["a.b", "a.c"])]
  }

  lemma SmallGrouped()
    ensures Grouped(SmallMap(), SmallGroups()) && KeysIn(SmallMap(), SmallGroups())
  {
    hide Section, Key, Less;
    SmallNames();
    var m, g := SmallMap(), SmallGroups();
    Increasing2("", "a");
    Increasing2("a.b", "a.c");
    assert Sections(g) == ["", "a"];
    assert g[0].keys == ["r"] && g[1].keys == ["a.b", "a.c"] && g[0].section == "" && g[1].section == "a";
    assert Increasing(g[0].keys);
    forall k | k in m
      ensures exists i :: 0 <= i < |g| && k in g[i].keys
    {
      assert k in g[0].keys || k in g[1].keys;
    }
  }

  lemma Increasing2(a: string, b: string)
    requires Less(a, b)
    ensures Increasing([a, b])
  {
  }

  lemma SmallLines()
    requires KeysIn(SmallMap(), SmallGroups())
    ensures AllLines(SmallMap(), SmallGroups()) == [HEADER, "r = \"y\"", "", "[a]", "b = \"x\"", "c = true"]
  {
    var m, g := SmallMap(), SmallGroups();
    SmallNames();
    hide Section, Key, Less, Quote, HEADER;
    assert EntryLine("b", "x") == "b = \"x\"" && EntryLine("c", "true") == "c = true" && EntryLine("r", "y") == "r = \"y\"";
    assert EntryLines(m, ["r"]) == ["r = \"y\""] by {
      assert ["r"][..0] == [];
    }
    assert EntryLines(m, ["a.b", "a.c"]) == ["b = \"x\"", "c = true"] by {
      assert ["a.b", "a.c"][..1] == ["a.b"] && ["a.b"][..0] == [];
    }
    assert "[" + "a" + "]" == "[a]";
    assert GroupLines(m, g[0]) == ["r = \"y\""] && GroupLines(m, g[1]) == ["", "[a]", "b = \"x\"", "c = true"];
    assert g[..1] == [g[0]] && g[..1][..0] == [];
    assert AllLines(m, []) == [HEADER];
    assert AllLines(m, g[..1]) == [HEADER] + GroupLines(m, g[0]);
  }

  /** What a file looks like: keys without a section first, then a blank line, the title and the keys of a section. */
  lemma RenderedFile()
    ensures RenderOf(map["r" := "y", "a.b" := "x", "a.c" := "true"],
                     HEADER + "\n" + "r = \"y\"\n" + "\n" + "[a]\n" + "b = \"x\"\n" + "c = true\n")
  {
    hide Grouped, AllLines, Lines, HEADER;
    SmallGrouped();
    SmallLines();
    SixLines(AllLines(SmallMap(), SmallGroups()));
    assert "" + "\n" == "\n" && "[a]" + "\n" == "[a]\n" && "c = true" + "\n" == "c = true\n";
    assert "b = \"x\"" + "\n" == "b = \"x\"\n" && "r = \"y\"" + "\n" == "r = \"y\"\n";
  }

  lemma SmallNames()
    ensures Section("r") == "" && Key("r") == "r" && Section("a.b") == "a" && Key("a.b") == "b"
    ensures Section("a.c") == "a" && Key("a.c") == "c" && Quote("x") == "x" && Quote("y") == "y"
    ensures Less("", "a") && Less("a.b", "a.c")
  {
    FullParts("", "r");
    FullParts("a", "b");
    FullParts("a", "c");
    assert "a" + "." + "b" == "a.b" && "a" + "." + "c" == "a.c";
    NoQuotes("x");
    NoQuotes("y");
    assert "a.b"[1..] == ".b" && "a.c"[1..] == ".c" && ".b"[1..] == "b" && ".c"[1..] == "c";
  }

  lemma SixLines(lines: seq<string>)
    requires |lines| == 6
    ensures Lines(lines) == lines[0] + "\n" + (lines[1] + "\n") + (lines[2] + "\n") + (lines[3] + "\n") + (lines[4] + "\n")
                            + (lines[5] + "\n")
  {
    hide Lines;
    LinesSnoc([], lines[0]);
    LinesSnoc([lines[0]], lines[1]);
    LinesSnoc([lines[0], lines[1]], lines[2]);
    LinesSnoc([lines[0], lines[1], lines[2]], lines[3]);
    LinesSnoc([lines[0], lines[1], lines[2], lines[3]], lines[4]);
    LinesSnoc([lines[0], lines[1], lines[2], lines[3], lines[4]], lines[5]);
    assert lines == [lines[0], lines[1], lines[2], lines[3], lines[4]] + [lines[5]];
    assert [] + [lines[0]] == [lines[0]];
    assert [lines[0]] + [lines[1]] == [lines[0], lines[1]];
    assert [lines[0], lines[1]] + [lines[2]] == [lines[0], lines[1], lines[2]];
    assert [lines[0], lines[1], lines[2]] + [lines[3]] == [lines[0], lines[1], lines[2], lines[3]];
    assert [lines[0], lines[1], lines[2], lines[3]] + [lines[4]] == [lines[0], lines[1], lines[2], lines[3], lines[4]];
    assert "" + (lines[0] + "\n") == lines[0] + "\n";
  }
}
