/** The machine config: `section.key -> value`, parsed from and rendered to a TOML subset. */
module Config {
  import opened Text

  /** The host's Unicode white space. */
  type Space = char -> bool

  predicate Alnum(c: char) {
    '0' <= c <= '9' || 'a' <= c <= 'z' || 'A' <= c <= 'Z'
  }

  predicate KeyChar(c: char) {
    Alnum(c) || c == '_' || c == '-' || c == '.'
  }

  /** What white space is known to be, and known not to be. */
  ghost predicate Sound(w: Space) {
    && w(' ') && w('\n')
    && (forall c :: KeyChar(c) ==> !w(c))
    && !w('"') && !w('=') && !w('[') && !w(']') && !w('#')
  }

  datatype Reason = Arrays | NoEquals | BadKey | Unterminated | BadValue

  datatype Result<+T> = Ok(value: T) | Err(line: nat, reason: Reason)

  datatype State = State(section: string, out: map<string, string>)

  // ---- strings ----

  function TrimStart(w: Space, s: string): string {
    if s != "" && w(s[0]) then TrimStart(w, s[1..]) else s
  }

  function TrimEnd(w: Space, s: string): string {
    if s != "" && w(s[|s| - 1]) then TrimEnd(w, s[..|s| - 1]) else s
  }

  function Trim(w: Space, s: string): string {
    TrimEnd(w, TrimStart(w, s))
  }

  /** The first place of `c`, or the length. */
  function Find(s: string, c: char): (i: nat)
    ensures i <= |s| && c !in s[..i] && (i < |s| ==> s[i] == c)
  {
    if s == "" || s[0] == c then 0 else 1 + Find(s[1..], c)
  }

  /** Where the part behind the last dot begins; 0 without a dot. */
  function DotEnd(k: string): (i: nat)
    ensures i <= |k| && '.' !in k[i..] && (i > 0 ==> k[i - 1] == '.')
  {
    if k == "" then 0 else if k[|k| - 1] == '.' then |k| else DotEnd(k[..|k| - 1])
  }

  function Section(k: string): string {
    if DotEnd(k) == 0 then "" else k[..DotEnd(k) - 1]
  }

  function Key(k: string): string {
    k[DotEnd(k)..]
  }

  function Full(section: string, key: string): string {
    if section == "" then key else section + "." + key
  }

  // ---- parsing ----

  predicate GoodKey(key: string) {
    key != "" && forall i | 0 <= i < |key| :: KeyChar(key[i])
  }

  function ParseValue(value: string, n: nat): Result<string> {
    if value != "" && value[0] == '"' then
      var s := value[1..];
      var end := Find(s, '"');
      if end == |s| then Err(n, Unterminated) else Ok(s[..end])
    else if value == "true" || value == "false" then Ok(value)
    else Err(n, BadValue)
  }

  /** `key = value` under the section in force. */
  function ParsePair(w: Space, line: string, n: nat, st: State): Result<State> {
    var eq := Find(line, '=');
    if eq == |line| then Err(n, NoEquals)
    else
      var key := Trim(w, line[..eq]);
      if !GoodKey(key) then Err(n, BadKey)
      else
        match ParseValue(Trim(w, line[eq + 1..]), n)
        case Err(m, e) => Err(m, e)
        case Ok(v) => Ok(st.(out := st.out[Full(st.section, key) := v]))
  }

  predicate IsHeader(line: string) {
    |line| >= 2 && line[0] == '[' && line[|line| - 1] == ']'
  }

  /** One line of the file. */
  function Step(w: Space, raw: string, n: nat, st: State): Result<State> {
    var line := Trim(w, raw);
    if line == "" || line[0] == '#' then Ok(st)
    else if |line| >= 2 && line[0] == '[' && line[1] == '[' then Err(n, Arrays)
    else if IsHeader(line) then Ok(st.(section := Trim(w, line[1..|line| - 1])))
    else ParsePair(w, line, n, st)
  }

  function Steps(w: Space, lines: seq<string>, st: State): Result<State>
    decreases |lines|
  {
    if lines == [] then Ok(st)
    else
      match Steps(w, lines[..|lines| - 1], st)
      case Err(n, e) => Err(n, e)
      case Ok(st') => Step(w, lines[|lines| - 1], |lines|, st')
  }

  /** The lines of a text: the host's `lines` drops an empty last one and a carriage return before a newline,
      which here are a line of no effect and trailing white space. */
  function Parsed(w: Space, text: string): Result<map<string, string>> {
    match Steps(w, Split(text, '\n'), State("", map[]))
    case Err(n, e) => Err(n, e)
    case Ok(st) => Ok(st.out)
  }

  method Parse(w: Space, text: string) returns (r: Result<map<string, string>>)
    ensures r == Parsed(w, text)
  {
    var lines := Split(text, '\n');
    var out: map<string, string> := map[];
    var section := "";
    for i := 0 to |lines|
      invariant Steps(w, lines[..i], State("", map[])) == Ok(State(section, out))
    {
      hide Split, Find, Trim, ParseValue, GoodKey, Steps;
      StepsStop(w, lines, i + 1, State("", map[]));
      var line := Trim(w, lines[i]);
      var n := i + 1;
      if line == "" || line[0] == '#' {
        continue;
      }
      if |line| >= 2 && line[0] == '[' && line[1] == '[' {
        return Err(n, Arrays);
      }
      if IsHeader(line) {
        section := Trim(w, line[1..|line| - 1]);
        continue;
      }
      var eq := Find(line, '=');
      if eq == |line| {
        return Err(n, NoEquals);
      }
      var key := Trim(w, line[..eq]);
      if !GoodKey(key) {
        return Err(n, BadKey);
      }
      var value := ParseValue(Trim(w, line[eq + 1..]), n);
      if value.Err? {
        return Err(value.line, value.reason);
      }
      out := out[Full(section, key) := value.value];
    }
    assert lines[..|lines|] == lines;
    r := Ok(out);
  }

  /** The first malformed line decides. */
  lemma {:induction false} StepsStop(w: Space, lines: seq<string>, n: nat, st: State)
    requires n <= |lines|
    ensures Steps(w, lines[..n], st).Err? ==> Steps(w, lines, st) == Steps(w, lines[..n], st)
    ensures n > 0 ==> Steps(w, lines[..n], st) == match Steps(w, lines[..n - 1], st)
                                                  case Err(m, e) => Err(m, e)
                                                  case Ok(st') => Step(w, lines[n - 1], n, st')
    decreases |lines|
  {
    hide Step;
    if n > 0 {
      assert lines[..n][..n - 1] == lines[..n - 1];
    }
    if n == |lines| {
      assert lines[..n] == lines;
    } else {
      assert lines[..|lines| - 1][..n] == lines[..n];
      StepsStop(w, lines[..|lines| - 1], n, st);
    }
  }

  // ---- rendering ----

  /** The order in which a map is walked. */
  predicate Less(a: string, b: string) {
    if b == "" then false
    else if a == "" then true
    else if a[0] != b[0] then a[0] < b[0]
    else Less(a[1..], b[1..])
  }

  lemma {:induction false} LessTotal(a: string, b: string)
    ensures Less(a, b) || a == b || Less(b, a)
    ensures !(Less(a, b) && (a == b || Less(b, a)))
  {
    if a != "" && b != "" {
      LessTotal(a[1..], b[1..]);
      assert a == [a[0]] + a[1..] && b == [b[0]] + b[1..];
    }
  }

  lemma {:induction false} LessTransitive(a: string, b: string, c: string)
    requires Less(a, b) && Less(b, c)
    ensures Less(a, c)
  {
    if a != "" && b != "" && c != "" && a[0] == b[0] == c[0] {
      LessTransitive(a[1..], b[1..], c[1..]);
    }
  }

  lemma {:induction false} LeastExists(s: set<string>) returns (k: string)
    requires s != {}
    ensures k in s && forall k' | k' in s && k' != k :: Less(k, k')
    decreases |s|
  {
    var x :| x in s;
    if s == {x} {
      k := x;
    } else {
      var rest := s - {x};
      assert s == rest + {x};
      assert rest != {};
      var y := LeastExists(rest);
      LessTotal(x, y);
      k := if Less(x, y) then x else y;
      forall k' | k' in s && k' != k
        ensures Less(k, k')
      {
        if k == x && k' != y {
          LessTransitive(x, y, k');
        }
      }
    }
  }

  method Least(s: set<string>) returns (k: string)
    requires s != {}
    ensures k in s && forall k' | k' in s && k' != k :: Less(k, k')
  {
    ghost var least := LeastExists(s);
    forall k', k'' | k' in s && k'' in s && (forall x | x in s && x != k' :: Less(k', x)) && (forall x | x in s && x != k'' :: Less(k'', x))
      ensures k' == k''
    {
      LessTotal(k', k'');
    }
    k :| k in s && forall k' | k' in s && k' != k :: Less(k, k');
  }

  function Quote(v: string): string {
    Replace(v, '"', "'")
  }

  function EntryLine(key: string, v: string): string {
    if v == "true" || v == "false" then key + " = " + v else key + " = \"" + Quote(v) + "\""
  }

  const HEADER :=
    "# mosura machine config: " + "Environment keys only " + "(tool locations); " + "results never depend on it."

  /** A section and the full keys under it. */
  datatype Group = Group(section: string, keys: seq<string>)

  ghost predicate Increasing(ks: seq<string>) {
    forall i, j | 0 <= i < j < |ks| :: Less(ks[i], ks[j])
  }

  function Sections(g: seq<Group>): (r: seq<string>)
    ensures |r| == |g| && forall i | 0 <= i < |g| :: r[i] == g[i].section
  {
    seq(|g|, i requires 0 <= i < |g| => g[i].section)
  }

  /** The keys of `m`, grouped by section; sections, and keys in each, in increasing order. */
  ghost predicate Grouped(m: map<string, string>, g: seq<Group>) {
    && Increasing(Sections(g))
    && (forall i | 0 <= i < |g| :: g[i].keys != [] && Increasing(g[i].keys))
    && (forall i, j | 0 <= i < |g| && 0 <= j < |g[i].keys| :: g[i].keys[j] in m && Section(g[i].keys[j]) == g[i].section)
    && (forall k | k in m :: exists i :: 0 <= i < |g| && k in g[i].keys)
  }

  function EntryLines(m: map<string, string>, ks: seq<string>): seq<string>
    requires forall j | 0 <= j < |ks| :: ks[j] in m
  {
    if ks == [] then [] else EntryLines(m, ks[..|ks| - 1]) + [EntryLine(Key(ks[|ks| - 1]), m[ks[|ks| - 1]])]
  }

  function GroupLines(m: map<string, string>, g: Group): seq<string>
    requires forall j | 0 <= j < |g.keys| :: g.keys[j] in m
  {
    (if g.section == "" then [] else ["", "[" + g.section + "]"]) + EntryLines(m, g.keys)
  }

  predicate KeysIn(m: map<string, string>, g: seq<Group>) {
    forall i, j | 0 <= i < |g| && 0 <= j < |g[i].keys| :: g[i].keys[j] in m
  }

  function AllLines(m: map<string, string>, g: seq<Group>): seq<string>
    requires KeysIn(m, g)
  {
    if g == [] then [HEADER] else AllLines(m, g[..|g| - 1]) + GroupLines(m, g[|g| - 1])
  }

  /** `text` is the rendering of `m`: its lines, group by group. */
  ghost predicate RenderOf(m: map<string, string>, text: string) {
    exists g :: Grouped(m, g) && KeysIn(m, g) && text == Lines(AllLines(m, g))
  }

  // ---- a map has one rendering ----

  lemma LastOfIncreasing(a: seq<string>, b: seq<string>)
    requires Increasing(a) && Increasing(b) && forall x :: x in a <==> x in b
    ensures a == [] <==> b == []
    ensures a != [] ==> a[|a| - 1] == b[|b| - 1]
  {
    assert |a| > 0 ==> a[0] in a;
    assert |b| > 0 ==> b[0] in b;
    if a != [] {
      var m, n := |a| - 1, |b| - 1;
      assert a[m] in b && b[n] in a;
      var i :| 0 <= i < |b| && b[i] == a[m];
      var j :| 0 <= j < |a| && a[j] == b[n];
      assert (i == n || Less(a[m], b[n])) && (j == m || Less(b[n], a[m]));
      LessTotal(a[m], b[n]);
    }
  }

  lemma {:induction false} IncreasingUnique(a: seq<string>, b: seq<string>)
    requires Increasing(a) && Increasing(b) && forall x :: x in a <==> x in b
    ensures a == b
  {
    LastOfIncreasing(a, b);
    if a != [] {
      var m, n := |a| - 1, |b| - 1;
      FrontOfIncreasing(a);
      FrontOfIncreasing(b);
      forall x
        ensures x in a[..m] <==> x in b[..n]
      {
        assert x in a <==> x in b;
      }
      IncreasingUnique(a[..m], b[..n]);
      assert a == a[..m] + [a[m]] && b == b[..n] + [b[n]];
    }
  }

  lemma FrontOfIncreasing(a: seq<string>)
    requires Increasing(a) && a != []
    ensures Increasing(a[..|a| - 1])
    ensures forall x :: x in a[..|a| - 1] <==> x in a && x != a[|a| - 1]
  {
    var n := |a| - 1;
    forall i | 0 <= i < n
      ensures a[i] != a[n]
    {
      LessTotal(a[i], a[n]);
    }
    assert a == a[..n] + [a[n]];
  }

  lemma SectionsAre(m: map<string, string>, g: seq<Group>, s: string)
    requires Grouped(m, g)
    ensures s in Sections(g) <==> exists k :: k in m && Section(k) == s
  {
    hide Section, Less;
    if s in Sections(g) {
      var i :| 0 <= i < |g| && Sections(g)[i] == s;
      assert g[i].keys[0] in m && Section(g[i].keys[0]) == s;
    }
    if k :| k in m && Section(k) == s {
      var i :| 0 <= i < |g| && k in g[i].keys;
      assert Sections(g)[i] == s;
    }
  }

  lemma GroupKeysAre(m: map<string, string>, g: seq<Group>, i: nat, k: string)
    requires Grouped(m, g) && i < |g|
    ensures k in g[i].keys <==> k in m && Section(k) == g[i].section
  {
    hide Section, Less;
    if k in m && Section(k) == g[i].section {
      var i' :| 0 <= i' < |g| && k in g[i'].keys;
      assert Sections(g)[i] == Sections(g)[i'];
      LessTotal(Sections(g)[i], Sections(g)[i']);
    }
  }

  /** The rendering is a function of the map. */
  lemma RenderingUnique(m: map<string, string>, a: string, b: string)
    requires RenderOf(m, a) && RenderOf(m, b)
    ensures a == b
  {
    var g :| Grouped(m, g) && KeysIn(m, g) && a == Lines(AllLines(m, g));
    var g' :| Grouped(m, g') && KeysIn(m, g') && b == Lines(AllLines(m, g'));
    GroupsUnique(m, g, g');
  }

  lemma GroupsUnique(m: map<string, string>, g: seq<Group>, g': seq<Group>)
    requires Grouped(m, g) && Grouped(m, g')
    ensures g == g'
  {
    hide Section, Less;
    forall s
      ensures s in Sections(g) <==> s in Sections(g')
    {
      SectionsAre(m, g, s);
      SectionsAre(m, g', s);
    }
    IncreasingUnique(Sections(g), Sections(g'));
    forall i | 0 <= i < |g|
      ensures g[i] == g'[i]
    {
      assert Sections(g)[i] == Sections(g')[i];
      forall k
        ensures k in g[i].keys <==> k in g'[i].keys
      {
        GroupKeysAre(m, g, i, k);
        GroupKeysAre(m, g', i, k);
      }
      IncreasingUnique(g[i].keys, g'[i].keys);
    }
  }

  // ---- the method that renders ----

  function Pairs(m: map<string, string>, ks: seq<string>): (r: seq<(string, string)>)
    requires forall j | 0 <= j < |ks| :: ks[j] in m
    ensures |r| == |ks| && forall j | 0 <= j < |ks| :: r[j] == (Key(ks[j]), m[ks[j]])
  {
    seq(|ks|, j requires 0 <= j < |ks| => (Key(ks[j]), m[ks[j]]))
  }

  /** `ks` are keys of `done`, all in section `s`, in increasing order. */
  ghost predicate Listing(done: set<string>, s: string, ks: seq<string>) {
    && ks != [] && Increasing(ks)
    && forall j | 0 <= j < |ks| :: ks[j] in done && Section(ks[j]) == s
  }

  /** `full` lists, section by section and in increasing order, the keys of `done`. */
  ghost predicate Sorted(m: map<string, string>, done: set<string>, full: map<string, seq<string>>) {
    && (forall s | s in full :: Listing(done, s, full[s]))
    && (forall k | k in done :: k in m && Section(k) in full && k in full[Section(k)])
  }

  function Listed(full: map<string, seq<string>>, s: string): seq<string> {
    if s in full then full[s] else []
  }

  lemma ListingMore(done: set<string>, s: string, ks: seq<string>, k: string)
    ensures Listing(done, s, ks) ==> Listing(done + {k}, s, ks)
    ensures (ks == [] || Listing(done, s, ks)) && Section(k) == s && (forall k' | k' in done :: Less(k', k))
            ==> Listing(done + {k}, s, ks + [k])
  {
    hide Less, Section;
  }

  lemma SortedMore(m: map<string, string>, done: set<string>, full: map<string, seq<string>>, k: string)
    requires Sorted(m, done, full) && k in m && forall k' | k' in done :: Less(k', k)
    ensures Sorted(m, done + {k}, full[Section(k) := Listed(full, Section(k)) + [k]])
  {
    hide Section, Less, Listing;
    var s := Section(k);
    var before, ks := Listed(full, s), Listed(full, s) + [k];
    var full' := full[s := ks];
    ListingMore(done, s, before, k);
    forall s' | s' in full'
      ensures Listing(done + {k}, s', full'[s'])
    {
      if s' != s {
        ListingMore(done, s', full[s'], k);
      }
    }
    forall k' | k' in done + {k}
      ensures k' in m && Section(k') in full' && k' in full'[Section(k')]
    {
      if k' == k {
        assert ks[|ks| - 1] == k;
      } else if Section(k') == s {
        assert k' in before ==> k' in ks;
      }
    }
  }

  /** What the entries gathered so far are: for every section seen, the pairs of its keys. */
  ghost predicate Gathered(m: map<string, string>, full: map<string, seq<string>>, sections: map<string, seq<(string, string)>>) {
    && sections.Keys == full.Keys
    && (forall s, j | s in full && 0 <= j < |full[s]| :: full[s][j] in m)
    && (forall s | s in sections :: sections[s] == Pairs(m, full[s]))
  }

  lemma GatheredMore(m: map<string, string>, full: map<string, seq<string>>, sections: map<string, seq<(string, string)>>, k: string)
    requires Gathered(m, full, sections) && k in m
    ensures var s := Section(k);
            Gathered(m, full[s := Listed(full, s) + [k]],
                     sections[s := (if s in sections then sections[s] else []) + [(Key(k), m[k])]])
  {
    hide Section, Key;
    var s := Section(k);
    assert Pairs(m, Listed(full, s) + [k]) == Pairs(m, Listed(full, s)) + [(Key(k), m[k])];
  }

  /** `sections` are the entries of `m` by section, in the order of their keys. */
  ghost predicate Collected(m: map<string, string>, sections: map<string, seq<(string, string)>>) {
    exists full :: Sorted(m, m.Keys, full) && Gathered(m, full, sections)
  }

  /** Collects the entries of every section, walking the map in order. */
  method BySection(m: map<string, string>) returns (sections: map<string, seq<(string, string)>>)
    ensures Collected(m, sections)
  {
    hide Sorted, Gathered, Section, Key, Less;
    NothingGathered(m);
    sections := map[];
    var rest := m.Keys;
    ghost var full: map<string, seq<string>>, done: set<string> := map[], {};
    while rest != {}
      invariant done !! rest && done + rest == m.Keys
      invariant Sorted(m, done, full) && Gathered(m, full, sections)
      invariant forall k, k' | k in done && k' in rest :: Less(k, k')
      decreases |rest|
    {
      var k := Least(rest);
      SortedMore(m, done, full, k);
      GatheredMore(m, full, sections, k);
      var s := Section(k);
      sections := sections[s := (if s in sections then sections[s] else []) + [(Key(k), m[k])]];
      full := full[s := Listed(full, s) + [k]];
      done, rest := done + {k}, rest - {k};
    }
  }

  method RenderGroup(m: map<string, string>, ghost g: Group, section: string, entries: seq<(string, string)>, out: string,
                     ghost before: seq<string>) returns (out': string)
    requires forall j | 0 <= j < |g.keys| :: g.keys[j] in m
    requires g.section == section && entries == Pairs(m, g.keys) && out == Lines(before)
    ensures out' == Lines(before + GroupLines(m, g))
  {
    hide Lines, EntryLine, Key;
    out' := out;
    ghost var head: seq<string> := if section == "" then [] else ["", "[" + section + "]"];
    if section != "" {
      out' := out' + ("\n[" + section + "]\n");
    }
    HeadLines(before, section);
    ghost var lines := before + head;
    assert g.keys[..0] == [] && EntryLines(m, []) == [];
    assert lines + [] == lines;
    for j := 0 to |entries|
      invariant out' == Lines(lines + EntryLines(m, g.keys[..j]))
    {
      EntryLinesSnoc(m, g.keys, j);
      LinesSnoc(lines + EntryLines(m, g.keys[..j]), EntryLine(entries[j].0, entries[j].1));
      assert lines + EntryLines(m, g.keys[..j + 1]) == lines + EntryLines(m, g.keys[..j]) + [EntryLine(entries[j].0, entries[j].1)];
      var line := EntryLine(entries[j].0, entries[j].1);
      out' := out' + (line + "\n");
    }
    assert g.keys[..|entries|] == g.keys;
    assert lines + EntryLines(m, g.keys) == before + GroupLines(m, g);
  }

  lemma HeadLines(before: seq<string>, section: string)
    ensures Lines([HEADER]) == HEADER + "\n"
    ensures section == "" ==> before + [] == before
    ensures Lines(before + ["", "[" + section + "]"]) == Lines(before) + ("\n[" + section + "]\n")
  {
    LinesSnoc([], HEADER);
    assert [] + [HEADER] == [HEADER];
    var title := "[" + section + "]";
    LinesSnoc(before, "");
    LinesSnoc(before + [""], title);
    assert before + ["", title] == before + [""] + [title];
    assert "" + "\n" + (title + "\n") == "\n[" + section + "]\n";
  }

  lemma EntryLinesSnoc(m: map<string, string>, ks: seq<string>, j: nat)
    requires j < |ks| && forall i | 0 <= i < |ks| :: ks[i] in m
    ensures EntryLines(m, ks[..j + 1]) == EntryLines(m, ks[..j]) + [EntryLine(Key(ks[j]), m[ks[j]])]
  {
    assert ks[..j + 1][..j] == ks[..j];
  }

  lemma NothingGathered(m: map<string, string>)
    ensures Sorted(m, {}, map[]) && Gathered(m, map[], map[])
  {
  }

  method Render(m: map<string, string>) returns (out: string)
    ensures RenderOf(m, out)
  {
    hide Lines, GroupLines, GroupsOf, AllLines, Less, Gathered, Sorted, Grouped;
    var sections := BySection(m);
    ghost var full :| Sorted(m, m.Keys, full) && Gathered(m, full, sections);
    ghost var g: seq<Group> := [];
    NoGroups(m, full, sections);
    HeadLines([], "");
    out := HEADER + "\n";
    var rest := sections.Keys;
    while rest != {}
      invariant rest <= sections.Keys == full.Keys
      invariant GroupsOf(m, full, rest, g) && KeysIn(m, g)
      invariant out == Lines(AllLines(m, g))
      decreases |rest|
    {
      var section := Least(rest);
      ghost var group := Group(section, full[section]);
      GroupsMore(m, full, rest, g, section);
      GatheredAt(m, full, sections, section);
      out := RenderGroup(m, group, section, sections[section], out, AllLines(m, g));
      AllLinesSnoc(m, g, group);
      g := g + [group];
      rest := rest - {section};
    }
    GroupsAll(m, full, g);
  }

  lemma NoGroups(m: map<string, string>, full: map<string, seq<string>>, sections: map<string, seq<(string, string)>>)
    requires Sorted(m, m.Keys, full) && Gathered(m, full, sections)
    ensures sections.Keys == full.Keys && GroupsOf(m, full, sections.Keys, [])
    ensures AllLines(m, []) == [HEADER]
  {
  }

  lemma GatheredAt(m: map<string, string>, full: map<string, seq<string>>, sections: map<string, seq<(string, string)>>, s: string)
    requires Gathered(m, full, sections) && s in full
    ensures s in sections && (forall j | 0 <= j < |full[s]| :: full[s][j] in m) && sections[s] == Pairs(m, full[s])
  {
  }

  lemma AllLinesSnoc(m: map<string, string>, g: seq<Group>, group: Group)
    requires KeysIn(m, g) && forall j | 0 <= j < |group.keys| :: group.keys[j] in m
    ensures KeysIn(m, g + [group]) && AllLines(m, g + [group]) == AllLines(m, g) + GroupLines(m, group)
  {
    assert (g + [group])[..|g|] == g;
  }

  /** `g` are the groups of the sections not in `rest`. */
  ghost predicate GroupsOf(m: map<string, string>, full: map<string, seq<string>>, rest: set<string>, g: seq<Group>) {
    && Sorted(m, m.Keys, full)
    && Increasing(Sections(g))
    && (forall i | 0 <= i < |g| :: g[i].section in full && g[i].section !in rest && g[i].keys == full[g[i].section])
    && (forall i, s | 0 <= i < |g| && s in rest :: Less(g[i].section, s))
    && (forall s | s in full && s !in rest :: s in Sections(g))
    && KeysIn(m, g)
  }

  lemma GroupsMore(m: map<string, string>, full: map<string, seq<string>>, rest: set<string>, g: seq<Group>, s: string)
    requires GroupsOf(m, full, rest, g) && rest <= full.Keys && s in rest
    requires forall s' | s' in rest && s' != s :: Less(s, s')
    ensures forall j | 0 <= j < |full[s]| :: full[s][j] in m
    ensures GroupsOf(m, full, rest - {s}, g + [Group(s, full[s])]) && KeysIn(m, g + [Group(s, full[s])])
  {
    var g' := g + [Group(s, full[s])];
    assert Sections(g') == Sections(g) + [s];
  }

  lemma GroupsAll(m: map<string, string>, full: map<string, seq<string>>, g: seq<Group>)
    requires GroupsOf(m, full, {}, g)
    ensures Grouped(m, g)
  {
    forall k | k in m
      ensures exists i :: 0 <= i < |g| && k in g[i].keys
    {
      var i :| 0 <= i < |g| && Sections(g)[i] == Section(k);
      assert k in g[i].keys;
    }
  }
}
