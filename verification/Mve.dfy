/** Where the fixture generator places externs and jump tables. */
module Mve {
  /** The first callee stub, and the first data address, of an image at `base`. */
  function StubBase(base: nat): nat { base + 0x1000 }

  function DataBase(base: nat): nat { base + 0x2000 }

  ghost function DataHeld(seen: map<string, nat>, base: nat): set<string> {
    set k | k in seen && seen[k] >= DataBase(base)
  }

  ghost function CodeHeld(seen: map<string, nat>, base: nat): set<string> {
    set k | k in seen && seen[k] < DataBase(base)
  }

  /** The addresses assigned after a request: a symbol not seen before gets the next address of its kind, by
      the number of addresses already on that side of the data base. */
  ghost function Resolved(seen: map<string, nat>, base: nat, isData: string -> bool, sym: string): map<string, nat> {
    if sym in seen then seen
    else seen[sym := if isData(sym) then DataBase(base) + 0x100 * |DataHeld(seen, base)|
                     else StubBase(base) + 0x10 * |CodeHeld(seen, base)|]
  }

  ghost function AllResolved(base: nat, isData: string -> bool, syms: seq<string>): map<string, nat> {
    if syms == [] then map[] else Resolved(AllResolved(base, isData, syms[..|syms| - 1]), base, isData, syms[|syms| - 1])
  }

  class Resolver {
    const base: nat
    const isData: string -> bool
    var seen: map<string, nat>

    constructor (base: nat, isData: string -> bool)
      ensures this.base == base && this.isData == isData && seen == map[]
    {
      this.base, this.isData, seen := base, isData, map[];
    }

    method Resolve(sym: string) returns (addr: nat)
      modifies this
      ensures seen == Resolved(old(seen), base, isData, sym)
      ensures sym in seen && addr == seen[sym]
    {
      var data := set k | k in seen && seen[k] >= DataBase(base);
      var code := set k | k in seen && seen[k] < DataBase(base);
      var next := if isData(sym) then DataBase(base) + 0x100 * |data| else StubBase(base) + 0x10 * |code|;
      if sym !in seen {
        seen := seen[sym := next];
      }
      addr := seen[sym];
    }
  }

  /** The first addresses, in numbers: callees from 0x1000 behind the base on, 0x10 apart, data from 0x2000 on, 0x100
      apart. */
  lemma FirstAddresses(base: nat, isData: string -> bool, a: string, b: string)
    requires a != b && isData(a) == isData(b)
    ensures var seen := AllResolved(base, isData, [a, b]);
            && a in seen && b in seen
            && seen[a] == (if isData(a) then base + 0x2000 else base + 0x1000)
            && seen[b] == (if isData(b) then base + 0x2100 else base + 0x1010)
  {
    assert [a, b][..1] == [a] && [a][..0] == [];
    var one := AllResolved(base, isData, [a]);
    assert AllResolved(base, isData, []) == map[];
    assert DataHeld(map[], base) == {} == CodeHeld(map[], base);
    assert one == map[][a := if isData(a) then base + 0x2000 else base + 0x1000];
    HeldSizes(map[], base, a, one[a]);
  }

  // ---- what every run of requests keeps ----

  ghost function CodeSyms(seen: map<string, nat>, isData: string -> bool): set<string> {
    set k | k in seen && !isData(k)
  }

  /** One of the first `n` callee stubs, 0x10 apart. */
  predicate CodeSlot(addr: nat, base: nat, n: nat) {
    && StubBase(base) <= addr < StubBase(base) + 0x10 * n && (addr - StubBase(base)) % 0x10 == 0
    && addr < DataBase(base)
  }

  /** One of the first `n` data addresses, 0x100 apart. */
  predicate DataSlot(addr: nat, base: nat, n: nat) {
    DataBase(base) <= addr < DataBase(base) + 0x100 * n && (addr - DataBase(base)) % 0x100 == 0
  }

  ghost predicate Slots(seen: map<string, nat>, base: nat, isData: string -> bool, code: nat, data: nat) {
    forall k | k in seen :: if isData(k) then DataSlot(seen[k], base, data) else CodeSlot(seen[k], base, code)
  }

  ghost predicate Distinct(seen: map<string, nat>) {
    forall k, k' | k in seen && k' in seen && seen[k] == seen[k'] :: k == k'
  }

  /** The layout the fixtures promise: callees in [stub, data), data from the data base on, every symbol at an
      address of its own, among as many slots of its kind as there are symbols of it. */
  ghost predicate Laid(seen: map<string, nat>, base: nat, isData: string -> bool) {
    Slots(seen, base, isData, |CodeHeld(seen, base)|, |DataHeld(seen, base)|) && Distinct(seen)
  }

  lemma LaidHeld(seen: map<string, nat>, base: nat, isData: string -> bool)
    requires Laid(seen, base, isData)
    ensures CodeHeld(seen, base) == CodeSyms(seen, isData)
    ensures DataHeld(seen, base) == seen.Keys - CodeSyms(seen, isData)
  {
  }

  lemma SlotsMore(seen: map<string, nat>, base: nat, isData: string -> bool, code: nat, data: nat, sym: string)
    requires Slots(seen, base, isData, code, data) && Distinct(seen) && sym !in seen
    requires isData(sym) || code < 0x100
    ensures isData(sym) ==> var seen' := seen[sym := DataBase(base) + 0x100 * data];
                            Slots(seen', base, isData, code, data + 1) && Distinct(seen')
    ensures !isData(sym) ==> var seen' := seen[sym := StubBase(base) + 0x10 * code];
                             Slots(seen', base, isData, code + 1, data) && Distinct(seen')
  {
  }

  lemma HeldMore(seen: map<string, nat>, base: nat, sym: string, addr: nat)
    requires sym !in seen
    ensures addr >= DataBase(base) ==> DataHeld(seen[sym := addr], base) == DataHeld(seen, base) + {sym}
                                       && CodeHeld(seen[sym := addr], base) == CodeHeld(seen, base)
    ensures addr < DataBase(base) ==> CodeHeld(seen[sym := addr], base) == CodeHeld(seen, base) + {sym}
                                      && DataHeld(seen[sym := addr], base) == DataHeld(seen, base)
  {
  }

  lemma HeldSizes(seen: map<string, nat>, base: nat, sym: string, addr: nat)
    requires sym !in seen
    ensures |DataHeld(seen[sym := addr], base)| == |DataHeld(seen, base)| + (if addr >= DataBase(base) then 1 else 0)
    ensures |CodeHeld(seen[sym := addr], base)| == |CodeHeld(seen, base)| + (if addr >= DataBase(base) then 0 else 1)
  {
    HeldMore(seen, base, sym, addr);
    assert sym !in DataHeld(seen, base) && sym !in CodeHeld(seen, base);
  }

  lemma PlaceKeeps(seen: map<string, nat>, base: nat, isData: string -> bool, sym: string, addr: nat)
    requires Laid(seen, base, isData) && sym !in seen
    requires addr == if isData(sym) then DataBase(base) + 0x100 * |DataHeld(seen, base)|
                     else StubBase(base) + 0x10 * |CodeHeld(seen, base)|
    requires isData(sym) || |CodeHeld(seen, base)| < 0x100
    ensures Laid(seen[sym := addr], base, isData)
  {
    hide DataHeld, CodeHeld, Slots, Distinct;
    var code, data := |CodeHeld(seen, base)|, |DataHeld(seen, base)|;
    SlotsMore(seen, base, isData, code, data, sym);
    HeldSizes(seen, base, sym, addr);
  }

  /** The layout is kept as long as a new callee finds room: there were fewer than 256. */
  lemma ResolveKeeps(seen: map<string, nat>, base: nat, isData: string -> bool, sym: string)
    requires Laid(seen, base, isData)
    requires sym in seen || isData(sym) || |CodeSyms(seen, isData)| < 0x100
    ensures Laid(Resolved(seen, base, isData, sym), base, isData)
  {
    if sym !in seen {
      LaidHeld(seen, base, isData);
      hide DataHeld, CodeHeld, Laid;
      PlaceKeeps(seen, base, isData, sym, Resolved(seen, base, isData, sym)[sym]);
    }
  }

  lemma CodeSymsMore(seen: map<string, nat>, base: nat, isData: string -> bool, sym: string)
    ensures CodeSyms(seen, isData) <= CodeSyms(Resolved(seen, base, isData, sym), isData)
    ensures |CodeSyms(seen, isData)| <= |CodeSyms(Resolved(seen, base, isData, sym), isData)|
    ensures isData(sym) || sym in seen ==> CodeSyms(Resolved(seen, base, isData, sym), isData) == CodeSyms(seen, isData)
    ensures !isData(sym) && sym !in seen ==>
            CodeSyms(Resolved(seen, base, isData, sym), isData) == CodeSyms(seen, isData) + {sym}
            && |CodeSyms(Resolved(seen, base, isData, sym), isData)| == |CodeSyms(seen, isData)| + 1
  {
    var s, s' := CodeSyms(seen, isData), CodeSyms(Resolved(seen, base, isData, sym), isData);
    if !isData(sym) && sym !in seen {
      assert s' == s + {sym};
    } else {
      assert s' == s;
    }
  }

  ghost function Named(syms: seq<string>): set<string> {
    set k | k in syms
  }

  /** Requests are answered for all they name and nothing else. */
  lemma {:induction false} RunNames(base: nat, isData: string -> bool, syms: seq<string>)
    ensures AllResolved(base, isData, syms).Keys == Named(syms)
  {
    if syms != [] {
      RunNames(base, isData, syms[..|syms| - 1]);
      assert syms == syms[..|syms| - 1] + [syms[|syms| - 1]];
    }
  }

  /** An address once given never changes. */
  lemma {:induction false} RunIsStable(base: nat, isData: string -> bool, syms: seq<string>, n: nat, k: string)
    requires n <= |syms| && k in AllResolved(base, isData, syms[..n])
    ensures k in AllResolved(base, isData, syms)
    ensures AllResolved(base, isData, syms)[k] == AllResolved(base, isData, syms[..n])[k]
    decreases |syms|
  {
    hide DataHeld, CodeHeld;
    if n == |syms| {
      assert syms[..n] == syms;
    } else {
      assert syms[..|syms| - 1][..n] == syms[..n];
      RunIsStable(base, isData, syms[..|syms| - 1], n, k);
    }
  }

  lemma {:induction false} RunIsLaid(base: nat, isData: string -> bool, syms: seq<string>)
    requires |CodeSyms(AllResolved(base, isData, syms), isData)| <= 0x100
    ensures Laid(AllResolved(base, isData, syms), base, isData)
  {
    hide DataHeld, CodeHeld, CodeSyms, Laid, Resolved;
    if syms == [] {
      NothingLaid(base, isData);
    } else {
      var before, sym := AllResolved(base, isData, syms[..|syms| - 1]), syms[|syms| - 1];
      CodeSymsMore(before, base, isData, sym);
      RunIsLaid(base, isData, syms[..|syms| - 1]);
      ResolveKeeps(before, base, isData, sym);
    }
  }

  lemma NothingLaid(base: nat, isData: string -> bool)
    ensures Laid(map[], base, isData) && CodeSyms(map[], isData) == {}
  {
  }

  /** The 257th callee is placed at the data base. */
  lemma {:induction false} TooManyCallees(base: nat, isData: string -> bool, syms: seq<string>) returns (k: string)
    requires |CodeSyms(AllResolved(base, isData, syms), isData)| > 0x100
    ensures k in AllResolved(base, isData, syms) && !isData(k) && AllResolved(base, isData, syms)[k] == DataBase(base)
  {
    hide DataHeld, CodeHeld, CodeSyms, Laid;
    NothingLaid(base, isData);
    var front, sym := syms[..|syms| - 1], syms[|syms| - 1];
    var before := AllResolved(base, isData, front);
    CodeSymsMore(before, base, isData, sym);
    if |CodeSyms(before, isData)| > 0x100 {
      k := TooManyCallees(base, isData, front);
      RunIsStable(base, isData, syms, |front|, k);
    } else {
      RunIsLaid(base, isData, front);
      LaidHeld(before, base, isData);
      k := sym;
    }
  }

  ghost function Callees(isData: string -> bool, syms: seq<string>): set<string> {
    set k | k in syms && !isData(k)
  }

  lemma CalleesAre(base: nat, isData: string -> bool, syms: seq<string>)
    ensures CodeSyms(AllResolved(base, isData, syms), isData) == Callees(isData, syms)
  {
    RunNames(base, isData, syms);
    hide AllResolved;
  }

  /** Over every run of requests the layout holds exactly when at most 256 distinct callees are named. */
  lemma LaidIffRoom(base: nat, isData: string -> bool, syms: seq<string>)
    ensures Laid(AllResolved(base, isData, syms), base, isData) <==> |Callees(isData, syms)| <= 0x100
  {
    hide DataHeld, CodeHeld, CodeSyms, AllResolved, Callees;
    CalleesAre(base, isData, syms);
    if |Callees(isData, syms)| <= 0x100 {
      RunIsLaid(base, isData, syms);
    } else {
      var k := TooManyCallees(base, isData, syms);
    }
  }

  // ---- distinct addresses, which outlive the layout by one callee ----

  /** Room for all: at most 256 callees, or one more if no data symbol was requested before the last of them. */
  ghost predicate Roomy(isData: string -> bool, syms: seq<string>) {
    || |Callees(isData, syms)| <= 0x100
    || (|Callees(isData, syms)| == 0x101
        && forall i | 0 <= i < |syms| && isData(syms[i]) :: |Callees(isData, syms[..i])| == 0x101)
  }

  /** What holds after every run, laid out or not: a callee without a stub stands at the data base, and where
      anything is held as data something stands there. */
  ghost predicate Stacked(seen: map<string, nat>, base: nat, isData: string -> bool) {
    && |CodeHeld(seen, base)| <= 0x100
    && (forall k | k in seen :: if isData(k) then seen[k] >= DataBase(base) else seen[k] <= DataBase(base))
    && (DataHeld(seen, base) != {} ==> exists k :: k in seen && seen[k] == DataBase(base))
  }

  lemma StackPlaced(seen: map<string, nat>, base: nat, isData: string -> bool, sym: string, addr: nat)
    requires Stacked(seen, base, isData) && sym !in seen
    requires if isData(sym) then addr >= DataBase(base) else addr <= DataBase(base)
    requires addr < DataBase(base) ==> |CodeHeld(seen, base)| < 0x100
    requires addr > DataBase(base) ==> DataHeld(seen, base) != {}
    ensures Stacked(seen[sym := addr], base, isData)
  {
    hide DataHeld, CodeHeld;
    HeldSizes(seen, base, sym, addr);
    HeldMore(seen, base, sym, addr);
    var seen' := seen[sym := addr];
    if k :| k in seen && seen[k] == DataBase(base) {
      assert k in seen' && seen'[k] == DataBase(base);
    } else {
      assert addr == DataBase(base) ==> seen'[sym] == DataBase(base);
    }
  }

  lemma StackMore(seen: map<string, nat>, base: nat, isData: string -> bool, sym: string)
    requires Stacked(seen, base, isData)
    ensures Stacked(Resolved(seen, base, isData, sym), base, isData)
  {
    if sym !in seen {
      hide DataHeld, CodeHeld;
      StackPlaced(seen, base, isData, sym, Resolved(seen, base, isData, sym)[sym]);
      hide Stacked;
    }
  }

  lemma {:induction false} RunIsStacked(base: nat, isData: string -> bool, syms: seq<string>)
    ensures Stacked(AllResolved(base, isData, syms), base, isData)
  {
    if syms == [] {
      assert CodeHeld(map[], base) == {};
    } else {
      hide Stacked, Resolved;
      RunIsStacked(base, isData, syms[..|syms| - 1]);
      StackMore(AllResolved(base, isData, syms[..|syms| - 1]), base, isData, syms[|syms| - 1]);
    }
  }

  /** The one symbol `m` counted as data too. */
  function AsData(isData: string -> bool, m: string): string -> bool {
    k => isData(k) || k == m
  }

  lemma {:induction false} SameKinds(base: nat, isData: string -> bool, isData': string -> bool, syms: seq<string>)
    requires forall k | k in syms :: isData(k) == isData'(k)
    ensures AllResolved(base, isData, syms) == AllResolved(base, isData', syms)
  {
    if syms != [] {
      SameKinds(base, isData, isData', syms[..|syms| - 1]);
    }
  }

  lemma CalleesSnoc(isData: string -> bool, syms: seq<string>, sym: string)
    ensures Callees(isData, syms + [sym]) == Callees(isData, syms) + (if isData(sym) then {} else {sym})
  {
  }

  lemma CalleesBefore(isData: string -> bool, syms: seq<string>, n: nat)
    requires n <= |syms|
    ensures Callees(isData, syms[..n]) <= Callees(isData, syms)
    ensures |Callees(isData, syms[..n])| <= |Callees(isData, syms)|
  {
    Subset(Callees(isData, syms[..n]), Callees(isData, syms));
  }

  lemma RoomyBefore(isData: string -> bool, front: seq<string>, sym: string)
    requires |Callees(isData, front + [sym])| == 0x101 && Roomy(isData, front + [sym])
    ensures |Callees(isData, front)| == 0x101 ==> Roomy(isData, front) && (isData(sym) || sym in front)
    ensures |Callees(isData, front)| != 0x101 ==>
            |Callees(isData, front)| == 0x100 && !isData(sym) && sym !in front && forall k | k in front :: !isData(k)
  {
    CalleesSnoc(isData, front, sym);
    assert sym in front && !isData(sym) ==> sym in Callees(isData, front);
    hide Callees;
    forall i | 0 <= i < |front|
      ensures |Callees(isData, front[..i])| <= |Callees(isData, front)|
      ensures isData(front[i]) ==> |Callees(isData, front[..i])| == 0x101
    {
      assert (front + [sym])[..i] == front[..i] && (front + [sym])[i] == front[i];
      CalleesBefore(isData, front, i);
    }
  }

  lemma SameAnswer(base: nat, isData: string -> bool, m: string, front: seq<string>, sym: string)
    requires AllResolved(base, isData, front) == AllResolved(base, AsData(isData, m), front)
    requires isData(sym) || sym in front
    ensures AllResolved(base, isData, front + [sym]) == AllResolved(base, AsData(isData, m), front + [sym])
  {
    RunNames(base, isData, front);
    assert (front + [sym])[..|front|] == front;
  }

  /** A 257th callee that comes before all data goes where the first data symbol would. */
  lemma {:induction false} LastCalleeAsData(base: nat, isData: string -> bool, syms: seq<string>) returns (m: string)
    requires |Callees(isData, syms)| == 0x101 && Roomy(isData, syms)
    ensures m in syms && !isData(m)
    ensures AllResolved(base, isData, syms) == AllResolved(base, AsData(isData, m), syms)
  {
    assert |Callees(isData, [])| == 0 by {
      assert Callees(isData, []) == {};
    }
    hide Callees, Roomy, AllResolved;
    var front, sym := syms[..|syms| - 1], syms[|syms| - 1];
    assert syms == front + [sym];
    RoomyBefore(isData, front, sym);
    if |Callees(isData, front)| == 0x101 {
      m := LastCalleeAsData(base, isData, front);
      SameAnswer(base, isData, m, front, sym);
    } else {
      m := sym;
      LastCalleeComes(base, isData, front, m);
    }
  }

  lemma OnlyCallees(base: nat, isData: string -> bool, syms: seq<string>)
    requires |Callees(isData, syms)| == 0x100 && forall k | k in syms :: !isData(k)
    ensures var seen := AllResolved(base, isData, syms);
            |CodeHeld(seen, base)| == 0x100 && |DataHeld(seen, base)| == 0
  {
    CalleesAre(base, isData, syms);
    RunIsLaid(base, isData, syms);
    RunNames(base, isData, syms);
    hide AllResolved, Callees;
    var seen := AllResolved(base, isData, syms);
    LaidHeld(seen, base, isData);
    hide Laid, CodeHeld, DataHeld;
    assert seen.Keys == CodeSyms(seen, isData);
  }

  lemma LastCalleeComes(base: nat, isData: string -> bool, front: seq<string>, m: string)
    requires |Callees(isData, front)| == 0x100 && m !in front && !isData(m) && forall k | k in front :: !isData(k)
    ensures AllResolved(base, isData, front + [m]) == AllResolved(base, AsData(isData, m), front + [m])
  {
    SameKinds(base, isData, AsData(isData, m), front);
    OnlyCallees(base, isData, front);
    hide CodeHeld, DataHeld, Callees;
    assert (front + [m])[..|front|] == front;
  }

  lemma CalleesWithout(isData: string -> bool, syms: seq<string>, m: string)
    requires m in syms && !isData(m)
    ensures |Callees(AsData(isData, m), syms)| == |Callees(isData, syms)| - 1
  {
    assert m in Callees(isData, syms);
    assert Callees(AsData(isData, m), syms) == Callees(isData, syms) - {m};
  }

  lemma RoomyIsDistinct(base: nat, isData: string -> bool, syms: seq<string>)
    requires Roomy(isData, syms)
    ensures Distinct(AllResolved(base, isData, syms))
  {
    hide Callees, CodeSyms, AllResolved;
    CalleesAre(base, isData, syms);
    if |Callees(isData, syms)| <= 0x100 {
      RunIsLaid(base, isData, syms);
    } else {
      var m := LastCalleeAsData(base, isData, syms);
      CalleesAre(base, AsData(isData, m), syms);
      CalleesWithout(isData, syms, m);
      RunIsLaid(base, AsData(isData, m), syms);
    }
  }

  /** Of a run with distinct addresses, at most one callee stands at the data base. */
  lemma DistinctHolds(seen: map<string, nat>, base: nat, isData: string -> bool)
    requires Stacked(seen, base, isData) && Distinct(seen)
    ensures |CodeSyms(seen, isData)| <= 0x101
    ensures |CodeSyms(seen, isData)| > 0x100 ==> exists k :: k in CodeSyms(seen, isData) && seen[k] == DataBase(base)
  {
    var s, held := CodeSyms(seen, isData), CodeHeld(seen, base);
    if k :| k in s && seen[k] == DataBase(base) {
      assert s <= held + {k};
      Subset(s, held + {k});
    } else {
      assert s <= held;
      Subset(s, held);
    }
  }

  lemma Subset(a: set<string>, b: set<string>)
    requires a <= b
    ensures |a| <= |b|
  {
    assert b == a + (b - a);
  }

  /** As long as the layout holds, where there is data the first of it stands at the data base. */
  lemma DataComesFirst(base: nat, isData: string -> bool, syms: seq<string>, k: string) returns (d: string)
    requires |Callees(isData, syms)| <= 0x100 && k in syms && isData(k)
    ensures d in AllResolved(base, isData, syms) && isData(d) && AllResolved(base, isData, syms)[d] == DataBase(base)
  {
    RunNames(base, isData, syms);
    RunIsStacked(base, isData, syms);
    CalleesAre(base, isData, syms);
    RunIsLaid(base, isData, syms);
    hide AllResolved, Callees, CodeSyms, Distinct, CodeHeld;
    var seen := AllResolved(base, isData, syms);
    assert k in DataHeld(seen, base);
    d :| d in seen && seen[d] == DataBase(base);
  }

  /** Data requested before the last of 257 callees takes the place that callee needs. */
  lemma EarlyDataCollides(base: nat, isData: string -> bool, syms: seq<string>, i: nat)
    requires i < |syms| && isData(syms[i]) && |Callees(isData, syms[..i])| <= 0x100 < |Callees(isData, syms)|
    ensures !Distinct(AllResolved(base, isData, syms))
  {
    var early := syms[..i + 1];
    assert early == syms[..i] + [syms[i]];
    CalleesSnoc(isData, syms[..i], syms[i]);
    hide AllResolved, Callees, Stacked, CodeHeld;
    var d := DataComesFirst(base, isData, early, syms[i]);
    RunIsStable(base, isData, syms, i + 1, d);
    RunIsStacked(base, isData, syms);
    CalleesAre(base, isData, syms);
    if Distinct(AllResolved(base, isData, syms)) {
      DistinctHolds(AllResolved(base, isData, syms), base, isData);
    }
  }

  /** Every extern has an address of its own exactly when there is room for all. */
  lemma DistinctIffRoomy(base: nat, isData: string -> bool, syms: seq<string>)
    ensures Distinct(AllResolved(base, isData, syms)) <==> Roomy(isData, syms)
  {
    if Roomy(isData, syms) {
      RoomyIsDistinct(base, isData, syms);
    } else if |Callees(isData, syms)| == 0x101 {
      var i: nat :| i < |syms| && isData(syms[i]) && |Callees(isData, syms[..i])| != 0x101;
      CalleesBefore(isData, syms, i);
      EarlyDataCollides(base, isData, syms, i);
    } else {
      hide CodeSyms, Callees, Distinct, Stacked;
      CalleesAre(base, isData, syms);
      RunIsStacked(base, isData, syms);
      if Distinct(AllResolved(base, isData, syms)) {
        DistinctHolds(AllResolved(base, isData, syms), base, isData);
      }
    }
  }

  /** `n` names, one of each length. */
  function Names(n: nat): (syms: seq<string>)
    ensures |syms| == n && forall i | 0 <= i < n :: |syms[i]| == i
  {
    seq(n, i requires 0 <= i < n => seq(i, _ => 'f'))
  }

  lemma {:induction false} NamesDistinct(n: nat)
    ensures |Named(Names(n))| == n
  {
    if n > 0 {
      NamesDistinct(n - 1);
      var front, last := Names(n - 1), Names(n)[n - 1];
      assert Names(n) == front + [last];
      assert last !in front;
      assert Named(front + [last]) == Named(front) + {last};
    }
  }

  /** 257 callees are one too many for the layout, 256 are not; alone they still have addresses of their own. */
  lemma OneCalleeTooMany(base: nat, isData: string -> bool)
    requires forall k :: !isData(k)
    ensures !Laid(AllResolved(base, isData, Names(257)), base, isData)
    ensures Laid(AllResolved(base, isData, Names(256)), base, isData)
    ensures Distinct(AllResolved(base, isData, Names(257))) && !Distinct(AllResolved(base, isData, Names(258)))
  {
    CalleesOf(isData, 256);
    CalleesOf(isData, 257);
    CalleesOf(isData, 258);
    LaidIffRoom(base, isData, Names(256));
    LaidIffRoom(base, isData, Names(257));
    hide Laid, AllResolved, Callees, Distinct, Names;
    DistinctIffRoomy(base, isData, Names(257));
    DistinctIffRoomy(base, isData, Names(258));
  }

  lemma CalleesOf(isData: string -> bool, n: nat)
    requires forall k :: !isData(k)
    ensures |Callees(isData, Names(n))| == n
  {
    NamesDistinct(n);
    hide Names;
    assert Callees(isData, Names(n)) == Named(Names(n));
  }

  // ---- jump tables ----

  ghost function Sum(ns: seq<nat>): nat {
    if ns == [] then 0 else Sum(ns[..|ns| - 1]) + ns[|ns| - 1]
  }

  ghost function TableAt(base: nat, entries: seq<nat>, i: nat): nat
    requires i <= |entries|
  {
    base + 0x800 + 4 * Sum(entries[..i])
  }

  method PlaceTables(base: nat, entries: seq<nat>) returns (addrs: seq<nat>)
    ensures |addrs| == |entries| && forall i | 0 <= i < |addrs| :: addrs[i] == TableAt(base, entries, i)
  {
    addrs := [];
    var next := base + 0x800;
    for i := 0 to |entries|
      invariant |addrs| == i && next == TableAt(base, entries, i)
      invariant forall k | 0 <= k < i :: addrs[k] == TableAt(base, entries, k)
    {
      assert entries[..i + 1][..i] == entries[..i];
      addrs := addrs + [next];
      next := next + 4 * entries[i];
    }
  }

  lemma {:induction false} TablesFollow(base: nat, entries: seq<nat>, i: nat, j: nat)
    requires i < j <= |entries|
    ensures TableAt(base, entries, i) + 4 * entries[i] <= TableAt(base, entries, j)
    ensures j == i + 1 ==> TableAt(base, entries, j) == TableAt(base, entries, i) + 4 * entries[i]
    decreases j
  {
    assert entries[..j][..j - 1] == entries[..j - 1];
    if i < j - 1 {
      TablesFollow(base, entries, i, j - 1);
    }
  }

  lemma FirstTable(base: nat, entries: seq<nat>)
    ensures TableAt(base, entries, 0) == base + 0x800
  {
    assert entries[..0] == [];
  }

  /** Every table lies between `base + 0x800` and the stubs. */
  ghost predicate ClearOfStubs(base: nat, entries: seq<nat>) {
    forall i | 0 <= i < |entries| ::
      base + 0x800 <= TableAt(base, entries, i) && TableAt(base, entries, i) + 4 * entries[i] <= base + 0x1000
  }

  /** Tables lie one behind the other from `base + 0x800`, and clear of the callee stubs exactly when they have
      at most 512 entries together. */
  lemma TablesClearOfStubs(base: nat, entries: seq<nat>)
    ensures ClearOfStubs(base, entries) <==> Sum(entries) <= 0x200
  {
    var n := |entries|;
    assert entries[..n] == entries;
    forall i | 0 <= i < n
      ensures TableAt(base, entries, i) + 4 * entries[i] <= base + 0x800 + 4 * Sum(entries)
    {
      TablesFollow(base, entries, i, n);
    }
    if n > 0 {
      TablesFollow(base, entries, n - 1, n);
    }
  }

  /** 513 entries are one too many, 512 are not. */
  lemma OneEntryTooMany(base: nat)
    ensures !ClearOfStubs(base, [513]) && ClearOfStubs(base, [512])
  {
    assert [513][..0] == [512][..0] == [];
    assert Sum([513]) == 513 && Sum([512]) == 512;
    TablesClearOfStubs(base, [513]);
    TablesClearOfStubs(base, [512]);
  }
}
