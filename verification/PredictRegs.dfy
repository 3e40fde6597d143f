/** The declaration-order register predicate: greedy first fit over a table, by physical overlap. */
module PredictRegs {
  import opened Wrappers
  import Text

  datatype Reg = AL | AH | AX | EAX | BL | BH | BX | EBX | CL | CH | CX | ECX | DL | DH | DX | EDX
               | SI | ESI | DI | EDI | BP | SP

  datatype Lane = Al | Ah | Axh | Bl | Bh | Bxh | Cl | Ch | Cxh | Dl | Dh | Dxh
                | LaneSi | Sih | LaneDi | Dih | LaneBp | LaneSp

  function Lanes(r: Reg): (s: set<Lane>)
    ensures s != {}
  {
    match r
    case AL => {Al} case AH => {Ah} case AX => {Al, Ah} case EAX => {Al, Ah, Axh}
    case BL => {Bl} case BH => {Bh} case BX => {Bl, Bh} case EBX => {Bl, Bh, Bxh}
    case CL => {Cl} case CH => {Ch} case CX => {Cl, Ch} case ECX => {Cl, Ch, Cxh}
    case DL => {Dl} case DH => {Dh} case DX => {Dl, Dh} case EDX => {Dl, Dh, Dxh}
    case SI => {LaneSi} case ESI => {LaneSi, Sih}
    case DI => {LaneDi} case EDI => {LaneDi, Dih}
    case BP => {LaneBp} case SP => {LaneSp}
  }

  /** The registers a width is looked for in, in table order. A width without a table has none. */
  function Candidates(width: nat): seq<Reg> {
    if width == 4 then [EAX, EDX, EBX, ECX, ESI, EDI, BP, SP]
    else if width == 2 then [AX, DX, BX, CX, SI, DI]
    else if width == 1 then [AL, AH, DL, DH, BL, BH, CL, CH]
    else []
  }

  const EXCLUDED: set<Reg> := {BP, SP}

  predicate Free(r: Reg, excluded: set<Reg>, taken: set<Lane>) {
    r !in excluded && Lanes(r) !! taken
  }

  /** The first free register of a list. */
  function FirstFree(regs: seq<Reg>, excluded: set<Reg>, taken: set<Lane>): (r: Option<Reg>)
    ensures r.None? <==> forall i | 0 <= i < |regs| :: !Free(regs[i], excluded, taken)
    ensures r.Some? ==> exists i :: 0 <= i < |regs| && regs[i] == r.value && Free(regs[i], excluded, taken)
                                    && forall j | 0 <= j < i :: !Free(regs[j], excluded, taken)
  {
    if regs == [] then None
    else if Free(regs[0], excluded, taken) then Some(regs[0])
    else
      var r := FirstFree(regs[1..], excluded, taken);
      assert forall i | 0 < i < |regs| :: regs[i] == regs[1..][i - 1];
      assert r.Some? ==> exists i :: 0 <= i < |regs| && regs[i] == r.value && Free(regs[i], excluded, taken)
                                     && forall j | 0 <= j < i :: !Free(regs[j], excluded, taken) by {
        if r.Some? {
          var i :| 0 <= i < |regs[1..]| && regs[1..][i] == r.value && Free(regs[1..][i], excluded, taken)
                   && forall j | 0 <= j < i :: !Free(regs[1..][j], excluded, taken);
          assert regs[i + 1] == r.value;
        }
      }
      r
  }

  /** The registers given to declarations of these widths, in order. */
  function Given(widths: seq<nat>, excluded: set<Reg>): (r: seq<Option<Reg>>)
    ensures |r| == |widths|
  {
    if widths == [] then []
    else
      var before := Given(widths[..|widths| - 1], excluded);
      before + [FirstFree(Candidates(widths[|widths| - 1]), excluded, Taken(before))]
  }

  function LanesOf(r: Option<Reg>): set<Lane> {
    if r.Some? then Lanes(r.value) else {}
  }

  function Taken(regs: seq<Option<Reg>>): set<Lane> {
    if regs == [] then {} else Taken(regs[..|regs| - 1]) + LanesOf(regs[|regs| - 1])
  }

  function WidthsOf(order: seq<string>, widths: map<string, nat>): (r: seq<nat>)
    requires forall i | 0 <= i < |order| :: order[i] in widths
    ensures |r| == |order| && forall i | 0 <= i < |order| :: r[i] == widths[order[i]]
  {
    seq(|order|, i requires 0 <= i < |order| => widths[order[i]])
  }

  /** The assignment as a table: a name declared twice keeps its last register. */
  function Assignment(order: seq<string>, regs: seq<Option<Reg>>): map<string, Option<Reg>>
    requires |order| == |regs|
  {
    if order == [] then map[]
    else Assignment(order[..|order| - 1], regs[..|order| - 1])[order[|order| - 1] := regs[|order| - 1]]
  }

  function Predicted(order: seq<string>, widths: map<string, nat>, excluded: set<Reg>): map<string, Option<Reg>>
    requires forall i | 0 <= i < |order| :: order[i] in widths
  {
    Assignment(order, Given(WidthsOf(order, widths), excluded))
  }

  // ---- the method ----

  /** The walk along a table, up to the first free register. */
  method Search(table: seq<Reg>, excluded: set<Reg>, taken: set<Lane>) returns (r: Option<Reg>)
    ensures r == FirstFree(table, excluded, taken)
  {
    hide Lanes;
    var i := 0;
    while i < |table|
      invariant 0 <= i <= |table|
      invariant FirstFree(table[i..], excluded, taken) == FirstFree(table, excluded, taken)
    {
      assert table[i..][1..] == table[i + 1..];
      if table[i] !in excluded && Lanes(table[i]) !! taken {
        assert Free(table[i], excluded, taken) && table[i..][0] == table[i];
        return Some(table[i]);
      }
      i := i + 1;
    }
    r := None;
  }

  method Predict(order: seq<string>, widths: map<string, nat>, excluded: set<Reg>) returns (out: map<string, Option<Reg>>)
    requires forall i | 0 <= i < |order| :: order[i] in widths
    ensures out == Predicted(order, widths, excluded)
  {
    hide Lanes, FirstFree, Candidates, Given, Taken, Assignment;
    ghost var ws := WidthsOf(order, widths);
    NothingGiven(order, ws, excluded);
    var taken: set<Lane> := {};
    out := map[];
    for n := 0 to |order|
      invariant taken == Taken(Given(ws[..n], excluded))
      invariant out == Assignment(order[..n], Given(ws[..n], excluded))
    {
      GivenStep(ws, excluded, n);
      AssignmentStep(order, Given(ws[..n + 1], excluded), n);
      var r := Search(Candidates(widths[order[n]]), excluded, taken);
      out := out[order[n] := r];
      if r.Some? {
        taken := taken + Lanes(r.value);
      }
    }
    assert order[..|order|] == order && ws[..|order|] == ws;
  }

  lemma NothingGiven(order: seq<string>, ws: seq<nat>, excluded: set<Reg>)
    ensures Given(ws[..0], excluded) == [] && Taken([]) == {} && Assignment(order[..0], []) == map[]
  {
  }

  lemma GivenStep(ws: seq<nat>, excluded: set<Reg>, n: nat)
    requires n < |ws|
    ensures var before := Given(ws[..n], excluded);
            var r := FirstFree(Candidates(ws[n]), excluded, Taken(before));
            && Given(ws[..n + 1], excluded) == before + [r]
            && Taken(Given(ws[..n + 1], excluded)) == Taken(before) + LanesOf(r)
  {
    assert ws[..n + 1][..n] == ws[..n];
    var before := Given(ws[..n], excluded);
    var all := Given(ws[..n + 1], excluded);
    assert all[..|all| - 1] == before;
  }

  lemma AssignmentStep(order: seq<string>, regs: seq<Option<Reg>>, n: nat)
    requires n < |order| && |regs| == n + 1
    ensures Assignment(order[..n + 1], regs) == Assignment(order[..n], regs[..n])[order[n] := regs[n]]
  {
    assert order[..n + 1][..n] == order[..n];
  }

  // ---- what it promises ----

  lemma {:induction false} GivenPrefix(ws: seq<nat>, excluded: set<Reg>, n: nat)
    requires n <= |ws|
    ensures Given(ws[..n], excluded) == Given(ws, excluded)[..n]
  {
    hide FirstFree, Taken, Candidates;
    if n == |ws| {
      assert ws[..n] == ws;
    } else {
      GivenPrefix(ws[..|ws| - 1], excluded, n);
      assert ws[..|ws| - 1][..n] == ws[..n];
    }
  }

  /** Declaring more names never changes the registers of those before. */
  lemma ExtendingKeeps(ws: seq<nat>, more: seq<nat>, excluded: set<Reg>)
    ensures Given(ws + more, excluded)[..|ws|] == Given(ws, excluded)
  {
    assert (ws + more)[..|ws|] == ws;
    GivenPrefix(ws + more, excluded, |ws|);
  }

  lemma {:induction false} TakenIs(regs: seq<Option<Reg>>, lane: Lane)
    ensures lane in Taken(regs) <==> exists j :: 0 <= j < |regs| && lane in LanesOf(regs[j])
  {
    if regs != [] {
      var n := |regs| - 1;
      TakenIs(regs[..n], lane);
      if lane in Taken(regs) {
        if lane in Taken(regs[..n]) {
          var j :| 0 <= j < n && lane in LanesOf(regs[..n][j]);
          assert lane in LanesOf(regs[j]);
        } else {
          assert lane in LanesOf(regs[n]);
        }
      }
      if j :| 0 <= j < |regs| && lane in LanesOf(regs[j]) {
        if j < n {
          assert lane in LanesOf(regs[..n][j]);
        }
      }
    }
  }

  /** A register that overlaps none of those given to the first `n` declarations and is not excluded. */
  ghost predicate Available(regs: seq<Option<Reg>>, n: nat, r: Reg, excluded: set<Reg>)
    requires n <= |regs|
  {
    r !in excluded && forall j | 0 <= j < n :: Lanes(r) !! LanesOf(regs[j])
  }

  lemma AvailableIsFree(regs: seq<Option<Reg>>, n: nat, r: Reg, excluded: set<Reg>)
    requires n <= |regs|
    ensures Available(regs, n, r, excluded) <==> Free(r, excluded, Taken(regs[..n]))
  {
    forall lane | lane in Lanes(r)
      ensures lane in Taken(regs[..n]) <==> exists j :: 0 <= j < n && lane in LanesOf(regs[j])
    {
      TakenIs(regs[..n], lane);
      if j :| 0 <= j < |regs[..n]| && lane in LanesOf(regs[..n][j]) {
        assert lane in LanesOf(regs[j]);
      }
      if j :| 0 <= j < n && lane in LanesOf(regs[j]) {
        assert lane in LanesOf(regs[..n][j]);
      }
    }
    hide Lanes;
    if !(Lanes(r) !! Taken(regs[..n])) {
      var lane :| lane in Lanes(r) && lane in Taken(regs[..n]);
      var j :| 0 <= j < n && lane in LanesOf(regs[j]);
      assert !(Lanes(r) !! LanesOf(regs[j]));
    }
  }

  // ---- the tables, told by what they give ----

  /** The 32-bit register a register is part of. */
  function Whole(r: Reg): Reg {
    match r
    case AL | AH | AX | EAX => EAX
    case BL | BH | BX | EBX => EBX
    case CL | CH | CX | ECX => ECX
    case DL | DH | DX | EDX => EDX
    case SI | ESI => ESI
    case DI | EDI => EDI
    case BP => BP
    case SP => SP
  }

  predicate Halves(r: Reg, r': Reg) {
    (r, r') in {(AL, AH), (AH, AL), (BL, BH), (BH, BL), (CL, CH), (CH, CL), (DL, DH), (DH, DL)}
  }

  lemma LaneOfWhole(r: Reg, r': Reg)
    ensures Whole(r) != Whole(r') ==> Lanes(r) !! Lanes(r')
  {
  }

  lemma OverlapA(r: Reg, r': Reg)
    requires Whole(r) == Whole(r') == EAX
    ensures !(Lanes(r) !! Lanes(r')) <==> !Halves(r, r')
  {
    assert Al in Lanes(r) || Ah in Lanes(r);
  }

  lemma OverlapB(r: Reg, r': Reg)
    requires Whole(r) == Whole(r') == EBX
    ensures !(Lanes(r) !! Lanes(r')) <==> !Halves(r, r')
  {
    assert Bl in Lanes(r) || Bh in Lanes(r);
  }

  lemma OverlapC(r: Reg, r': Reg)
    requires Whole(r) == Whole(r') == ECX
    ensures !(Lanes(r) !! Lanes(r')) <==> !Halves(r, r')
  {
    assert Cl in Lanes(r) || Ch in Lanes(r);
  }

  lemma OverlapD(r: Reg, r': Reg)
    requires Whole(r) == Whole(r') == EDX
    ensures !(Lanes(r) !! Lanes(r')) <==> !Halves(r, r')
  {
    assert Dl in Lanes(r) || Dh in Lanes(r);
  }

  lemma OverlapOther(r: Reg, r': Reg)
    requires Whole(r) == Whole(r') && Whole(r) !in {EAX, EBX, ECX, EDX}
    ensures !(Lanes(r) !! Lanes(r')) && !Halves(r, r')
  {
    assert LaneSi in Lanes(r) || LaneDi in Lanes(r) || LaneBp in Lanes(r) || LaneSp in Lanes(r);
  }

  /** Two registers overlap exactly when they are parts of one, and not its low and high byte. */
  lemma OverlapIff(r: Reg, r': Reg)
    ensures !(Lanes(r) !! Lanes(r')) <==> Whole(r) == Whole(r') && !Halves(r, r')
  {
    hide Lanes, Halves, Whole;
    LaneOfWhole(r, r');
    if Whole(r) == Whole(r') {
      match Whole(r)
      case EAX => OverlapA(r, r');
      case EBX => OverlapB(r, r');
      case ECX => OverlapC(r, r');
      case EDX => OverlapD(r, r');
      case _ => OverlapOther(r, r');
    }
  }

  /** The first `n` registers of a table overlap none of each other, and none is excluded. */
  predicate Apart(table: seq<Reg>, n: nat, excluded: set<Reg>)
    requires n <= |table|
  {
    && (forall i | 0 <= i < n :: table[i] !in excluded)
    && (forall i, j | 0 <= i < j < n :: Lanes(table[i]) !! Lanes(table[j]))
  }

  function Somes(regs: seq<Reg>): (r: seq<Option<Reg>>)
    ensures |r| == |regs| && forall i | 0 <= i < |r| :: r[i] == Some(regs[i])
  {
    seq(|regs|, i requires 0 <= i < |regs| => Some(regs[i]))
  }

  /** Declarations of one width get the registers of its table one after the other. */
  lemma {:induction false} TableInOrder(w: nat, n: nat, excluded: set<Reg>)
    requires n <= |Candidates(w)| && Apart(Candidates(w), n, excluded)
    ensures Given(seq(n, _ => w), excluded) == Somes(Candidates(w)[..n])
  {
    hide Lanes, Candidates, FirstFree, Given, Taken, Free;
    var table, ws := Candidates(w), seq(n, _ => w);
    if n == 0 {
      NothingGiven([], [], excluded);
      assert ws == [][..0];
    } else {
      assert ws[..n - 1] == seq(n - 1, _ => w) && ws[..n] == ws;
      TableInOrder(w, n - 1, excluded);
      GivenStep(ws, excluded, n - 1);
      NextInTable(table, n - 1, excluded);
    }
  }

  lemma NextInTable(table: seq<Reg>, n: nat, excluded: set<Reg>)
    requires n < |table| && Apart(table, n + 1, excluded)
    ensures FirstFree(table, excluded, Taken(Somes(table[..n]))) == Some(table[n])
  {
    hide Lanes, FirstFree, Taken;
    var taken := Taken(Somes(table[..n]));
    forall i | 0 <= i <= n
      ensures Free(table[i], excluded, taken) <==> i == n
    {
      OneOfTaken(table, n, i);
    }
  }

  lemma OneOfTaken(table: seq<Reg>, n: nat, i: nat)
    requires i <= n < |table| && forall j, k | 0 <= j < k <= n :: Lanes(table[j]) !! Lanes(table[k])
    ensures Lanes(table[i]) !! Taken(Somes(table[..n])) <==> i == n
  {
    var regs := Somes(table[..n]);
    forall lane | lane in Lanes(table[i])
      ensures lane in Taken(regs) <==> i < n
    {
      TakenIs(regs, lane);
      if i < n {
        assert lane in LanesOf(regs[i]);
      }
    }
  }

  lemma ApartByWhole(table: seq<Reg>, n: nat, excluded: set<Reg>)
    requires n <= |table| && forall i | 0 <= i < n :: table[i] !in excluded
    requires forall i, j | 0 <= i < j < n :: Whole(table[i]) != Whole(table[j]) || Halves(table[i], table[j])
    ensures Apart(table, n, excluded)
  {
    hide Lanes, Halves, Whole;
    forall i, j | 0 <= i < j < n
      ensures Lanes(table[i]) !! Lanes(table[j])
    {
      OverlapIff(table[i], table[j]);
    }
  }

  /** So the tables are these, frame and stack pointer included where they are not excluded. */
  lemma TablesGive()
    ensures Given(seq(8, _ => 4), {}) == Somes([EAX, EDX, EBX, ECX, ESI, EDI, BP, SP])
    ensures Given(seq(6, _ => 2), {}) == Somes([AX, DX, BX, CX, SI, DI])
    ensures Given(seq(8, _ => 1), {}) == Somes([AL, AH, DL, DH, BL, BH, CL, CH])
    ensures Given(seq(6, _ => 4), EXCLUDED) == Somes([EAX, EDX, EBX, ECX, ESI, EDI])
  {
    hide Given, Lanes, Apart, Somes, Candidates;
    TableIs([EAX, EDX, EBX, ECX, ESI, EDI, BP, SP], [AX, DX, BX, CX, SI, DI], [AL, AH, DL, DH, BL, BH, CL, CH]);
    WideApart();
    ApartByWhole(Candidates(2), 6, {});
    ApartByWhole(Candidates(1), 8, {});
    TableInOrder(4, 8, {});
    TableInOrder(2, 6, {});
    TableInOrder(1, 8, {});
    TableInOrder(4, 6, EXCLUDED);
  }

  lemma TableIs(a: seq<Reg>, b: seq<Reg>, c: seq<Reg>)
    requires a == [EAX, EDX, EBX, ECX, ESI, EDI, BP, SP] && b == [AX, DX, BX, CX, SI, DI]
    requires c == [AL, AH, DL, DH, BL, BH, CL, CH]
    ensures Candidates(4) == a && a[..8] == a && a[..6] == [EAX, EDX, EBX, ECX, ESI, EDI]
    ensures Candidates(2) == b && b[..6] == b && Candidates(1) == c && c[..8] == c
  {
  }

  lemma WideApart()
    ensures |Candidates(4)| == 8 && Apart(Candidates(4), 8, {}) && Apart(Candidates(4), 6, EXCLUDED)
  {
    hide Lanes, Apart;
    ApartByWhole(Candidates(4), 8, {});
    ApartByWhole(Candidates(4), 6, EXCLUDED);
  }

  /** Neither the frame nor the stack pointer is given to a name in any order. */
  lemma FrameIsNeverGiven(ws: seq<nat>, n: nat)
    requires n < |ws|
    ensures Given(ws, EXCLUDED)[n] !in {Some(BP), Some(SP)}
  {
    FirstFit(ws, EXCLUDED, n);
  }

  /** No table is longer: one declaration more gets none, and a width without a table gets none. */
  lemma TablesEnd(w: nat)
    ensures |Candidates(w)| == if w == 4 || w == 1 then 8 else if w == 2 then 6 else 0
    ensures w !in {1, 2, 4} ==> Given([w], {}) == [None]
  {
    assert [w][..0] == [];
  }

  /** Each declaration gets the first register of its width's table that is not excluded and overlaps none given
      before it; it gets none exactly when there is no such register. */
  lemma FirstFit(ws: seq<nat>, excluded: set<Reg>, n: nat)
    requires n < |ws|
    ensures var regs, table := Given(ws, excluded), Candidates(ws[n]);
            && (regs[n].None? <==> forall i | 0 <= i < |table| :: !Available(regs, n, table[i], excluded))
            && (regs[n].Some? ==>
                  exists i :: 0 <= i < |table| && table[i] == regs[n].value && Available(regs, n, table[i], excluded)
                              && forall j | 0 <= j < i :: !Available(regs, n, table[j], excluded))
  {
    var regs, table := Given(ws, excluded), Candidates(ws[n]);
    GivenPrefix(ws, excluded, n);
    GivenPrefix(ws, excluded, n + 1);
    GivenStep(ws, excluded, n);
    assert regs[n] == regs[..n + 1][n] == FirstFree(table, excluded, Taken(regs[..n]));
    forall i | 0 <= i < |table|
      ensures Available(regs, n, table[i], excluded) <==> Free(table[i], excluded, Taken(regs[..n]))
    {
      AvailableIsFree(regs, n, table[i], excluded);
    }
    hide Available, Free, Candidates, Taken, Given;
    if regs[n].Some? {
      var i :| 0 <= i < |table| && table[i] == regs[n].value && Free(table[i], excluded, Taken(regs[..n]))
               && forall j | 0 <= j < i :: !Free(table[j], excluded, Taken(regs[..n]));
      assert Available(regs, n, table[i], excluded);
    }
  }

  /** No excluded register is given, and no two declarations share a lane. */
  lemma NeverOverlap(ws: seq<nat>, excluded: set<Reg>, n: nat)
    requires n < |ws|
    ensures var regs := Given(ws, excluded);
            (regs[n].Some? ==> regs[n].value !in excluded) && forall m | 0 <= m < n :: LanesOf(regs[m]) !! LanesOf(regs[n])
  {
    FirstFit(ws, excluded, n);
    hide Given, Candidates, Lanes;
  }

  lemma {:induction false} AssignmentAt(order: seq<string>, regs: seq<Option<Reg>>, n: nat)
    requires |order| == |regs| && n < |order| && forall j | n < j < |order| :: order[j] != order[n]
    ensures order[n] in Assignment(order, regs) && Assignment(order, regs)[order[n]] == regs[n]
  {
    var last := |order| - 1;
    if n < last {
      AssignmentAt(order[..last], regs[..last], n);
    }
  }

  lemma {:induction false} AssignmentNames(order: seq<string>, regs: seq<Option<Reg>>, x: string)
    requires |order| == |regs|
    ensures x in Assignment(order, regs) <==> x in order
  {
    if order != [] {
      AssignmentNames(order[..|order| - 1], regs[..|order| - 1], x);
      assert order == order[..|order| - 1] + [order[|order| - 1]];
    }
  }

  /** The prediction gives a name the register of its last declaration; for distinct names, the n-th the n-th register. */
  lemma PredictionIs(order: seq<string>, widths: map<string, nat>, excluded: set<Reg>, n: nat)
    requires forall i | 0 <= i < |order| :: order[i] in widths
    requires n < |order| && forall j | n < j < |order| :: order[j] != order[n]
    ensures order[n] in Predicted(order, widths, excluded)
    ensures Predicted(order, widths, excluded)[order[n]] == Given(WidthsOf(order, widths), excluded)[n]
  {
    AssignmentAt(order, Given(WidthsOf(order, widths), excluded), n);
  }

  // ---- all orders ----

  /** The permutations of a pool in the order the host enumerates them: by the place of the first element in the
      pool, then by that of the second, and so on. */
  function Permutations(pool: seq<nat>): (ps: seq<seq<nat>>)
    decreases |pool|, |pool| + 1
  {
    if pool == [] then [[]] else StartingFrom(pool, 0)
  }

  function StartingFrom(pool: seq<nat>, i: nat): seq<seq<nat>>
    requires i <= |pool|
    decreases |pool|, |pool| - i
  {
    if i == |pool| then []
    else Prefixed(pool[i], Permutations(pool[..i] + pool[i + 1..])) + StartingFrom(pool, i + 1)
  }

  function Prefixed(x: nat, ps: seq<seq<nat>>): (r: seq<seq<nat>>)
    ensures |r| == |ps| && forall k | 0 <= k < |ps| :: r[k] == [x] + ps[k]
  {
    seq(|ps|, k requires 0 <= k < |ps| => [x] + ps[k])
  }

  function Range(n: nat): (r: seq<nat>)
    ensures |r| == n && forall i | 0 <= i < n :: r[i] == i
  {
    seq(n, i => i)
  }

  lemma WithoutOne(pool: seq<nat>, i: nat, p: seq<nat>)
    requires i < |pool| && p != [] && p[0] == pool[i]
    ensures multiset(p[1..]) == multiset(pool[..i] + pool[i + 1..]) <==> multiset(p) == multiset(pool)
  {
    var x, a, b := pool[i], multiset(p[1..]), multiset(pool[..i] + pool[i + 1..]);
    assert p == [x] + p[1..];
    assert pool == pool[..i] + [x] + pool[i + 1..];
    assert multiset(p) == multiset{x} + a && multiset(pool) == multiset{x} + b;
    assert a == multiset(p) - multiset{x} && b == multiset(pool) - multiset{x};
  }

  /** They are the permutations, all of them. */
  lemma {:induction false} PermutationsAre(pool: seq<nat>, p: seq<nat>)
    ensures p in Permutations(pool) <==> multiset(p) == multiset(pool)
    decreases |pool|, |pool| + 1
  {
    if pool == [] {
      assert |multiset(p)| == |p|;
    } else {
      StartingFromAre(pool, 0, p);
      if multiset(p) == multiset(pool) {
        assert pool[0] in multiset(p);
        assert p[0] in multiset(pool);
      }
    }
  }

  lemma {:induction false} StartingFromAre(pool: seq<nat>, i: nat, p: seq<nat>)
    requires i <= |pool|
    ensures p in StartingFrom(pool, i) <==> p != [] && p[0] in pool[i..] && multiset(p) == multiset(pool)
    decreases |pool|, |pool| - i
  {
    if i < |pool| {
      var rest := pool[..i] + pool[i + 1..];
      StartingFromAre(pool, i + 1, p);
      assert pool[i..] == [pool[i]] + pool[i + 1..];
      InPrefixed(pool[i], Permutations(rest), p);
      hide Permutations, Prefixed;
      if p != [] {
        PermutationsAre(rest, p[1..]);
        if p[0] == pool[i] {
          WithoutOne(pool, i, p);
        }
      }
    }
  }

  lemma InPrefixed(x: nat, ps: seq<seq<nat>>, p: seq<nat>)
    ensures p in Prefixed(x, ps) <==> p != [] && p[0] == x && p[1..] in ps
  {
    if p != [] && p[0] == x && p[1..] in ps {
      var k :| 0 <= k < |ps| && ps[k] == p[1..];
      assert p == [p[0]] + p[1..];
      assert Prefixed(x, ps)[k] == p;
    }
  }

  ghost predicate Distinct<T(!new)>(s: seq<T>) {
    forall i, j | 0 <= i < j < |s| :: s[i] != s[j]
  }

  lemma DistinctAppend<T(!new)>(a: seq<T>, b: seq<T>)
    requires Distinct(a) && Distinct(b) && forall x :: !(x in a && x in b)
    ensures Distinct(a + b)
  {
    forall i, j | 0 <= i < j < |a + b|
      ensures (a + b)[i] != (a + b)[j]
    {
      if i < |a| <= j {
        assert a[i] in a && b[j - |a|] in b;
      }
    }
  }

  lemma DistinctRest(pool: seq<nat>, i: nat)
    requires Distinct(pool) && i < |pool|
    ensures Distinct(pool[..i] + pool[i + 1..]) && pool[i] !in pool[i + 1..]
  {
  }

  lemma DistinctPrefixed(x: nat, ps: seq<seq<nat>>)
    requires Distinct(ps)
    ensures Distinct(Prefixed(x, ps))
  {
    forall i, j | 0 <= i < j < |ps|
      ensures Prefixed(x, ps)[i] != Prefixed(x, ps)[j]
    {
      assert Prefixed(x, ps)[i][1..] == ps[i] && Prefixed(x, ps)[j][1..] == ps[j];
    }
  }

  /** None is listed twice. */
  lemma {:induction false} PermutationsDistinct(pool: seq<nat>)
    requires Distinct(pool)
    ensures Distinct(Permutations(pool))
    decreases |pool|, |pool| + 1
  {
    if pool != [] {
      StartingFromDistinct(pool, 0);
    }
  }

  lemma {:induction false} StartingFromDistinct(pool: seq<nat>, i: nat)
    requires Distinct(pool) && i <= |pool|
    ensures Distinct(StartingFrom(pool, i))
    decreases |pool|, |pool| - i
  {
    if i < |pool| {
      var rest := pool[..i] + pool[i + 1..];
      var a, b := Prefixed(pool[i], Permutations(rest)), StartingFrom(pool, i + 1);
      DistinctRest(pool, i);
      PermutationsDistinct(rest);
      DistinctPrefixed(pool[i], Permutations(rest));
      StartingFromDistinct(pool, i + 1);
      forall p
        ensures !(p in a && p in b)
      {
        InPrefixed(pool[i], Permutations(rest), p);
        StartingFromAre(pool, i + 1, p);
      }
      DistinctAppend(a, b);
    }
  }

  /** `p` comes first: it has the lower number where the two first differ. */
  ghost predicate Precedes(p: seq<nat>, q: seq<nat>) {
    exists n: nat :: n < |p| && n < |q| && p[..n] == q[..n] && p[n] < q[n]
  }

  ghost predicate Ascending(ps: seq<seq<nat>>) {
    forall i, j | 0 <= i < j < |ps| :: Precedes(ps[i], ps[j])
  }

  ghost predicate Rising(pool: seq<nat>) {
    forall i, j | 0 <= i < j < |pool| :: pool[i] < pool[j]
  }

  lemma PrecedesPrefixed(x: nat, p: seq<nat>, q: seq<nat>)
    requires Precedes(p, q)
    ensures Precedes([x] + p, [x] + q)
  {
    var n: nat :| n < |p| && n < |q| && p[..n] == q[..n] && p[n] < q[n];
    assert ([x] + p)[..n + 1] == [x] + p[..n] && ([x] + q)[..n + 1] == [x] + q[..n];
  }

  lemma AscendingPrefixed(x: nat, ps: seq<seq<nat>>)
    requires Ascending(ps)
    ensures Ascending(Prefixed(x, ps))
  {
    hide Precedes;
    forall i, j | 0 <= i < j < |ps|
      ensures Precedes(Prefixed(x, ps)[i], Prefixed(x, ps)[j])
    {
      PrecedesPrefixed(x, ps[i], ps[j]);
    }
  }

  lemma AscendingAppend(a: seq<seq<nat>>, b: seq<seq<nat>>)
    requires Ascending(a) && Ascending(b) && forall p, q | p in a && q in b :: Precedes(p, q)
    ensures Ascending(a + b)
  {
    hide Precedes;
    forall i, j | 0 <= i < j < |a + b|
      ensures Precedes((a + b)[i], (a + b)[j])
    {
      if i < |a| <= j {
        assert a[i] in a && b[j - |a|] in b;
      }
    }
  }

  /** They are enumerated in lexicographic order, so the number of each is its rank. */
  lemma {:induction false} PermutationsAscend(pool: seq<nat>)
    requires Rising(pool)
    ensures Ascending(Permutations(pool))
    decreases |pool|, |pool| + 1
  {
    if pool != [] {
      StartingFromAscends(pool, 0);
    }
  }

  lemma {:induction false} StartingFromAscends(pool: seq<nat>, i: nat)
    requires Rising(pool) && i <= |pool|
    ensures Ascending(StartingFrom(pool, i))
    decreases |pool|, |pool| - i
  {
    hide Precedes, Ascending, Permutations;
    if i == |pool| {
      assert Ascending([]) by {
        NothingAscends();
      }
    } else {
      var rest := pool[..i] + pool[i + 1..];
      var a, b := Prefixed(pool[i], Permutations(rest)), StartingFrom(pool, i + 1);
      PermutationsAscend(rest);
      AscendingPrefixed(pool[i], Permutations(rest));
      StartingFromAscends(pool, i + 1);
      forall p, q | p in a && q in b
        ensures Precedes(p, q)
      {
        InPrefixed(pool[i], Permutations(rest), p);
        StartingFromAre(pool, i + 1, q);
        FirstDecides(p, q);
      }
      AscendingAppend(a, b);
    }
  }

  lemma NothingAscends()
    ensures Ascending([])
  {
  }

  lemma FirstDecides(p: seq<nat>, q: seq<nat>)
    requires p != [] && q != [] && p[0] < q[0]
    ensures Precedes(p, q)
  {
    assert p[..0] == q[..0];
  }

  // ---- the classes of all orders ----

  function Orders(names: seq<string>): (ps: seq<seq<nat>>)
    ensures forall k, i | 0 <= k < |ps| && 0 <= i < |ps[k]| :: ps[k][i] < |names|
  {
    var ps := Permutations(Range(|names|));
    assert forall k, i | 0 <= k < |ps| && 0 <= i < |ps[k]| :: ps[k][i] < |names| by {
      forall k, i | 0 <= k < |ps| && 0 <= i < |ps[k]|
        ensures ps[k][i] < |names|
      {
        assert ps[k] in ps;
        PermutationsAre(Range(|names|), ps[k]);
        assert ps[k][i] in multiset(Range(|names|));
      }
    }
    ps
  }

  /** The `k`-th order of the names. */
  function Order(names: seq<string>, k: nat): (r: seq<string>)
    requires k < |Orders(names)|
    ensures |r| == |Orders(names)[k]| && forall i | 0 <= i < |r| :: r[i] == names[Orders(names)[k][i]]
  {
    var p := Orders(names)[k];
    seq(|p|, i requires 0 <= i < |p| => names[p[i]])
  }

  /** Every order of the places is one of them, once. */
  lemma OrdersAreAll(names: seq<string>, p: seq<nat>)
    ensures (exists k :: 0 <= k < |Orders(names)| && Orders(names)[k] == p) <==> multiset(p) == multiset(Range(|names|))
    ensures Distinct(Orders(names)) && Ascending(Orders(names))
  {
    PermutationsAscend(Range(|names|));
    PermutationsAre(Range(|names|), p);
    assert p in Orders(names) <==> multiset(p) == multiset(Range(|names|));
    assert Distinct(Range(|names|));
    PermutationsDistinct(Range(|names|));
  }

  type Assigned = map<string, Option<Reg>>

  ghost predicate Wide(names: seq<string>, widths: map<string, nat>) {
    forall i | 0 <= i < |names| :: names[i] in widths
  }

  ghost function ClassOf(names: seq<string>, widths: map<string, nat>, k: nat): Assigned
    requires Wide(names, widths) && k < |Orders(names)|
  {
    Predicted(Order(names, k), widths, EXCLUDED)
  }

  /** What is listed of an order: its number and the names joined by commas. */
  function Listed(names: seq<string>, k: nat): (nat, string)
    requires k < |Orders(names)|
  {
    (k, Text.Join(Order(names, k), ','))
  }

  /** What is listed tells the order, unless a name holds a comma. */
  lemma ListedTells(names: seq<string>, k: nat)
    requires names != [] && k < |Orders(names)| && forall i | 0 <= i < |names| :: ',' !in names[i]
    ensures Listed(names, k).0 == k && Text.Split(Listed(names, k).1, ',') == Order(names, k)
  {
    hide Order;
    OrdersAreAll(names, Orders(names)[k]);
    var order := Order(names, k);
    assert multiset(Orders(names)[k]) == multiset(Range(|names|));
    assert |Orders(names)[k]| == |multiset(Orders(names)[k])| == |multiset(Range(|names|))| == |names|;
    Text.SplitJoin(order, ',');
  }

  /** The entry of one of the first `n` orders, predicted as `a`. */
  ghost predicate Entry(names: seq<string>, widths: map<string, nat>, n: nat, a: Assigned, e: (nat, string))
    requires Wide(names, widths) && n <= |Orders(names)|
  {
    e.0 < n && e == Listed(names, e.0) && ClassOf(names, widths, e.0) == a
  }

  /** `es` lists some of the first `n` orders, in increasing order, all predicted as `a`. */
  ghost predicate Class(names: seq<string>, widths: map<string, nat>, n: nat, a: Assigned, es: seq<(nat, string)>)
    requires Wide(names, widths) && n <= |Orders(names)|
  {
    && es != []
    && (forall i | 0 <= i < |es| :: Entry(names, widths, n, a, es[i]))
    && (forall i, j | 0 <= i < j < |es| :: es[i].0 < es[j].0)
  }

  /** `part` sorts the first `n` orders into classes: it lists every one of them, in increasing order, under its
      own prediction and nowhere else, and has no empty class. */
  ghost predicate Sorted(names: seq<string>, widths: map<string, nat>, n: nat, part: map<Assigned, seq<(nat, string)>>)
    requires Wide(names, widths) && n <= |Orders(names)|
  {
    && (forall a | a in part :: Class(names, widths, n, a, part[a]))
    && (forall k: nat | k < n :: ClassOf(names, widths, k) in part && Listed(names, k) in part[ClassOf(names, widths, k)])
  }

  method ClassesFor(names: seq<string>, widths: map<string, nat>) returns (part: map<Assigned, seq<(nat, string)>>)
    requires Wide(names, widths)
    ensures Sorted(names, widths, |Orders(names)|, part)
  {
    hide Orders, Order, Predicted, Listed;
    part := map[];
    var perms := Orders(names);
    for k := 0 to |perms|
      invariant Sorted(names, widths, k, part)
    {
      var order := Order(names, k);
      var a := Predict(order, widths, EXCLUDED);
      SortedMore(names, widths, k, part);
      part := part[a := (if a in part then part[a] else []) + [Listed(names, k)]];
    }
  }

  lemma EntryMore(names: seq<string>, widths: map<string, nat>, n: nat, a: Assigned, e: (nat, string))
    requires Wide(names, widths) && n < |Orders(names)|
    ensures Entry(names, widths, n, a, e) ==> Entry(names, widths, n + 1, a, e) && e.0 < n
    ensures ClassOf(names, widths, n) == a ==> Entry(names, widths, n + 1, a, Listed(names, n)) && Listed(names, n).0 == n
  {
  }

  lemma ClassMore(names: seq<string>, widths: map<string, nat>, n: nat, a: Assigned, es: seq<(nat, string)>)
    requires Wide(names, widths) && n < |Orders(names)|
    ensures Class(names, widths, n, a, es) ==> Class(names, widths, n + 1, a, es)
    ensures (es == [] || Class(names, widths, n, a, es)) && ClassOf(names, widths, n) == a
            ==> Class(names, widths, n + 1, a, es + [Listed(names, n)])
  {
    hide ClassOf, Orders, Order, Listed, Entry;
    forall i | 0 <= i < |es|
      ensures Entry(names, widths, n, a, es[i]) ==> Entry(names, widths, n + 1, a, es[i]) && es[i].0 < n
    {
      EntryMore(names, widths, n, a, es[i]);
    }
    EntryMore(names, widths, n, a, Listed(names, n));
  }

  lemma SortedMore(names: seq<string>, widths: map<string, nat>, n: nat, part: map<Assigned, seq<(nat, string)>>)
    requires Wide(names, widths) && n < |Orders(names)| && Sorted(names, widths, n, part)
    ensures var a := ClassOf(names, widths, n);
            Sorted(names, widths, n + 1, part[a := (if a in part then part[a] else []) + [Listed(names, n)]])
  {
    hide ClassOf, Class, Orders, Order, Listed;
    var a := ClassOf(names, widths, n);
    var before := if a in part then part[a] else [];
    var part' := part[a := before + [Listed(names, n)]];
    ClassMore(names, widths, n, a, before);
    forall a' | a' in part'
      ensures Class(names, widths, n + 1, a', part'[a'])
    {
      if a' != a {
        ClassMore(names, widths, n, a', part[a']);
      }
    }
    forall k: nat | k < n + 1
      ensures ClassOf(names, widths, k) in part' && Listed(names, k) in part'[ClassOf(names, widths, k)]
    {
      if k == n {
        assert part'[a][|before|] == Listed(names, n);
      } else if ClassOf(names, widths, k) == a {
        var i :| 0 <= i < |before| && before[i] == Listed(names, k);
        assert part'[a][i] == Listed(names, k);
      }
    }
  }

  /** Two orders fall into one class exactly when they get the same registers, and every order is in one class. */
  lemma SameClassIffSameRegisters(names: seq<string>, widths: map<string, nat>, part: map<Assigned, seq<(nat, string)>>,
                                  k: nat, k': nat)
    requires Wide(names, widths) && Sorted(names, widths, |Orders(names)|, part) && k < |Orders(names)| && k' < |Orders(names)|
    ensures exists a :: a in part && Listed(names, k) in part[a]
    ensures (exists a :: a in part && Listed(names, k) in part[a] && Listed(names, k') in part[a])
            <==> ClassOf(names, widths, k) == ClassOf(names, widths, k')
  {
    assert Listed(names, k).0 == k && Listed(names, k').0 == k';
    hide ClassOf, Orders, Order, Listed;
    assert ClassOf(names, widths, k) in part && Listed(names, k) in part[ClassOf(names, widths, k)];
    assert ClassOf(names, widths, k') in part && Listed(names, k') in part[ClassOf(names, widths, k')];
    if a :| a in part && Listed(names, k) in part[a] && Listed(names, k') in part[a] {
      assert Class(names, widths, |Orders(names)|, a, part[a]);
      var i :| 0 <= i < |part[a]| && part[a][i] == Listed(names, k);
      var i' :| 0 <= i' < |part[a]| && part[a][i'] == Listed(names, k');
    }
  }

  /** The registers given depend on the widths alone: orders with the same widths in the same places give the
      same registers to the same places. */
  lemma WidthsDecide(order: seq<string>, order': seq<string>, widths: map<string, nat>, excluded: set<Reg>, n: nat)
    requires forall i | 0 <= i < |order| :: order[i] in widths
    requires |order'| == |order| && forall i | 0 <= i < |order| :: order'[i] in widths && widths[order'[i]] == widths[order[i]]
    requires forall i, j | 0 <= i < j < |order| :: order[i] != order[j] && order'[i] != order'[j]
    requires n < |order|
    ensures order[n] in Predicted(order, widths, excluded) && order'[n] in Predicted(order', widths, excluded)
    ensures Predicted(order, widths, excluded)[order[n]] == Predicted(order', widths, excluded)[order'[n]]
  {
    hide Given, Predicted, Lanes;
    PredictionIs(order, widths, excluded, n);
    PredictionIs(order', widths, excluded, n);
    assert WidthsOf(order, widths) == WidthsOf(order', widths);
  }
}
