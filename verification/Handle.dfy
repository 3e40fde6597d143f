/** Handles behind opaque pointers: the live set, the poison flag, and what no run of the interface can do. */
module Handle {
  import opened Wrappers

  datatype Kind = Ctx | Options | Table | Session | Language | Program | Function | Toolchain

  const MAGIC := 0x4d4f5355

  datatype Error = NullHandle | NotLive | NotAHandle | WrongKind(actual: Kind) | Poisoned

  /** A heap cell. `serial` tells apart the cells that have stood at one address; it is the payload's identity. */
  datatype Cell = Cell(magic: nat, kind: Kind, poisoned: bool, serial: nat)

  /** The live set, the heap, what callers hold (the guards now open and the references handed out, by payload:
      the address of the cell they point into), and the history: how many handles were made, whose payloads were
      dropped, on which a mutation panicked. A reference may be held for good: its lifetime is the caller's choice. */
  datatype State = State(live: set<nat>, heap: map<nat, Cell>, guards: map<nat, nat>, refs: map<nat, nat>,
                         created: nat, dropped: seq<nat>, panicked: set<nat>)

  const INITIAL := State({}, map[], map[], map[], 0, [], {})

  // ---- the operations, on values ----

  /** The cell a pointer denotes, if it may be used as `kind`. The heap is looked at only for live pointers. */
  function Check(s: State, p: nat, kind: Kind): Result<Cell, Error>
    requires s.live <= s.heap.Keys
  {
    if p == 0 then Err(NullHandle)
    else if p !in s.live then Err(NotLive)
    else if s.heap[p].magic != MAGIC then Err(NotAHandle)
    else if s.heap[p].kind != kind then Err(WrongKind(s.heap[p].kind))
    else Ok(s.heap[p])
  }

  /** Shared access; the answer is the payload. */
  function AsRef(s: State, p: nat, kind: Kind): Result<nat, Error>
    requires s.live <= s.heap.Keys
  {
    match Check(s, p, kind)
    case Err(e) => Err(e)
    case Ok(cell) => if cell.poisoned then Err(Poisoned) else Ok(cell.serial)
  }

  function Allocate(s: State, p: nat, kind: Kind): State {
    s.(live := s.live + {p}, heap := s.heap[p := Cell(MAGIC, kind, false, s.created)], created := s.created + 1)
  }

  /** A reference is handed out. */
  function Lend(s: State, p: nat): State
    requires p in s.heap
  {
    s.(refs := s.refs[s.heap[p].serial := p])
  }

  /** Opening a guard poisons the cell. */
  function Open(s: State, p: nat): State
    requires p in s.heap
  {
    s.(heap := s.heap[p := s.heap[p].(poisoned := true)], guards := s.guards[s.heap[p].serial := p])
  }

  /** Closing a guard writes to the cell it was opened on, unless the thread is panicking. */
  function Close(s: State, serial: nat, panicking: bool): State
    requires serial in s.guards && (panicking || s.guards[serial] in s.heap)
  {
    var p := s.guards[serial];
    var closed := s.(guards := s.guards - {serial});
    if panicking then closed.(panicked := s.panicked + {serial})
    else closed.(heap := s.heap[p := s.heap[p].(poisoned := false)])
  }

  function Free(s: State, p: nat): State
    requires p in s.heap
  {
    s.(live := s.live - {p}, heap := s.heap - {p}, dropped := s.dropped + [s.heap[p].serial])
  }

  // ---- what always holds ----

  /** The live pointers are those of the heap, and every cell is a handle of its own, not yet dropped. */
  ghost predicate Cells(s: State) {
    && s.live == s.heap.Keys && 0 !in s.live
    && (forall p | p in s.heap :: s.heap[p].magic == MAGIC && s.heap[p].serial < s.created && s.heap[p].serial !in s.dropped)
    && (forall p, q | p in s.heap && q in s.heap && s.heap[p].serial == s.heap[q].serial :: p == q)
  }

  /** Every handle made is live or was dropped, once. */
  ghost predicate Ledger(s: State) {
    && (forall i | 0 <= i < |s.dropped| :: s.dropped[i] < s.created)
    && (forall i, j | 0 <= i < j < |s.dropped| :: s.dropped[i] != s.dropped[j])
    && |s.live| + |s.dropped| == s.created
  }

  /** The cell at `p` is that of the payload. */
  predicate At(s: State, p: nat, serial: nat) {
    p in s.heap && s.heap[p].serial == serial
  }

  /** A guard still stands on the cell it was opened on. */
  predicate Standing(s: State, serial: nat) {
    serial in s.guards && At(s, s.guards[serial], serial)
  }

  /** A cell is poisoned while a guard is open on it, and for good once a mutation of it panicked. */
  ghost predicate Poison(s: State) {
    && (forall g | g in s.guards :: g < s.created && g !in s.panicked && (g in s.dropped || Standing(s, g)))
    && (forall g | g in s.panicked :: g < s.created)
    && (forall p | p in s.heap :: s.heap[p].poisoned <==> s.heap[p].serial in s.guards || s.heap[p].serial in s.panicked)
  }

  /** A reference points at its cell until that is dropped. */
  ghost predicate Lent(s: State) {
    forall g | g in s.refs :: g < s.created && (g in s.dropped || At(s, s.refs[g], g))
  }

  ghost predicate Valid(s: State) {
    Cells(s) && Ledger(s) && Poison(s) && Lent(s)
  }

  lemma StandsUnlessDropped(s: State, serial: nat)
    requires Valid(s) && serial in s.guards
    ensures Standing(s, serial) <==> serial !in s.dropped
  {
  }

  lemma AllocateCells(s: State, p: nat, kind: Kind)
    requires Cells(s) && p != 0 && p !in s.heap && forall i | 0 <= i < |s.dropped| :: s.dropped[i] < s.created
    ensures Cells(Allocate(s, p, kind))
  {
  }

  lemma AllocateLedger(s: State, p: nat, kind: Kind)
    requires Ledger(s) && p !in s.live
    ensures Ledger(Allocate(s, p, kind))
  {
  }

  lemma AllocatePoison(s: State, p: nat, kind: Kind)
    requires Poison(s) && p !in s.heap
    ensures Poison(Allocate(s, p, kind))
  {
    var s' := Allocate(s, p, kind);
    assert forall g | g in s.guards && Standing(s, g) :: Standing(s', g);
  }

  lemma AllocateLent(s: State, p: nat, kind: Kind)
    requires Lent(s) && p !in s.heap
    ensures Lent(Allocate(s, p, kind))
  {
  }

  lemma AllocateKeeps(s: State, p: nat, kind: Kind)
    requires Valid(s) && p != 0 && p !in s.heap
    ensures Valid(Allocate(s, p, kind))
  {
    AllocateCells(s, p, kind);
    AllocateLedger(s, p, kind);
    AllocatePoison(s, p, kind);
    AllocateLent(s, p, kind);
    hide Cells, Ledger, Poison, Lent;
  }

  lemma LendKeeps(s: State, p: nat)
    requires Valid(s) && p in s.heap
    ensures Valid(Lend(s, p)) && At(s, p, s.heap[p].serial)
  {
    assert Cells(Lend(s, p)) && Ledger(Lend(s, p));
    assert forall g | g in s.guards && Standing(s, g) :: Standing(Lend(s, p), g);
    assert Poison(Lend(s, p));
    hide Ledger, Poison;
  }

  /** Changing poison flags and guards touches neither the cells, nor the ledger, nor where references point. */
  lemma RepoisonKeeps(s: State, s': State)
    requires Cells(s) && Ledger(s) && Lent(s)
    requires s'.live == s.live && s'.heap.Keys == s.heap.Keys && s'.dropped == s.dropped && s'.created == s.created
    requires s'.refs == s.refs
    requires forall p | p in s.heap :: s'.heap[p].magic == s.heap[p].magic && s'.heap[p].serial == s.heap[p].serial
    ensures Cells(s') && Ledger(s') && Lent(s')
  {
  }

  lemma OpenPoison(s: State, p: nat)
    requires Cells(s) && Poison(s) && p in s.heap && !s.heap[p].poisoned
    ensures Poison(Open(s, p)) && Standing(Open(s, p), s.heap[p].serial)
  {
    var s' := Open(s, p);
    var serial := s.heap[p].serial;
    forall g | g in s'.guards
      ensures g < s'.created && g !in s'.panicked && (g in s'.dropped || Standing(s', g))
    {
      if g != serial {
        assert g in s.guards;
      }
    }
  }

  lemma OpenKeeps(s: State, p: nat, kind: Kind)
    requires Valid(s) && AsRef(s, p, kind).Ok?
    ensures Valid(Open(s, p)) && Standing(Open(s, p), s.heap[p].serial)
  {
    OpenPoison(s, p);
    RepoisonKeeps(s, Open(s, p));
    hide Cells, Ledger, Poison, Lent;
  }

  lemma ClosePoison(s: State, serial: nat, panicking: bool)
    requires Cells(s) && Poison(s) && serial in s.guards && (panicking || Standing(s, serial))
    ensures Poison(Close(s, serial, panicking))
  {
    var s' := Close(s, serial, panicking);
    forall g | g in s'.guards
      ensures g < s'.created && g !in s'.panicked && (g in s'.dropped || Standing(s', g))
    {
      assert g in s.guards && g != serial;
    }
    forall q | q in s'.heap
      ensures s'.heap[q].poisoned <==> s'.heap[q].serial in s'.guards || s'.heap[q].serial in s'.panicked
    {
      assert s'.heap[q].serial == s.heap[q].serial;
    }
  }

  lemma CloseKeeps(s: State, serial: nat, panicking: bool)
    requires Valid(s) && serial in s.guards && (panicking || Standing(s, serial))
    ensures Valid(Close(s, serial, panicking))
  {
    ClosePoison(s, serial, panicking);
    RepoisonKeeps(s, Close(s, serial, panicking));
    hide Cells, Ledger, Poison, Lent;
  }

  lemma FreeLedger(s: State, p: nat)
    requires Ledger(s) && p in s.live && p in s.heap && s.heap[p].serial < s.created && s.heap[p].serial !in s.dropped
    ensures Ledger(Free(s, p))
  {
    assert s.live == (s.live - {p}) + {p};
  }

  lemma FreeCells(s: State, p: nat)
    requires Cells(s) && p in s.heap
    ensures Cells(Free(s, p))
  {
    var s' := Free(s, p);
    forall q | q in s'.heap
      ensures s'.heap[q].serial !in s'.dropped
    {
      assert s'.heap[q] == s.heap[q] && q != p;
      assert s.heap[q].serial != s.heap[p].serial;
    }
  }

  lemma FreePoison(s: State, p: nat)
    requires Cells(s) && Poison(s) && p in s.heap
    ensures Poison(Free(s, p))
  {
    var s' := Free(s, p);
    forall g | g in s'.guards
      ensures g < s'.created && g !in s'.panicked && (g in s'.dropped || Standing(s', g))
    {
      assert g in s.guards;
      if g !in s'.dropped {
        assert g !in s.dropped && s'.dropped[|s.dropped|] == s.heap[p].serial;
        assert Standing(s, g) && s.guards[g] != p;
      }
    }
  }

  lemma FreeLent(s: State, p: nat)
    requires Lent(s) && p in s.heap
    ensures Lent(Free(s, p))
  {
    var s' := Free(s, p);
    forall g | g in s'.refs
      ensures g < s'.created && (g in s'.dropped || At(s', s'.refs[g], g))
    {
      if g !in s'.dropped {
        assert s'.dropped[|s.dropped|] == s.heap[p].serial;
        assert g !in s.dropped && At(s, s.refs[g], g) && s.refs[g] != p;
      }
    }
  }

  lemma FreeKeeps(s: State, p: nat)
    requires Valid(s) && p in s.live
    ensures p in s.heap && Valid(Free(s, p))
  {
    FreeLedger(s, p);
    FreeCells(s, p);
    FreePoison(s, p);
    FreeLent(s, p);
    hide Cells, Ledger, Poison, Lent;
  }

  // ---- calls ----

  /** A call of the interface, or a use of what a call answered: `ReadOp` reads through a reference, `GuardOp`
      reads or writes through a guard. `NewOp` carries the allocator's choice. */
  datatype Op = NewOp(p: nat, kind: Kind) | UseOp(p: nat, kind: Kind) | MutOp(p: nat, kind: Kind)
              | ReadOp(serial: nat) | GuardOp(serial: nat) | DropOp(serial: nat, panicking: bool) | ReleaseOp(p: nat)

  /** What a call can be: the allocator hands out free addresses, and only what is held is used. */
  predicate Possible(s: State, op: Op) {
    match op
    case NewOp(p, _) => p != 0 && p !in s.heap
    case ReadOp(serial) => serial in s.refs
    case GuardOp(serial) => serial in s.guards
    case DropOp(serial, _) => serial in s.guards
    case _ => true
  }

  datatype Outcome = Done(s: State) | Dangling

  /** A call looks at the heap only where it says so here: behind the live set, or through a reference or a guard.
      One whose cell is gone, or is another handle's by now, dangles. A guard dropped by a panic looks at nothing. */
  function Apply(s: State, op: Op): Outcome
    requires s.live <= s.heap.Keys && Possible(s, op)
  {
    match op
    case NewOp(p, kind) => Done(Allocate(s, p, kind))
    case UseOp(p, kind) => if AsRef(s, p, kind).Ok? then Done(Lend(s, p)) else Done(s)
    case MutOp(p, kind) => if AsRef(s, p, kind).Ok? then Done(Open(s, p)) else Done(s)
    case ReadOp(serial) => if At(s, s.refs[serial], serial) then Done(s) else Dangling
    case GuardOp(serial) => if Standing(s, serial) then Done(s) else Dangling
    case DropOp(serial, panicking) => if panicking || Standing(s, serial) then Done(Close(s, serial, panicking)) else Dangling
    case ReleaseOp(p) => if p in s.live then Done(Free(s, p)) else Done(s)
  }

  // ---- the registry, updated in place ----

  class Registry {
    var live: set<nat>
    var heap: map<nat, Cell>
    var guards: map<nat, nat>
    var refs: map<nat, nat>
    var created: nat
    ghost var dropped: seq<nat>
    ghost var panicked: set<nat>

    ghost function Abs(): State
      reads this
    {
      State(live, heap, guards, refs, created, dropped, panicked)
    }

    constructor ()
      ensures Abs() == INITIAL && Valid(Abs())
    {
      live, heap, guards, refs, created := {}, map[], map[], map[], 0;
      dropped, panicked := [], {};
    }

    /** `p` is the address the allocator picked: not null, and not in use. */
    method New(p: nat, kind: Kind)
      requires Valid(Abs()) && p != 0 && p !in heap
      modifies this
      ensures Abs() == Allocate(old(Abs()), p, kind) && Valid(Abs())
    {
      AllocateKeeps(Abs(), p, kind);
      heap := heap[p := Cell(MAGIC, kind, false, created)];
      live := live + {p};
      created := created + 1;
    }

    /** The pointer is checked, and then the poison flag. */
    method Use(p: nat, kind: Kind) returns (r: Result<nat, Error>)
      requires Valid(Abs())
      ensures r == AsRef(Abs(), p, kind)
    {
      if p == 0 {
        return Err(NullHandle);
      }
      if p !in live {
        return Err(NotLive);
      }
      var cell := heap[p];
      if cell.magic != MAGIC {
        return Err(NotAHandle);
      }
      if cell.kind != kind {
        return Err(WrongKind(cell.kind));
      }
      if cell.poisoned {
        return Err(Poisoned);
      }
      r := Ok(cell.serial);
    }

    /** Shared access; the reference is known by the payload it reaches. */
    method Borrow(p: nat, kind: Kind) returns (r: Result<nat, Error>)
      requires Valid(Abs())
      modifies this
      ensures r == old(AsRef(Abs(), p, kind))
      ensures Done(Abs()) == old(Apply(Abs(), UseOp(p, kind))) && Valid(Abs())
      ensures r.Ok? ==> r.value in refs && At(Abs(), refs[r.value], r.value)
    {
      r := Use(p, kind);
      if r.Ok? {
        LendKeeps(Abs(), p);
        refs := refs[r.value := p];
      }
    }

    /** A read through a reference: it reaches the payload, unless that was released. */
    method Read(serial: nat) returns (dangles: bool)
      requires Valid(Abs()) && serial in refs
      ensures dangles <==> Apply(Abs(), ReadOp(serial)).Dangling?
      ensures dangles <==> serial in dropped
    {
      dangles := refs[serial] !in heap || heap[refs[serial]].serial != serial;
    }

    /** A read or a write through a guard. */
    method Deref(serial: nat) returns (dangles: bool)
      requires Valid(Abs()) && serial in guards
      ensures dangles <==> Apply(Abs(), GuardOp(serial)).Dangling?
      ensures dangles <==> serial in dropped
    {
      dangles := guards[serial] !in heap || heap[guards[serial]].serial != serial;
    }

    /** Exclusive access; the guard is known by the payload it guards. */
    method AsMut(p: nat, kind: Kind) returns (r: Result<nat, Error>)
      requires Valid(Abs())
      modifies this
      ensures r == old(AsRef(Abs(), p, kind))
      ensures Abs() == if r.Ok? then old(Open(Abs(), p)) else old(Abs())
      ensures Valid(Abs()) && (r.Ok? ==> Standing(Abs(), r.value))
    {
      r := Use(p, kind);
      if r.Ok? {
        OpenKeeps(Abs(), p, kind);
        heap := heap[p := heap[p].(poisoned := true)];
        guards := guards[r.value := p];
      }
    }

    /** The guard goes out of scope. If that writes to a cell that was released, nothing is said of what follows. */
    method DropGuard(serial: nat, panicking: bool) returns (dangles: bool)
      requires Valid(Abs()) && serial in guards
      modifies this
      ensures dangles <==> !panicking && serial in old(dropped)
      ensures !dangles ==> Abs() == old(Close(Abs(), serial, panicking)) && Valid(Abs())
    {
      hide Valid;
      ghost var before := Abs();
      StandsUnlessDropped(before, serial);
      var p := guards[serial];
      if panicking {
        CloseKeeps(before, serial, panicking);
        panicked := panicked + {serial};
        guards := guards - {serial};
        return false;
      }
      if p !in heap || heap[p].serial != serial {
        return true;
      }
      CloseKeeps(before, serial, panicking);
      heap := heap[p := heap[p].(poisoned := false)];
      guards := guards - {serial};
      dangles := false;
    }

    method Release(p: nat) returns (r: Result<(), Error>)
      requires Valid(Abs())
      modifies this
      ensures r == if p in old(live) then Ok(()) else Err(NotLive)
      ensures Abs() == if p in old(live) then old(Free(Abs(), p)) else old(Abs())
      ensures Valid(Abs())
    {
      if p !in live {
        return Err(NotLive);
      }
      FreeKeeps(Abs(), p);
      var cell := heap[p];
      live := live - {p};
      if cell.magic != MAGIC {
        return Err(NotAHandle);
      }
      dropped := dropped + [cell.serial];
      heap := heap - {p};
      r := Ok(());
    }
  }

  // ---- runs ----

  /** The states a run passes through, one call after the other. */
  ghost predicate Run(ops: seq<Op>, states: seq<State>) {
    && |states| == |ops| + 1 && states[0] == INITIAL
    && forall i | 0 <= i < |ops| ::
         states[i].live <= states[i].heap.Keys && Possible(states[i], ops[i]) && Apply(states[i], ops[i]) == Done(states[i + 1])
  }

  lemma RunStep(ops: seq<Op>, states: seq<State>, i: nat)
    requires Run(ops, states) && i < |ops|
    ensures states[i].live <= states[i].heap.Keys && Possible(states[i], ops[i])
    ensures Apply(states[i], ops[i]) == Done(states[i + 1])
  {
  }

  lemma StepKeeps(s: State, op: Op)
    requires Valid(s) && Possible(s, op)
    ensures Apply(s, op).Done? ==> Valid(Apply(s, op).s)
  {
    match op
    case NewOp(p, kind) => AllocateKeeps(s, p, kind);
    case UseOp(p, kind) => if AsRef(s, p, kind).Ok? { LendKeeps(s, p); }
    case MutOp(p, kind) => if AsRef(s, p, kind).Ok? { OpenKeeps(s, p, kind); }
    case ReadOp(_) =>
    case GuardOp(_) =>
    case DropOp(serial, panicking) => if panicking || Standing(s, serial) { CloseKeeps(s, serial, panicking); }
    case ReleaseOp(p) => if p in s.live { FreeKeeps(s, p); }
  }

  lemma InitialIsValid()
    ensures Valid(INITIAL)
  {
  }

  /** Every state of every run: created is live plus dropped, no payload is dropped twice, and a cell that is
      not in the live set is not in the heap. */
  lemma {:induction false} RunKeeps(ops: seq<Op>, states: seq<State>, n: nat)
    requires Run(ops, states) && n < |states|
    ensures Valid(states[n])
  {
    hide Valid, Apply, Possible;
    InitialIsValid();
    if n > 0 {
      RunKeeps(ops, states, n - 1);
      RunStep(ops, states, n - 1);
      StepKeeps(states[n - 1], ops[n - 1]);
    }
  }

  /** What can touch a cell outside the live set: a read through a reference, or the use or the normal end of a
      guard, whose handle was released in the meantime. Nothing else can. */
  lemma DanglesIffReleased(ops: seq<Op>, states: seq<State>, n: nat, op: Op)
    requires Run(ops, states) && n < |states| && Possible(states[n], op)
    ensures states[n].live <= states[n].heap.Keys
    ensures Apply(states[n], op).Dangling? <==>
            (op.ReadOp? || op.GuardOp? || (op.DropOp? && !op.panicking)) && op.serial in states[n].dropped
  {
    hide Run;
    RunKeeps(ops, states, n);
  }

  /** Runs that end so: a handle released under its guard, and one released while it was lent. */
  lemma ReleasedUnderGuard() returns (ops: seq<Op>, states: seq<State>)
    ensures ops == [NewOp(1, Table), MutOp(1, Table), ReleaseOp(1)] && Run(ops, states)
    ensures states[3].live <= states[3].heap.Keys && Possible(states[3], DropOp(0, false)) && Apply(states[3], DropOp(0, false)).Dangling?
    ensures Possible(states[3], GuardOp(0)) && Apply(states[3], GuardOp(0)).Dangling?
  {
    ops := [NewOp(1, Table), MutOp(1, Table), ReleaseOp(1)];
    states := FirstThree(ops[1]);
  }

  lemma ReleasedWhileLent() returns (ops: seq<Op>, states: seq<State>)
    ensures ops == [NewOp(1, Table), UseOp(1, Table), ReleaseOp(1)] && Run(ops, states)
    ensures states[3].live <= states[3].heap.Keys && Possible(states[3], ReadOp(0)) && Apply(states[3], ReadOp(0)).Dangling?
  {
    ops := [NewOp(1, Table), UseOp(1, Table), ReleaseOp(1)];
    states := FirstThree(ops[1]);
  }

  lemma FirstThree(op: Op) returns (states: seq<State>)
    requires op == MutOp(1, Table) || op == UseOp(1, Table)
    ensures Run([NewOp(1, Table), op, ReleaseOp(1)], states) && states[3].live == {}
    ensures op.MutOp? ==> 0 in states[3].guards && 1 !in states[3].heap && states[3].guards[0] == 1
    ensures op.UseOp? ==> 0 in states[3].refs && 1 !in states[3].heap && states[3].refs[0] == 1
  {
    var a := Allocate(INITIAL, 1, Table);
    var b := Apply(a, op).s;
    states := [INITIAL, a, b, Free(b, 1)];
  }

  /** The magic number never decides: a live pointer always denotes a handle. */
  lemma LiveIsAHandle(ops: seq<Op>, states: seq<State>, n: nat, p: nat, kind: Kind)
    requires Run(ops, states) && n < |states|
    ensures states[n].live <= states[n].heap.Keys && Check(states[n], p, kind) != Err(NotAHandle)
  {
    RunKeeps(ops, states, n);
  }

  lemma HistoryGrows(s: State, op: Op)
    requires Valid(s) && Possible(s, op) && Apply(s, op).Done?
    ensures var s' := Apply(s, op).s;
            s.panicked <= s'.panicked && s.dropped <= s'.dropped && s.created <= s'.created
  {
  }

  lemma {:induction false} HistoryGrowsOverRun(ops: seq<Op>, states: seq<State>, m: nat, n: nat)
    requires Run(ops, states) && m <= n < |states|
    ensures states[m].panicked <= states[n].panicked && states[m].dropped <= states[n].dropped
    ensures states[m].created <= states[n].created
  {
    hide Valid, Apply, Possible;
    if m < n {
      HistoryGrowsOverRun(ops, states, m, n - 1);
      RunKeeps(ops, states, n - 1);
      RunStep(ops, states, n - 1);
      HistoryGrows(states[n - 1], ops[n - 1]);
    }
  }

  /** A handle on which a mutation panicked refuses every access from then on, until it is released. */
  lemma PanickedStaysPoisoned(ops: seq<Op>, states: seq<State>, m: nat, n: nat, p: nat, kind: Kind)
    requires Run(ops, states) && m <= n < |states|
    requires p in states[n].heap && states[n].heap[p].serial in states[m].panicked
    ensures states[n].live <= states[n].heap.Keys
    ensures AsRef(states[n], p, kind) == Err(if states[n].heap[p].kind == kind then Poisoned else WrongKind(states[n].heap[p].kind))
  {
    RunKeeps(ops, states, n);
    HistoryGrowsOverRun(ops, states, m, n);
  }

  /** A live handle is usable exactly when no guard is open on it and no mutation of it panicked: one that
      ended, with an error or without, leaves the handle usable. */
  lemma UsableIffQuiet(ops: seq<Op>, states: seq<State>, n: nat, p: nat)
    requires Run(ops, states) && n < |states| && p in states[n].live
    ensures states[n].live <= states[n].heap.Keys
    ensures var cell := states[n].heap[p];
            AsRef(states[n], p, cell.kind) == Ok(cell.serial)
            <==> cell.serial !in states[n].guards && cell.serial !in states[n].panicked
  {
    RunKeeps(ops, states, n);
  }

  /** A released payload never comes back: no later pointer, whatever the allocator reuses, reaches it. */
  lemma ReleasedStaysGone(ops: seq<Op>, states: seq<State>, m: nat, n: nat, serial: nat, p: nat, kind: Kind)
    requires Run(ops, states) && m <= n < |states| && serial in states[m].dropped
    ensures states[n].live <= states[n].heap.Keys && AsRef(states[n], p, kind) != Ok(serial)
  {
    RunKeeps(ops, states, n);
    HistoryGrowsOverRun(ops, states, m, n);
  }
}
