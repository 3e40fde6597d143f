/** What an access to a handle answers, told from the calls that were made before it and from nothing else. */
module HandleTrace {
  import opened Wrappers
  import opened Handle

  /** The handle at `p` was made by call `i`, and neither released nor made anew before call `n`. */
  predicate Held(ops: seq<Op>, i: nat, n: nat, p: nat) {
    && i < n <= |ops| && ops[i].NewOp? && ops[i].p == p
    && forall j | i < j < n :: !(ops[j].NewOp? && ops[j].p == p) && ops[j] != ReleaseOp(p)
  }

  /** The payload of the handle that call `i` made: how many were made before. */
  function Made(ops: seq<Op>, i: nat): nat
    requires i <= |ops|
  {
    if i == 0 then 0 else Made(ops, i - 1) + (if ops[i - 1].NewOp? then 1 else 0)
  }

  /** A mutation of the payload panicked. */
  predicate Broken(ops: seq<Op>, i: nat, n: nat, serial: nat)
    requires n <= |ops|
  {
    exists j :: i < j < n && ops[j] == DropOp(serial, true)
  }

  /** Exclusive access was asked for, and no guard of the payload has ended since. */
  predicate Taken(ops: seq<Op>, i: nat, n: nat, p: nat, kind: Kind, serial: nat)
    requires n <= |ops|
  {
    exists m :: i < m < n && ops[m] == MutOp(p, kind) && NoDrop(ops, m, n, serial)
  }

  predicate NoDrop(ops: seq<Op>, m: nat, n: nat, serial: nat)
    requires n <= |ops|
  {
    forall j | m < j < n :: !(ops[j].DropOp? && ops[j].serial == serial)
  }

  lemma {:induction false} CreatedIsMade(ops: seq<Op>, states: seq<State>, n: nat)
    requires Run(ops, states) && n <= |ops|
    ensures states[n].created == Made(ops, n)
  {
    if n > 0 {
      CreatedIsMade(ops, states, n - 1);
      RunStep(ops, states, n - 1);
    }
  }

  /** A call leaves every cell alone, but for its poison flag, unless it makes or releases it. */
  lemma StepKeepsCell(s: State, op: Op, p: nat)
    requires Valid(s) && Possible(s, op) && Apply(s, op).Done? && p in s.heap
    requires !(op.NewOp? && op.p == p) && op != ReleaseOp(p)
    ensures var s' := Apply(s, op).s;
            p in s'.heap && p in s'.live && s'.heap[p].kind == s.heap[p].kind && s'.heap[p].serial == s.heap[p].serial
  {
  }

  /** The last two states of a run, and the call between them. */
  lemma LastStep(ops: seq<Op>, states: seq<State>, n: nat)
    requires Run(ops, states) && 0 < n <= |ops|
    ensures |states| == |ops| + 1
    ensures Valid(states[n - 1]) && Valid(states[n]) && Possible(states[n - 1], ops[n - 1])
    ensures states[n - 1].live <= states[n - 1].heap.Keys && Apply(states[n - 1], ops[n - 1]) == Done(states[n])
  {
    RunKeeps(ops, states, n - 1);
    RunKeeps(ops, states, n);
    RunStep(ops, states, n - 1);
  }

  lemma {:induction false} HeldCell(ops: seq<Op>, states: seq<State>, i: nat, n: nat, p: nat)
    requires Run(ops, states) && Held(ops, i, n, p)
    ensures p in states[n].heap && p in states[n].live
    ensures states[n].heap[p].kind == ops[i].kind && states[n].heap[p].serial == Made(ops, i)
    decreases n
  {
    hide Run, Valid, Possible, Made;
    LastStep(ops, states, n);
    if n == i + 1 {
      CreatedIsMade(ops, states, i);
    } else {
      hide Apply;
      HeldCell(ops, states, i, n - 1, p);
      StepKeepsCell(states[n - 1], ops[n - 1], p);
    }
  }

  lemma NothingAtFirst(ops: seq<Op>, states: seq<State>)
    requires Run(ops, states)
    ensures |states| == |ops| + 1 && states[0].live == {}
  {
  }

  lemma StepLive(s: State, op: Op, p: nat)
    requires Valid(s) && Possible(s, op) && Apply(s, op).Done?
    ensures p in Apply(s, op).s.live ==> (op.NewOp? && op.p == p) || (p in s.live && op != ReleaseOp(p))
  {
  }

  /** A live pointer was made by some call and not released since. */
  lemma {:induction false} LiveIsHeld(ops: seq<Op>, states: seq<State>, n: nat, p: nat) returns (i: nat)
    requires Run(ops, states) && n <= |ops| && n < |states| && p in states[n].live
    ensures Held(ops, i, n, p)
  {
    hide Run, Valid, Apply, Possible;
    NothingAtFirst(ops, states);
    LastStep(ops, states, n);
    StepLive(states[n - 1], ops[n - 1], p);
    if ops[n - 1].NewOp? && ops[n - 1].p == p {
      i := n - 1;
    } else {
      i := LiveIsHeld(ops, states, n - 1, p);
    }
  }

  /** A pointer is live exactly when some call made it and no later one released it. */
  lemma LiveIffHeld(ops: seq<Op>, states: seq<State>, n: nat, p: nat)
    requires Run(ops, states) && n <= |ops|
    ensures p in states[n].live <==> exists i :: Held(ops, i, n, p)
  {
    hide Held;
    if i :| Held(ops, i, n, p) {
      HeldCell(ops, states, i, n, p);
    }
    if p in states[n].live {
      var i := LiveIsHeld(ops, states, n, p);
    }
  }

  // ---- the poison ----

  /** What a call does to the flags of the payload at `p`. */
  lemma StepFlags(s: State, op: Op, p: nat)
    requires Valid(s) && Possible(s, op) && Apply(s, op).Done? && p in s.heap && !(op.NewOp? && op.p == p)
    ensures var s', g := Apply(s, op).s, s.heap[p].serial;
            && (g in s'.panicked <==> g in s.panicked || op == DropOp(g, true))
            && (g in s'.guards <==>
                  (g in s.guards && !(op.DropOp? && op.serial == g)) || (op == MutOp(p, s.heap[p].kind) && g !in s.panicked))
  {
  }

  lemma FreshFlags(s: State, p: nat, kind: Kind)
    requires Valid(s)
    ensures var s' := Allocate(s, p, kind); s.created !in s'.panicked && s.created !in s'.guards
  {
  }

  lemma BrokenMore(ops: seq<Op>, i: nat, n: nat, serial: nat)
    requires i < n < |ops|
    ensures Broken(ops, i, n + 1, serial) <==> Broken(ops, i, n, serial) || ops[n] == DropOp(serial, true)
  {
    if Broken(ops, i, n, serial) {
      var j :| i < j < n && ops[j] == DropOp(serial, true);
      assert i < j < n + 1;
    }
    if Broken(ops, i, n + 1, serial) {
      var j :| i < j < n + 1 && ops[j] == DropOp(serial, true);
      assert j == n || i < j < n;
    }
  }

  lemma TakenMore(ops: seq<Op>, i: nat, n: nat, p: nat, kind: Kind, serial: nat)
    requires i < n < |ops|
    ensures Taken(ops, i, n + 1, p, kind, serial)
            <==> (Taken(ops, i, n, p, kind, serial) && !(ops[n].DropOp? && ops[n].serial == serial)) || ops[n] == MutOp(p, kind)
  {
    if Taken(ops, i, n, p, kind, serial) && !(ops[n].DropOp? && ops[n].serial == serial) {
      var m :| i < m < n && ops[m] == MutOp(p, kind) && NoDrop(ops, m, n, serial);
      assert NoDrop(ops, m, n + 1, serial);
    }
    if ops[n] == MutOp(p, kind) {
      assert NoDrop(ops, n, n + 1, serial);
    }
    if Taken(ops, i, n + 1, p, kind, serial) {
      var m :| i < m < n + 1 && ops[m] == MutOp(p, kind) && NoDrop(ops, m, n + 1, serial);
      if m < n {
        assert NoDrop(ops, m, n, serial);
      }
    }
  }

  /** The flags of a payload, from the calls since it was made. */
  lemma {:induction false} FlagsAre(ops: seq<Op>, states: seq<State>, i: nat, n: nat, p: nat)
    requires Run(ops, states) && Held(ops, i, n, p)
    ensures var g := Made(ops, i);
            && (g in states[n].panicked <==> Broken(ops, i, n, g))
            && (g in states[n].guards <==> Taken(ops, i, n, p, ops[i].kind, g) && !Broken(ops, i, n, g))
    decreases n
  {
    hide Run, Valid, Possible, Made, Broken, Taken;
    LastStep(ops, states, n);
    var g := Made(ops, i);
    if n == i + 1 {
      CreatedIsMade(ops, states, i);
      FreshFlags(states[i], p, ops[i].kind);
      NothingBetween(ops, i, p, ops[i].kind, g);
    } else {
      hide Apply;
      FlagsAre(ops, states, i, n - 1, p);
      HeldCell(ops, states, i, n - 1, p);
      StepFlags(states[n - 1], ops[n - 1], p);
      BrokenMore(ops, i, n - 1, g);
      TakenMore(ops, i, n - 1, p, ops[i].kind, g);
    }
  }

  lemma NothingBetween(ops: seq<Op>, i: nat, p: nat, kind: Kind, serial: nat)
    requires i < |ops|
    ensures !Broken(ops, i, i + 1, serial) && !Taken(ops, i, i + 1, p, kind, serial)
  {
  }

  // ---- the answer ----

  /** Over every run: access to `p` as `kind` is refused as null, then as not live, then for the kind it was made with,
      then as poisoned, by a panic or by an access still open; and in no other case. */
  lemma AccessIs(ops: seq<Op>, states: seq<State>, n: nat, p: nat, kind: Kind)
    requires Run(ops, states) && n <= |ops|
    ensures states[n].live <= states[n].heap.Keys
    ensures p == 0 ==> AsRef(states[n], p, kind) == Err(NullHandle)
    ensures p != 0 && (forall i | 0 <= i < n :: !Held(ops, i, n, p)) ==> AsRef(states[n], p, kind) == Err(NotLive)
    ensures forall i: nat | Held(ops, i, n, p) ::
              var g := Made(ops, i);
              AsRef(states[n], p, kind)
              == if ops[i].kind != kind then Err(WrongKind(ops[i].kind))
                 else if Broken(ops, i, n, g) || Taken(ops, i, n, p, kind, g) then Err(Poisoned)
                 else Ok(g)
  {
    RunKeeps(ops, states, n);
    LiveIffHeld(ops, states, n, p);
    hide Run, Held, Broken, Taken, Made, Ledger;
    forall i: nat | Held(ops, i, n, p)
      ensures var g := Made(ops, i);
              AsRef(states[n], p, kind)
              == if ops[i].kind != kind then Err(WrongKind(ops[i].kind))
                 else if Broken(ops, i, n, g) || Taken(ops, i, n, p, kind, g) then Err(Poisoned)
                 else Ok(g)
    {
      AccessHeld(ops, states, i, n, p, kind);
    }
  }

  lemma AccessHeld(ops: seq<Op>, states: seq<State>, i: nat, n: nat, p: nat, kind: Kind)
    requires Run(ops, states) && Held(ops, i, n, p)
    ensures states[n].live <= states[n].heap.Keys
    ensures var g := Made(ops, i);
            AsRef(states[n], p, kind)
            == if ops[i].kind != kind then Err(WrongKind(ops[i].kind))
               else if Broken(ops, i, n, g) || Taken(ops, i, n, p, kind, g) then Err(Poisoned)
               else Ok(g)
  {
    RunKeeps(ops, states, n);
    HeldCell(ops, states, i, n, p);
    FlagsAre(ops, states, i, n, p);
    hide Run, Held, Broken, Taken, Made, Ledger;
  }

  /** So access succeeds exactly when the handle was made with that kind and is held, every access to it for a mutation
      has ended, and none panicked. */
  lemma AccessIff(ops: seq<Op>, states: seq<State>, n: nat, p: nat, kind: Kind)
    requires Run(ops, states) && n <= |ops|
    ensures states[n].live <= states[n].heap.Keys
    ensures AsRef(states[n], p, kind).Ok?
            <==> exists i: nat :: Held(ops, i, n, p) && ops[i] == NewOp(p, kind)
                                  && !Broken(ops, i, n, Made(ops, i)) && !Taken(ops, i, n, p, kind, Made(ops, i))
  {
    AccessIs(ops, states, n, p, kind);
    hide AsRef, Broken, Taken, Made;
    if AsRef(states[n], p, kind).Ok? {
      var i: nat :| Held(ops, i, n, p);
      assert ops[i] == NewOp(p, kind);
    }
  }
}
