/** Log-space reservation of kernel/log.c under any interleaving of begin_op, log_write and end_op. */
module Reservation {
  import opened Ring
  import Params

  const MAX := Params.MAXOPBLOCKS
  const SPACE := Params.LOGBLOCKS

  /** `used[i]` counts the blocks the i-th active operation has added to the log. */
  datatype State = State(logged: seq<nat>, used: seq<nat>, committing: bool)

  const BOOT := State([], [], false)

  /** log_write's first check fails: "too big a transaction". */
  predicate Panics(s: State) {
    |s.logged| >= SPACE
  }

  ghost predicate Begin(s: State, t: State) {
    && !s.committing
    && |s.logged| + (|s.used| + 1) * MAX <= SPACE
    && t == s.(used := s.used + [0])
  }

  /** The i-th operation logs block b; the discipline is that it adds at most MAX blocks. */
  ghost predicate LogWrite(s: State, t: State, i: nat, b: nat) {
    && i < |s.used|
    && !Panics(s)
    && if b in s.logged then t == s
       else s.used[i] < MAX && t == s.(logged := s.logged + [b], used := s.used[i := s.used[i] + 1])
  }

  ghost predicate End(s: State, t: State, i: nat) {
    && i < |s.used|
    && var rest := s.used[..i] + s.used[i + 1..];
       t == s.(used := rest, committing := rest == [])
  }

  ghost predicate Committed(s: State, t: State) {
    s.committing && t == State([], s.used, false)
  }

  ghost predicate Next(s: State, t: State) {
    || Begin(s, t)
    || (exists i, b :: LogWrite(s, t, i, b))
    || (exists i :: End(s, t, i))
    || Committed(s, t)
  }

  ghost predicate IsRun(run: seq<State>) {
    && |run| > 0
    && run[0] == BOOT
    && forall k :: 0 < k < |run| ==> Next(run[k - 1], run[k])
  }

  /** Space promised to active operations and not used yet. */
  function Unused(used: seq<nat>): (r: int) {
    if used == [] then 0 else Unused(used[..|used| - 1]) + (MAX - used[|used| - 1])
  }

  ghost predicate Inv(s: State) {
    && (forall i :: 0 <= i < |s.used| ==> s.used[i] <= MAX)
    && |s.logged| + Unused(s.used) <= SPACE
    && (s.committing ==> s.used == [])
    && (s.used == [] && !s.committing ==> s.logged == [])
    && Distinct(s.logged)
  }

  lemma {:induction false} UnusedBounds(used: seq<nat>)
    requires forall i :: 0 <= i < |used| ==> used[i] <= MAX
    ensures 0 <= Unused(used) <= |used| * MAX
  {
    if used != [] {
      UnusedBounds(used[..|used| - 1]);
    }
  }

  lemma UnusedOne(n: nat)
    ensures Unused([n]) == MAX - n
  {
  }

  lemma {:induction false} UnusedConcat(a: seq<nat>, b: seq<nat>)
    ensures Unused(a + b) == Unused(a) + Unused(b)
  {
    if b == [] {
      assert a + b == a;
    } else {
      assert (a + b)[..|a + b| - 1] == a + b[..|b| - 1];
      UnusedConcat(a, b[..|b| - 1]);
    }
  }

  /** The share of one operation in the sum. */
  lemma UnusedAt(used: seq<nat>, i: nat)
    requires i < |used|
    ensures Unused(used) == Unused(used[..i] + used[i + 1..]) + MAX - used[i]
  {
    hide Unused;
    assert used == used[..i] + ([used[i]] + used[i + 1..]);
    UnusedOne(used[i]);
    UnusedConcat(used[..i], [used[i]] + used[i + 1..]);
    UnusedConcat([used[i]], used[i + 1..]);
    UnusedConcat(used[..i], used[i + 1..]);
  }

  lemma LogWriteKeepsInv(s: State, t: State, i: nat, b: nat)
    requires Inv(s) && LogWrite(s, t, i, b)
    ensures Inv(t)
  {
    if b !in s.logged {
      UnusedAt(s.used, i);
      UnusedAt(t.used, i);
      assert t.used[..i] + t.used[i + 1..] == s.used[..i] + s.used[i + 1..];
    }
  }

  lemma EndKeepsInv(s: State, t: State, i: nat)
    requires Inv(s) && End(s, t, i)
    ensures Inv(t)
  {
    UnusedAt(s.used, i);
  }

  lemma BeginKeepsInv(s: State, t: State)
    requires Inv(s) && Begin(s, t)
    ensures Inv(t)
  {
    UnusedConcat(s.used, [0]);
    UnusedOne(0);
    UnusedBounds(s.used);
    hide Unused;
    assert |s.used| * MAX + MAX == (|s.used| + 1) * MAX;
  }

  lemma NextKeepsInv(s: State, t: State)
    requires Inv(s) && Next(s, t)
    ensures Inv(t)
  {
    hide Unused;
    if Begin(s, t) {
      BeginKeepsInv(s, t);
    } else if i: nat, b: nat :| LogWrite(s, t, i, b) {
      LogWriteKeepsInv(s, t, i, b);
    } else if i: nat :| End(s, t, i) {
      EndKeepsInv(s, t, i);
    } else {
      UnusedBounds([]);
    }
  }

  /** Reservation: in every reachable state the logged blocks plus all unused reservations fit the log,
      a commit runs only when no operation is active, and logged block numbers are distinct. */
  lemma {:induction false} ReservationHolds(run: seq<State>)
    requires IsRun(run)
    ensures Inv(run[|run| - 1])
    ensures
      var s := run[|run| - 1];
      && |s.logged| + Unused(s.used) <= SPACE && (s.committing ==> s.used == []) && Distinct(s.logged)
  {
    if |run| > 1 {
      ReservationHolds(run[..|run| - 1]);
      NextKeepsInv(run[|run| - 2], run[|run| - 1]);
    }
  }

  /** An operation with reservation left never meets the "too big a transaction" panic; in a reachable
      state the panic is possible exactly when the log is full, and then every reservation is used up. */
  lemma PanicIff(run: seq<State>, i: nat)
    requires IsRun(run) && i < |run[|run| - 1].used|
    ensures
      var s := run[|run| - 1];
      && (Panics(s) <==> |s.logged| == SPACE)
      && (Panics(s) ==> s.used[i] == MAX)
  {
    ReservationHolds(run);
    UnusedAt(run[|run| - 1].used, i);
    var rest := run[|run| - 1].used[..i] + run[|run| - 1].used[i + 1..];
    UnusedBounds(rest);
  }

  /** Nothing waits for good: from every reachable state the active operations can end and the log can be emptied, and
      then an operation can begin. */
  lemma {:induction false} Drains(run: seq<State>) returns (run': seq<State>)
    requires IsRun(run)
    ensures IsRun(run') && run <= run' && run'[|run'| - 1] == BOOT
    ensures Begin(BOOT, State([], [0], false))
    decreases |run[|run| - 1].used|
  {
    var s := run[|run| - 1];
    ReservationHolds(run);
    hide Inv, Unused, Begin, LogWrite;
    if s.used == [] {
      run' := run;
      if s.committing {
        assert Committed(s, BOOT);
        run' := run + [BOOT];
      }
    } else {
      var t := s.(used := s.used[..0] + s.used[1..], committing := s.used[..0] + s.used[1..] == []);
      assert End(s, t, 0);
      run' := Drains(run + [t]);
    }
  }

  // ----- The panic is reachable: three operations of MAX blocks each, then one block again -----

  ghost predicate Reachable(s: State) {
    exists run :: IsRun(run) && run[|run| - 1] == s
  }

  lemma StepReachable(s: State, t: State)
    requires Reachable(s) && Next(s, t)
    ensures Reachable(t)
  {
    var run :| IsRun(run) && run[|run| - 1] == s;
    assert IsRun(run + [t]);
  }

  /** From three fresh operations, any number of fresh blocks up to the whole log can be logged. */
  lemma {:induction false} FillReachable(k: nat)
    requires k <= SPACE
    ensures Reachable(Filled(k))
  {
    if k == 0 {
      assert IsRun([BOOT]);
      StepReachable(BOOT, State([], [0], false));
      StepReachable(State([], [0], false), State([], [0, 0], false));
      StepReachable(State([], [0, 0], false), State([], [0, 0, 0], false));
    } else {
      FillReachable(k - 1);
      assert LogWrite(Filled(k - 1), Filled(k), (k - 1) / MAX, k - 1);
      StepReachable(Filled(k - 1), Filled(k));
    }
  }

  /** Blocks 0..k-1 logged, each operation filling its own share in turn. */
  function Filled(k: nat): State {
    State(seq(k, i => i), [Share(k, 0), Share(k, 1), Share(k, 2)], false)
  }

  function Share(k: nat, i: nat): nat {
    if k <= i * MAX then 0 else if k >= (i + 1) * MAX then MAX else k - i * MAX
  }

  /** Counterexample: an operation within its budget that logs an already logged block again can panic. */
  lemma AbsorptionCanPanic()
    ensures exists s :: Reachable(s) && Panics(s) && |s.used| == 3 && 0 in s.logged
  {
    FillReachable(SPACE);
    assert Filled(SPACE).logged[0] == 0;
  }
}
