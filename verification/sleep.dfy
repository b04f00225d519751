/** sleep and wakeup of kernel/proc.c around a condition lock, and the sleep lock of kernel/sleeplock.c,
    as interleaved atomic steps. A process's own lock is held by it between Sleep2 and Asleep; a waker
    needs that lock for the moment it looks at the process. */
module SleepWakeup {

  /** Where a process is. Comments name the lock(s) it holds: lk is the condition lock. */
  datatype Pc =
    | Away              // not using the channel
    | WantCheck         // about to acquire lk, to check the condition
    | Check             // lk; evaluates the condition
    | Sleep1            // lk; condition was false, about to acquire its own lock
    | Sleep2            // lk and its own lock; about to release lk
    | Sleep3            // its own lock; about to mark itself SLEEPING and switch away
    | Asleep            // switched away; SLEEPING until a waker or kill makes it RUNNABLE
    | Passed            // lk; condition was true and acted upon, about to release lk
    | WantChange        // about to acquire lk, to make the condition true
    | Change            // lk; about to make the condition true
    | Scan(next: nat)   // lk; inside wakeup's loop, about to look at process `next`

  datatype Proc = Proc(pc: Pc, sleeping: bool)

  /** `inside`: processes that passed the check and have not made the condition true again since. */
  datatype State = State(procs: seq<Proc>, lk: set<nat>, cond: bool, inside: set<nat>)

  function Go(s: State, p: nat, pc: Pc): State
    requires p < |s.procs|
  {
    s.(procs := s.procs[p := s.procs[p].(pc := pc)])
  }

  predicate HoldsOwnLock(q: Proc) {
    q.pc in {Sleep2, Sleep3}
  }

  datatype Action =
    | Start(change: bool) | Acquire | Test(clear: bool) | LockSelf | DropLk | FallAsleep | Resume | Leave | MakeTrue | Look | Kill

  /** One atomic step of process p. */
  ghost predicate Step(s: State, t: State, p: nat, a: Action) {
    && p < |s.procs|
    && var pc := s.procs[p].pc;
       match a
       case Start(change) => pc == Away && t == Go(s, p, if change then WantChange else WantCheck)
       case Acquire =>
         && pc in {WantCheck, WantChange} && s.lk == {}
         && t == Go(s, p, if pc == WantCheck then Check else Change).(lk := {p})
       case Test(clear) =>
         && pc == Check
         && t == if s.cond then Go(s, p, Passed).(cond := !clear, inside := s.inside + {p}) else Go(s, p, Sleep1)
       case LockSelf => pc == Sleep1 && t == Go(s, p, Sleep2)
       case DropLk => pc == Sleep2 && t == Go(s, p, Sleep3).(lk := s.lk - {p})
       case FallAsleep =>
         pc == Sleep3 && t == s.(procs := s.procs[p := Proc(Asleep, true)])
       case Resume => pc == Asleep && !s.procs[p].sleeping && t == Go(s, p, WantCheck)
       case Leave =>
         && (pc == Passed || (pc.Scan? && pc.next >= |s.procs|))
         && t == Go(s, p, Away).(lk := s.lk - {p})
       case MakeTrue => pc == Change && t == Go(s, p, Scan(0)).(cond := true, inside := s.inside - {p})
       case Look =>
         && pc.Scan? && pc.next < |s.procs|
         && (pc.next != p ==> !HoldsOwnLock(s.procs[pc.next]))
         && t == Looked(s, p, pc.next)
       case Kill =>
         // kkill makes a sleeper RUNNABLE, and may do so at any time it is not holding its own lock
         && !HoldsOwnLock(s.procs[p])
         && t == s.(procs := s.procs[p := s.procs[p].(sleeping := false)])
  }

  /** wakeup looks at process q and makes it RUNNABLE if it sleeps on the channel. */
  function Looked(s: State, p: nat, q: nat): State
    requires p < |s.procs| && q < |s.procs|
  {
    var woken := if q != p then s.(procs := s.procs[q := s.procs[q].(sleeping := false)]) else s;
    Go(woken, p, Scan(q + 1))
  }

  ghost predicate Next(s: State, t: State) {
    exists p, a :: Step(s, t, p, a)
  }

  ghost predicate Init(s: State) {
    && s.lk == {} && s.inside == {}
    && forall p :: 0 <= p < |s.procs| ==> s.procs[p] == Proc(Away, false)
  }

  ghost predicate IsRun(run: seq<State>) {
    && |run| > 0 && Init(run[0])
    && forall k :: 0 < k < |run| ==> Next(run[k - 1], run[k])
  }

  // ----- The invariant -----

  predicate HoldsLk(pc: Pc) {
    pc in {Check, Sleep1, Sleep2, Passed, Change} || pc.Scan?
  }

  /** Some waker is still going to look at process p. */
  ghost predicate StillToCome(s: State, p: nat) {
    exists w :: 0 <= w < |s.procs| && s.procs[w].pc.Scan? && s.procs[w].pc.next <= p && w != p
  }

  ghost predicate LkOk(s: State) {
    && (forall p :: 0 <= p < |s.procs| ==> (p in s.lk <==> HoldsLk(s.procs[p].pc)))
    && (forall p :: p in s.lk ==> p < |s.procs|)
    && (forall p, q :: p in s.lk && q in s.lk ==> p == q)
  }

  /** A process that decided to sleep still sees a false condition, or a waker is on its way to it. */
  ghost predicate ProcOk(s: State, p: nat)
    requires p < |s.procs|
  {
    && (s.procs[p].sleeping ==> s.procs[p].pc == Asleep)
    && (s.procs[p].pc in {Sleep1, Sleep2} ==> !s.cond)
    && ((s.procs[p].pc == Sleep3 || s.procs[p].sleeping) && s.cond ==> StillToCome(s, p))
  }

  ghost predicate Inv(s: State) {
    && LkOk(s)
    && forall p :: 0 <= p < |s.procs| ==> ProcOk(s, p)
  }

  /** What a step of p does to another process q. */
  lemma OthersKept(s: State, t: State, p: nat, a: Action, q: nat)
    requires Inv(s) && Step(s, t, p, a) && q < |s.procs| && q != p
    ensures |t.procs| == |s.procs|
    ensures t.procs[q].pc == s.procs[q].pc
    ensures t.procs[q].sleeping ==> s.procs[q].sleeping
  {
  }

  lemma StepKeepsLk(s: State, t: State, p: nat, a: Action)
    requires Inv(s) && Step(s, t, p, a)
    ensures LkOk(t)
  {
    forall q | 0 <= q < |t.procs|
      ensures q in t.lk <==> HoldsLk(t.procs[q].pc)
    {
      if q != p {
        OthersKept(s, t, p, a, q);
      }
    }
  }

  lemma StepKeepsProc(s: State, t: State, p: nat, a: Action, q: nat)
    requires Inv(s) && Step(s, t, p, a) && q < |s.procs|
    ensures |t.procs| == |s.procs|
    ensures ProcOk(t, q)
  {
    assert ProcOk(s, q);
    if q != p {
      OthersKept(s, t, p, a, q);
    }
    if t.cond && (t.procs[q].pc == Sleep3 || t.procs[q].sleeping) {
      if s.cond && (s.procs[q].pc == Sleep3 || s.procs[q].sleeping) {
        var w :| 0 <= w < |s.procs| && s.procs[w].pc.Scan? && s.procs[w].pc.next <= q && w != q;
        WakerComes(s, t, p, a, q, w);
      } else {
        assert a == MakeTrue;
        assert t.procs[p].pc == Scan(0);
      }
    }
  }

  /** A waker on its way to q stays on its way until it has woken q. */
  lemma WakerComes(s: State, t: State, p: nat, a: Action, q: nat, w: nat)
    requires Inv(s) && Step(s, t, p, a) && q < |s.procs|
    requires w < |s.procs| && s.procs[w].pc.Scan? && s.procs[w].pc.next <= q && w != q
    requires t.procs[q].pc == Sleep3 || t.procs[q].sleeping
    requires |t.procs| == |s.procs|
    ensures StillToCome(t, q)
  {
    if w != p {
      OthersKept(s, t, p, a, w);
      assert t.procs[w].pc == s.procs[w].pc;
    } else {
      assert t.procs[w].pc.Scan? && t.procs[w].pc.next <= q;
    }
  }

  lemma NextKeepsInv(s: State, t: State)
    requires Inv(s) && Next(s, t)
    ensures Inv(t)
  {
    var p: nat, a :| Step(s, t, p, a);
    StepKeepsLk(s, t, p, a);
    assert |t.procs| == |s.procs|;
    forall q | 0 <= q < |t.procs|
      ensures ProcOk(t, q)
    {
      StepKeepsProc(s, t, p, a, q);
    }
  }

  lemma {:induction false} InvHolds(run: seq<State>)
    requires IsRun(run)
    ensures Inv(run[|run| - 1])
  {
    if |run| > 1 {
      InvHolds(run[..|run| - 1]);
      NextKeepsInv(run[|run| - 2], run[|run| - 1]);
    }
  }

  /** A waker is between its change of the condition and the end of its scan. */
  ghost predicate WakerBusy(s: State) {
    exists w :: 0 <= w < |s.procs| && s.procs[w].pc.Scan?
  }

  /** No lost wakeup: whenever the condition holds and no waker is between its change and the end of its
      scan, nobody is SLEEPING on the channel. */
  lemma NoLostWakeup(run: seq<State>, p: nat)
    requires IsRun(run) && p < |run[|run| - 1].procs|
    requires run[|run| - 1].cond && !WakerBusy(run[|run| - 1])
    ensures !run[|run| - 1].procs[p].sleeping
  {
    InvHolds(run);
    assert ProcOk(run[|run| - 1], p);
  }

  // ----- Progress -----

  /** In a call: neither away nor asleep for good. */
  predicate Active(q: Proc) {
    q.pc != Away && !(q.pc == Asleep && q.sleeping)
  }

  /** A step of its own that takes a call further. */
  ghost predicate Advances(s: State, t: State, p: nat) {
    exists a: Action :: !a.Start? && !a.Kill? && Step(s, t, p, a)
  }

  lemma Steps(s: State, t: State, p: nat, a: Action)
    requires !a.Start? && !a.Kill? && Step(s, t, p, a)
    ensures Advances(s, t, p)
  {
    hide Step;
  }

  /** No deadlock: in every reachable state in which some call is going on, some call can go on. */
  lemma NoDeadlock(run: seq<State>, p: nat) returns (q: nat, t: State)
    requires IsRun(run) && p < |run[|run| - 1].procs| && Active(run[|run| - 1].procs[p])
    ensures Advances(run[|run| - 1], t, q)
  {
    var s := run[|run| - 1];
    InvHolds(run);
    assert ProcOk(s, p);
    if s.lk == {} {
      q := p;
      t := FreeStep(s, p);
    } else {
      var h :| h in s.lk;
      q, t := HolderStep(s, h);
    }
  }

  lemma FreeStep(s: State, p: nat) returns (t: State)
    requires Inv(s) && s.lk == {} && p < |s.procs| && Active(s.procs[p])
    ensures Advances(s, t, p)
  {
    var pc := s.procs[p].pc;
    assert p !in s.lk && !HoldsLk(pc);
    if pc == Sleep3 {
      t := s.(procs := s.procs[p := Proc(Asleep, true)]);
      Steps(s, t, p, FallAsleep);
    } else if pc == Asleep {
      t := Go(s, p, WantCheck);
      Steps(s, t, p, Resume);
    } else {
      t := Go(s, p, if pc == WantCheck then Check else Change).(lk := {p});
      Steps(s, t, p, Acquire);
    }
  }

  /** The holder of the condition lock can go on, or the process whose lock it waits for can. */
  lemma HolderStep(s: State, h: nat) returns (q: nat, t: State)
    requires Inv(s) && h in s.lk
    ensures Advances(s, t, q)
  {
    q := h;
    match s.procs[h].pc
    case Check =>
      t := if s.cond then Go(s, h, Passed).(cond := true, inside := s.inside + {h}) else Go(s, h, Sleep1);
      Steps(s, t, h, Test(false));
    case Sleep1 =>
      t := Go(s, h, Sleep2);
      Steps(s, t, h, LockSelf);
    case Sleep2 =>
      t := Go(s, h, Sleep3).(lk := s.lk - {h});
      Steps(s, t, h, DropLk);
    case Passed =>
      t := Go(s, h, Away).(lk := s.lk - {h});
      Steps(s, t, h, Leave);
    case Change =>
      t := Go(s, h, Scan(0)).(cond := true, inside := s.inside - {h});
      Steps(s, t, h, MakeTrue);
    case Scan(n) =>
      q, t := ScanStep(s, h, n);
  }

  lemma ScanStep(s: State, w: nat, n: nat) returns (q: nat, t: State)
    requires Inv(s) && w in s.lk && s.procs[w].pc == Scan(n)
    ensures Advances(s, t, q)
  {
    q := w;
    if n >= |s.procs| {
      t := Go(s, w, Away).(lk := s.lk - {w});
      Steps(s, t, w, Leave);
    } else if n != w && HoldsOwnLock(s.procs[n]) {
      q := n;
      assert n !in s.lk;
      t := s.(procs := s.procs[n := Proc(Asleep, true)]);
      Steps(s, t, n, FallAsleep);
    } else {
      t := Looked(s, w, n);
      Steps(s, t, w, Look);
    }
  }

  /** A scan can always be brought to its end, whatever the others were doing, without undoing the condition. */
  lemma {:induction false} ScanEnds(run: seq<State>, w: nat) returns (run': seq<State>)
    requires IsRun(run) && w < |run[|run| - 1].procs| && run[|run| - 1].procs[w].pc.Scan?
    ensures IsRun(run') && run <= run' && |run'[|run'| - 1].procs| == |run[|run| - 1].procs|
    ensures run'[|run'| - 1].procs[w].pc == Away && run'[|run'| - 1].cond == run[|run| - 1].cond && run'[|run'| - 1].lk == {}
    decreases |run[|run| - 1].procs| - run[|run| - 1].procs[w].pc.next, if Blocked(run[|run| - 1], w) then 1 else 0
  {
    var s := run[|run| - 1];
    InvHolds(run);
    var n := s.procs[w].pc.next;
    assert s.lk == {w};
    if n >= |s.procs| {
      var t := Go(s, w, Away).(lk := s.lk - {w});
      assert Step(s, t, w, Leave);
      run' := Extend(run, t);
    } else if Blocked(s, w) {
      assert n !in s.lk;
      var t := s.(procs := s.procs[n := Proc(Asleep, true)]);
      assert Step(s, t, n, FallAsleep);
      run' := Extend(run, t);
      run' := ScanEnds(run', w);
    } else {
      var t := Looked(s, w, n);
      assert Step(s, t, w, Look);
      run' := Extend(run, t);
      run' := ScanEnds(run', w);
    }
  }

  /** The waker needs the lock of a process that is about to fall asleep. */
  predicate Blocked(s: State, w: nat)
    requires w < |s.procs| && s.procs[w].pc.Scan?
  {
    var n := s.procs[w].pc.next;
    n < |s.procs| && n != w && HoldsOwnLock(s.procs[n])
  }

  lemma Extend(run: seq<State>, t: State) returns (run': seq<State>)
    requires IsRun(run) && Next(run[|run| - 1], t)
    ensures IsRun(run') && run' == run + [t] && run <= run'
  {
    hide Next, Init;
    run' := run + [t];
  }

  /** So every wakeup can be completed, and then nobody sleeps. */
  lemma WakeupWakes(run: seq<State>, w: nat) returns (run': seq<State>)
    requires IsRun(run) && w < |run[|run| - 1].procs| && run[|run| - 1].procs[w].pc.Scan? && run[|run| - 1].cond
    ensures IsRun(run') && run <= run' && |run'[|run'| - 1].procs| == |run[|run| - 1].procs|
    ensures
      var t := run'[|run'| - 1];
      forall p :: 0 <= p < |t.procs| ==> !t.procs[p].sleeping
  {
    run' := ScanEnds(run, w);
    var t := run'[|run'| - 1];
    InvHolds(run');
    hide IsRun;
    assert LkOk(t);
    forall p | 0 <= p < |t.procs|
      ensures !t.procs[p].sleeping
    {
      assert ProcOk(t, p);
    }
  }

  // ----- The sleep lock: the condition is "not locked" -----

  /** acquiresleep clears the condition when it passes, and only the holder calls releasesleep. */
  ghost predicate LockStep(s: State, t: State, p: nat, a: Action) {
    && Step(s, t, p, a)
    && (a.Test? ==> a.clear)
    && (a == Start(true) ==> p in s.inside)
    && (a == Start(false) ==> p !in s.inside)
  }

  ghost predicate LockNext(s: State, t: State) {
    exists p, a :: LockStep(s, t, p, a)
  }

  ghost predicate IsLockRun(run: seq<State>) {
    && |run| > 0 && Init(run[0]) && run[0].cond
    && forall k :: 0 < k < |run| ==> LockNext(run[k - 1], run[k])
  }

  ghost predicate LockInv(s: State) {
    && Inv(s)
    && (s.cond <==> s.inside == {})
    && (forall p, q :: p in s.inside && q in s.inside ==> p == q)
    && (forall p :: 0 <= p < |s.procs| && s.procs[p].pc in {WantChange, Change} ==> p in s.inside)
  }

  lemma LockStepKeepsInv(s: State, t: State, p: nat, a: Action)
    requires LockInv(s) && LockStep(s, t, p, a)
    ensures LockInv(t)
  {
    NextKeepsInv(s, t);
    forall q | 0 <= q < |t.procs| && t.procs[q].pc in {WantChange, Change}
      ensures q in t.inside
    {
      if q != p {
        OthersKept(s, t, p, a, q);
      }
    }
  }

  /** A sleep lock has at most one holder, and it is marked free exactly when it has none. */
  lemma {:induction false} AtMostOneHolder(run: seq<State>)
    requires IsLockRun(run)
    ensures LockInv(run[|run| - 1])
  {
    if |run| > 1 {
      AtMostOneHolder(run[..|run| - 1]);
      var p: nat, a :| LockStep(run[|run| - 2], run[|run| - 1], p, a);
      LockStepKeepsInv(run[|run| - 2], run[|run| - 1], p, a);
    }
  }
}
