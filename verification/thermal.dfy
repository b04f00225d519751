/** Safety of the thermal scheduler over whole runs on one hart. */
module Thermal {
  import opened Sched
  import opened Wrappers

  // ----- What happens between two rounds -----

  /** Clock ticks taken while no process runs. */
  function IdleTicks(temp: int, k: nat): int
    decreases k
  {
    if k == 0 then temp else IdleTicks(NewTemp(temp, 0), k - 1)
  }

  /** A dispatched process is ticked at most once before it gives up the hart; the scheduler itself may
      then take any number of idle ticks. */
  ghost predicate TempAfter(temp: int, o: Outcome, temp': int) {
    exists k: nat ::
      || temp' == IdleTicks(temp, k)
      || (o.Ran? && temp' == IdleTicks(NewTemp(temp, 1), k))
  }

  /** Processes sleep, wake, exit, are freed and are created. Heat and waiting count are otherwise kept:
      allocproc clears both, freeproc clears the heat. */
  ghost predicate ProcsAfter(ps: seq<Proc>, ps': seq<Proc>) {
    && |ps'| == |ps|
    && forall i :: 0 <= i < |ps| ==>
         && ps'[i].state != RUNNING
         && ((ps'[i].heat == ps[i].heat && ps'[i].waiting == ps[i].waiting)
             || (ps'[i].heat == 0 && ps'[i].waiting in {0, ps[i].waiting}))
  }

  /** One round followed by whatever happens until the next. */
  ghost predicate Next(s: State, o: Outcome, t: State) {
    exists m: State :: Round(s, m, o) && TempAfter(m.temp, o, t.temp) && ProcsAfter(m.procs, t.procs)
  }

  ghost predicate Boot(s: State) {
    && s.temp == 25
    && forall i :: 0 <= i < |s.procs| ==> s.procs[i].heat == 0 && s.procs[i].waiting == 0 && s.procs[i].state != RUNNING
  }

  ghost predicate Steps(run: seq<State>, outs: seq<Outcome>) {
    && |run| == |outs| + 1
    && forall k :: 0 <= k < |outs| ==> Next(run[k], outs[k], run[k + 1])
  }

  ghost predicate IsRun(run: seq<State>, outs: seq<Outcome>) {
    Steps(run, outs) && Boot(run[0])
  }

  // ----- The heat/wait invariant -----

  /** Heat is even, and a process that has waited w rounds has cooled by at least 2w since it was at most 100. */
  predicate HeatOk(p: Proc) {
    && p.heat % 2 == 0
    && 0 <= p.heat <= MAX_HEAT
    && (p.heat > 0 ==> p.heat <= MAX_HEAT - 2 * p.waiting)
  }

  ghost predicate AllHeatOk(ps: seq<Proc>) {
    forall i :: 0 <= i < |ps| ==> HeatOk(ps[i])
  }

  ghost predicate Inv(s: State) {
    && 20 <= s.temp <= 94
    && AllHeatOk(s.procs)
    && forall i :: 0 <= i < |s.procs| ==> s.procs[i].state != RUNNING
  }

  lemma {:induction false} IdleTicksCool(temp: int, k: nat)
    requires temp >= 20
    ensures 20 <= IdleTicks(temp, k) <= temp
  {
    if k > 0 {
      IdleTicksCool(NewTemp(temp, 0), k - 1);
    }
  }

  /** Idle cooling in closed form: two degrees a tick down to 50, then one a tick, down to 20. */
  lemma {:induction false} IdleTicksExact(temp: int, k: nat)
    requires 20 <= temp <= 100
    ensures
      var fast := if temp > 50 then (temp - 49) / 2 else 0;
      var t := if k <= fast then temp - 2 * k else temp - fast - k;
      IdleTicks(temp, k) == if t < 20 then 20 else t
  {
    hide NewTemp;
    if k > 0 {
      IdleStep(temp);
      IdleTicksExact(NewTemp(temp, 0), k - 1);
    }
  }

  lemma IdleStep(temp: int)
    requires 20 <= temp <= 100
    ensures NewTemp(temp, 0) == if temp > 50 then temp - 2 else if temp > 20 then temp - 1 else 20
  {
  }

  /** Temperature between rounds: dispatch happens below 90 and adds at most 4, one running tick adds 1. */
  lemma TempAfterRound(s: State, m: State, o: Outcome, temp': int)
    requires 20 <= s.temp <= 94 && AllHeatOk(s.procs)
    requires Round(s, m, o) && TempAfter(m.temp, o, temp')
    ensures 20 <= temp' <= 94
    ensures o == Throttled ==> temp' <= s.temp - 2
  {
    var mid: seq<Proc> :| DecayedTo(s.procs, mid) && RoundFrom(s.temp, mid, m, o);
    if o.Ran? {
      assert HeatOk(s.procs[o.i]) && mid[o.i] == Cooled(s.procs[o.i]);
    }
    var k: nat :| temp' == IdleTicks(m.temp, k) || (o.Ran? && temp' == IdleTicks(NewTemp(m.temp, 1), k));
    IdleTicksCool(m.temp, k);
    IdleTicksCool(NewTemp(m.temp, 1), k);
  }

  lemma HeatAfterRound(s: State, m: State, o: Outcome)
    requires AllHeatOk(s.procs) && Round(s, m, o)
    requires forall i :: 0 <= i < |s.procs| ==> s.procs[i].state != RUNNING
    ensures AllHeatOk(m.procs)
    ensures |m.procs| == |s.procs|
  {
    hide Selects, HeatOk;
    forall i | 0 <= i < |m.procs|
      ensures HeatOk(m.procs[i])
    {
      OneAfterRound(s, m, o, i);
      assert HeatOk(s.procs[i]);
      HeatStays(s.procs[i], m.procs[i]);
    }
  }

  /** What a round does to one process: it cools, and is then dispatched, or waits if it is RUNNABLE. */
  ghost predicate OneRound(p: Proc, q: Proc) {
    || q == Dispatched(Cooled(p))
    || q == Cooled(p)
    || (p.state == RUNNABLE && q == Cooled(p).(waiting := p.waiting + 1))
  }

  lemma OneAfterRound(s: State, m: State, o: Outcome, i: nat)
    requires Round(s, m, o)
    ensures |m.procs| == |s.procs|
    ensures i < |s.procs| ==> OneRound(s.procs[i], m.procs[i]) && (o != Ran(i) ==> m.procs[i].heat == Cooled(s.procs[i]).heat)
  {
    var mid: seq<Proc> :| DecayedTo(s.procs, mid) && RoundFrom(s.temp, mid, m, o);
    hide LeastPid, Coolest, NoneReadyChild, NoneReady;
    if o.Ran? && i != o.i && i < |s.procs| {
      assert m.procs[o.i := mid[o.i]][i] == m.procs[i];
    }
  }

  lemma HeatStays(p: Proc, q: Proc)
    requires HeatOk(p) && p.state != RUNNING && OneRound(p, q)
    ensures HeatOk(q)
  {
  }

  lemma NextKeepsInv(s: State, o: Outcome, t: State)
    requires Inv(s) && Next(s, o, t)
    ensures Inv(t)
    ensures o == Throttled ==> THROTTLE_TEMP <= s.temp && t.temp <= s.temp - 2
  {
    var m: State :| Round(s, m, o) && TempAfter(m.temp, o, t.temp) && ProcsAfter(m.procs, t.procs);
    TempAfterRound(s, m, o, t.temp);
    HeatAfterRound(s, m, o);
    hide Round, TempAfter;
    forall i | 0 <= i < |t.procs|
      ensures HeatOk(t.procs[i])
    {
      assert HeatOk(m.procs[i]);
    }
  }

  /** Thermal safety and the heat/wait invariant hold at the start of every round of every run. */
  lemma {:induction false} InvHolds(run: seq<State>, outs: seq<Outcome>, k: nat)
    requires IsRun(run, outs) && k < |run|
    ensures Inv(run[k])
  {
    if k > 0 {
      InvHolds(run, outs, k - 1);
      NextKeepsInv(run[k - 1], outs[k - 1], run[k]);
    }
  }

  // ----- Throttling ends -----

  /** Consecutive throttled rounds lower the temperature by at least two each. */
  lemma {:induction false} ThrottledRoundsCool(run: seq<State>, outs: seq<Outcome>, n: nat)
    requires Steps(run, outs) && n <= |outs|
    requires 20 <= run[0].temp <= 100
    requires forall k :: 0 <= k < n ==> outs[k] == Throttled
    ensures n > 0 ==> run[n - 1].temp >= THROTTLE_TEMP
    ensures 20 <= run[n].temp <= run[0].temp - 2 * n
  {
    if n > 0 {
      ThrottledRoundsCool(run, outs, n - 1);
      var s, t := run[n - 1], run[n];
      assert Next(s, Throttled, t);
      var m: State :| Round(s, m, Throttled) && TempAfter(m.temp, Throttled, t.temp) && ProcsAfter(m.procs, t.procs);
      var k: nat :| t.temp == IdleTicks(m.temp, k);
      IdleTicksCool(m.temp, k);
    }
  }

  /** From any clamped temperature at most six rounds in a row are throttled. */
  lemma AtMostSixThrottled(run: seq<State>, outs: seq<Outcome>)
    requires Steps(run, outs) && |outs| >= 7 && 20 <= run[0].temp <= 100
    ensures exists k :: 0 <= k < 7 && outs[k] != Throttled
  {
    if forall k :: 0 <= k < 7 ==> outs[k] == Throttled {
      ThrottledRoundsCool(run, outs, 7);
      ThrottledRoundsCool(run, outs, 6);
    }
  }

  /** In a run from boot at most three rounds in a row are throttled. */
  lemma AtMostThreeThrottled(run: seq<State>, outs: seq<Outcome>, a: nat)
    requires IsRun(run, outs) && a + 4 <= |outs|
    ensures exists k :: a <= k < a + 4 && outs[k] != Throttled
  {
    InvHolds(run, outs, a);
    if forall k :: a <= k < a + 4 ==> outs[k] == Throttled {
      var run', outs' := run[a..a + 5], outs[a..a + 4];
      assert Steps(run', outs');
      ThrottledRoundsCool(run', outs', 4);
      ThrottledRoundsCool(run', outs', 3);
    }
  }

  // ----- The starvation bypass never matters -----

  /** In every reachable state, at selection time, the gate decides the same with and without the
      STARVE_TICKS bypass. */
  lemma BypassNeverMatters(run: seq<State>, outs: seq<Outcome>, k: nat, i: nat, temp: int)
    requires IsRun(run, outs) && k < |run| && i < |run[k].procs|
    ensures Gated(Cooled(run[k].procs[i]), temp) <==> GatedByHeat(Cooled(run[k].procs[i]), temp)
  {
    InvHolds(run, outs, k);
    assert HeatOk(run[k].procs[i]);
  }

  // ----- Selection -----

  /** Work conservation: an unthrottled round runs a process whenever one is RUNNABLE, and runs a gated one
      only if every RUNNABLE process is gated. */
  lemma RunsWhenPossible(s: State, m: State, o: Outcome)
    requires Inv(s) && Round(s, m, o) && s.temp < THROTTLE_TEMP
    ensures (exists i :: 0 <= i < |s.procs| && s.procs[i].state == RUNNABLE) <==> o.Ran?
    ensures o.Ran? ==> o.i < |s.procs| && s.procs[o.i].state == RUNNABLE
    ensures o.Ran? && Gated(Cooled(s.procs[o.i]), s.temp) ==>
      forall j :: 0 <= j < |s.procs| && s.procs[j].state == RUNNABLE ==> Gated(Cooled(s.procs[j]), s.temp)
  {
    var mid: seq<Proc> :| DecayedTo(s.procs, mid) && RoundFrom(s.temp, mid, m, o);
    assert forall j :: 0 <= j < |s.procs| ==> mid[j] == Cooled(s.procs[j]) && mid[j].state == s.procs[j].state;
  }

  // ----- Bounded dispatch -----

  /** Process c is RUNNABLE and has the least PID of all RUNNABLE test children. */
  ghost predicate FirstChild(ps: seq<Proc>, c: nat) {
    && c < |ps| && ps[c].state == RUNNABLE && ps[c].child
    && forall j :: 0 <= j < |ps| && j != c && ps[j].state == RUNNABLE && ps[j].child ==> ps[c].pid < ps[j].pid
  }

  lemma FirstChildInTable(ps: seq<Proc>, c: nat)
    requires FirstChild(ps, c)
    ensures c < |ps|
  {
  }

  /** In a round that neither throttles nor runs c, c stays gated, and it has cooled by two. */
  lemma PassedOver(s: State, o: Outcome, t: State, c: nat)
    requires Inv(s) && Next(s, o, t) && FirstChild(s.procs, c) && o != Ran(c)
    ensures c < |t.procs|
    ensures o != Throttled ==> s.procs[c].heat >= HEAT_COOL_THRESH + HEAT_DECAY
    ensures t.procs[c].heat <= s.procs[c].heat - HEAT_DECAY || t.procs[c].heat == 0
  {
    var m: State :| Round(s, m, o) && TempAfter(m.temp, o, t.temp) && ProcsAfter(m.procs, t.procs);
    hide Round, TempAfter;
    OneAfterRound(s, m, o, c);
    assert HeatOk(s.procs[c]);
    if o != Throttled {
      Skipped(s, m, o, c);
    }
  }

  /** The lowest-PID test child is passed over only if it is gated. */
  lemma Skipped(s: State, m: State, o: Outcome, c: nat)
    requires Round(s, m, o) && FirstChild(s.procs, c) && o != Ran(c) && o != Throttled
    ensures !ReadyChild(Cooled(s.procs[c]), s.temp)
  {
    hide ReadyChild, AgedTo;
    var mid: seq<Proc> :| DecayedTo(s.procs, mid) && RoundFrom(s.temp, mid, m, o);
    assert mid[c] == Cooled(s.procs[c]);
    assert forall j :: 0 <= j < |s.procs| ==> mid[j] == Cooled(s.procs[j]);
    if ReadyChild(mid[c], s.temp) {
      OnlyTheFirst(s.procs, mid, s.temp, c, o);
    }
  }

  lemma OnlyTheFirst(ps: seq<Proc>, mid: seq<Proc>, temp: int, c: nat, o: Outcome)
    requires DecayedTo(ps, mid) && FirstChild(ps, c) && ReadyChild(mid[c], temp)
    requires o.Idled? || o.Ran?
    requires Selects(mid, temp, if o.Ran? then Some(o.i) else None)
    ensures o == Ran(c)
  {
    assert mid[c] == Cooled(ps[c]);
    if o.Ran? {
      assert o.i < |ps| && mid[o.i] == Cooled(ps[o.i]);
    }
  }

  /** While c waits as first child, its heat after n rounds is at most 100 - 2n. */
  lemma {:induction false} WaitingCools(run: seq<State>, outs: seq<Outcome>, a: nat, n: nat, c: nat)
    requires IsRun(run, outs) && a + n <= |outs|
    requires forall k :: a <= k < a + n ==> FirstChild(run[k].procs, c) && outs[k] != Ran(c)
    requires c < |run[a].procs|
    ensures c < |run[a + n].procs|
    ensures run[a + n].procs[c].heat <= MAX_HEAT - 2 * n || run[a + n].procs[c].heat == 0
  {
    hide Next, Boot;
    InvHolds(run, outs, a + n);
    if n == 0 {
      assert HeatOk(run[a].procs[c]);
    } else {
      WaitingCools(run, outs, a, n - 1, c);
      InvHolds(run, outs, a + n - 1);
      assert Next(run[a + n - 1], outs[a + n - 1], run[a + n]);
      PassedOver(run[a + n - 1], outs[a + n - 1], run[a + n], c);
      assert HeatOk(run[a + n].procs[c]);
    }
  }

  /** Bounded dispatch: a process that stays the lowest-PID RUNNABLE test child runs within 39 rounds. */
  lemma DispatchedWithin39(run: seq<State>, outs: seq<Outcome>, a: nat, c: nat)
    requires IsRun(run, outs) && a + 39 <= |outs|
    requires forall k :: a <= k < a + 39 ==> FirstChild(run[k].procs, c)
    ensures exists k :: a <= k < a + 39 && outs[k] == Ran(c)
  {
    hide Next, Boot, Inv, FirstChild;
    if forall k :: a <= k < a + 39 ==> outs[k] != Ran(c) {
      AtMostThreeThrottled(run, outs, a + 35);
      var k :| a + 35 <= k < a + 39 && outs[k] != Throttled;
      FirstChildInTable(run[a].procs, c);
      WaitingCools(run, outs, a, k - a, c);
      InvHolds(run, outs, k);
      PassedOver(run[k], outs[k], run[k + 1], c);
      assert false;
    }
  }
}
