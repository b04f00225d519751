/** The thermal-aware scheduler of kernel/proc.c: one hart, one scheduler round at a time. */
module Sched {
  import opened Wrappers

  const WARM_TEMP := 60
  const HOT_TEMP := 80
  const THROTTLE_TEMP := 90
  const HEAT_INCREMENT := 10
  const HEAT_DECAY := 2
  const MAX_HEAT := 100
  const HEAT_COOL_THRESH := 30
  const HEAT_WARM_THRESH := 60
  const STARVE_TICKS := 200

  datatype ProcState = UNUSED | USED | SLEEPING | RUNNABLE | RUNNING | ZOMBIE

  /** `child` tells whether the parent is a thermal-test program. */
  datatype Proc = Proc(state: ProcState, pid: int, heat: int, waiting: nat, child: bool)

  /** What a round did: cool down, find nothing to run, or run the i-th process. */
  datatype Outcome = Throttled | Idled | Ran(i: nat)

  /** update_cpu_temp: an idle step cools by two degrees above 50 and by one below, a running process heats by one to
      four degrees with its heat, and the temperature stays within 20 and 100. */
  function NewTemp(temp: int, processHeat: int): (r: int)
    ensures 20 <= r <= 100
    ensures processHeat <= 0 && 50 < temp <= 100 ==> r == temp - 2
    ensures processHeat <= 0 && 20 < temp <= 50 ==> r == temp - 1
    ensures processHeat <= 0 && temp == 20 ==> r == 20
    ensures 1 <= processHeat <= 29 && 20 <= temp <= 99 ==> r == temp + 1
    ensures 30 <= processHeat <= 59 && 20 <= temp <= 98 ==> r == temp + 2
    ensures 60 <= processHeat <= 89 && 20 <= temp <= 97 ==> r == temp + 3
    ensures 90 <= processHeat <= 100 && 20 <= temp <= 96 ==> r == temp + 4
    ensures processHeat > 0 && temp <= 100 < temp + 1 + processHeat / 30 ==> r == 100
  {
    var t := if processHeat > 0 then temp + 1 + processHeat / 30 else temp - (if temp > 50 then 2 else 1);
    if t > 100 then 100 else if t < 20 then 20 else t
  }

  /** The thermal gate, with the starvation bypass. */
  predicate Gated(p: Proc, temp: int) {
    && p.waiting < STARVE_TICKS
    && GatedByHeat(p, temp)
  }

  /** The thermal gate without the bypass. */
  predicate GatedByHeat(p: Proc, temp: int) {
    || (temp >= HOT_TEMP && p.heat >= HEAT_COOL_THRESH)
    || (temp >= WARM_TEMP && p.heat >= HEAT_WARM_THRESH)
  }

  /** One process after the decay of step 1. */
  function Cooled(p: Proc): Proc {
    if p.state in {RUNNABLE, SLEEPING} && p.heat > 0 then
      p.(heat := if p.heat - HEAT_DECAY < 0 then 0 else p.heat - HEAT_DECAY)
    else p
  }

  ghost predicate DecayedTo(before: seq<Proc>, after: seq<Proc>) {
    && |after| == |before|
    && forall i :: 0 <= i < |before| ==> after[i] == Cooled(before[i])
  }

  // ----- What selection promises -----

  predicate Ready(p: Proc, temp: int) {
    p.state == RUNNABLE && !Gated(p, temp)
  }

  predicate ReadyChild(p: Proc, temp: int) {
    Ready(p, temp) && p.child
  }

  /** The ungated test child with the least PID, the first in the table among equals. */
  ghost predicate LeastPid(ps: seq<Proc>, temp: int, i: nat) {
    && i < |ps| && ReadyChild(ps[i], temp)
    && forall j :: 0 <= j < |ps| && ReadyChild(ps[j], temp) ==>
         ps[i].pid < ps[j].pid || (ps[i].pid == ps[j].pid && i <= j)
  }

  /** The ungated process with the least heat, the first in the table among equals. */
  ghost predicate Coolest(ps: seq<Proc>, temp: int, i: nat) {
    && i < |ps| && Ready(ps[i], temp)
    && forall j :: 0 <= j < |ps| && Ready(ps[j], temp) ==>
         ps[i].heat < ps[j].heat || (ps[i].heat == ps[j].heat && i <= j)
  }

  ghost predicate FirstRunnable(ps: seq<Proc>, i: nat) {
    && i < |ps| && ps[i].state == RUNNABLE
    && forall j :: 0 <= j < i ==> ps[j].state != RUNNABLE
  }

  ghost predicate NoneReadyChild(ps: seq<Proc>, temp: int) {
    forall j :: 0 <= j < |ps| ==> !ReadyChild(ps[j], temp)
  }

  ghost predicate NoneReady(ps: seq<Proc>, temp: int) {
    forall j :: 0 <= j < |ps| ==> !Ready(ps[j], temp)
  }

  ghost predicate NoneRunnable(ps: seq<Proc>) {
    forall j :: 0 <= j < |ps| ==> ps[j].state != RUNNABLE
  }

  ghost predicate Selects(ps: seq<Proc>, temp: int, c: Option<nat>) {
    match c
    case None => NoneRunnable(ps)
    case Some(i) =>
      || LeastPid(ps, temp, i)
      || (NoneReadyChild(ps, temp) && Coolest(ps, temp, i))
      || (NoneReady(ps, temp) && FirstRunnable(ps, i))
  }

  // ----- One round -----

  ghost predicate AgedTo(before: seq<Proc>, after: seq<Proc>, chosen: Option<nat>) {
    && |after| == |before|
    && forall i :: 0 <= i < |before| ==>
         after[i] == if before[i].state == RUNNABLE && chosen != Some(i)
                     then before[i].(waiting := before[i].waiting + 1) else before[i]
  }

  /** The chosen process as it is switched to. */
  function Dispatched(p: Proc): Proc {
    p.(state := RUNNING, waiting := 0,
       heat := if p.heat + HEAT_INCREMENT > MAX_HEAT then MAX_HEAT else p.heat + HEAT_INCREMENT)
  }

  datatype State = State(temp: int, procs: seq<Proc>)

  /** Steps 1 to 5 of one round, from decay up to the switch (or the idle). */
  ghost predicate Round(s: State, t: State, o: Outcome) {
    exists mid: seq<Proc> :: DecayedTo(s.procs, mid) && RoundFrom(s.temp, mid, t, o)
  }

  ghost predicate RoundFrom(temp: int, mid: seq<Proc>, t: State, o: Outcome) {
    match o
    case Throttled => temp >= THROTTLE_TEMP && t == State(NewTemp(temp, 0), mid)
    case Idled => temp < THROTTLE_TEMP && Selects(mid, temp, None) && t == State(NewTemp(temp, 0), mid)
    case Ran(i) =>
      && temp < THROTTLE_TEMP
      && Selects(mid, temp, Some(i))
      && |t.procs| == |mid|
      && AgedTo(mid, t.procs[i := mid[i]], Some(i))
      && t.procs[i] == Dispatched(mid[i])
      && t.temp == NewTemp(temp, Dispatched(mid[i]).heat)
  }

  // ----- What a round comes to -----

  /** The exact choice between two RUNNABLE processes, in the numbers of the source: the process that runs is gated only
      if the other is and comes later in the table; among ungated ones a test child comes before others, the lower PID
      before the higher, and between processes that are no test children the cooler before the hotter. */
  lemma DispatchRule(s: State, t: State, i: nat, j: nat)
    requires Round(s, t, Ran(i)) && j < |s.procs| && j != i
    requires s.procs[j].state == RUNNABLE && s.procs[j].heat >= 0
    ensures i < |s.procs| && s.procs[i].state == RUNNABLE
    ensures s.procs[i].heat >= 0 ==>
      var p, q := s.procs[i], s.procs[j];
      var a, b := if p.heat >= 2 then p.heat - 2 else 0, if q.heat >= 2 then q.heat - 2 else 0;
      var pGated := p.waiting < 200 && ((s.temp >= 80 && a >= 30) || (s.temp >= 60 && a >= 60));
      var qGated := q.waiting < 200 && ((s.temp >= 80 && b >= 30) || (s.temp >= 60 && b >= 60));
      && (pGated ==> qGated && i < j)
      && (!pGated && !qGated && q.child ==> p.child && (p.pid < q.pid || (p.pid == q.pid && i < j)))
      && (!pGated && !qGated && !p.child ==> a < b || (a == b && i < j))
  {
    var mid: seq<Proc> :| DecayedTo(s.procs, mid) && RoundFrom(s.temp, mid, t, Ran(i));
    assert mid[i] == Cooled(s.procs[i]) && mid[j] == Cooled(s.procs[j]);
    assert ReadyChild(mid[j], s.temp) <==> Ready(mid[j], s.temp) && s.procs[j].child;
    hide AgedTo, NewTemp, Dispatched, DecayedTo;
  }

  /** What a round does to the table and the temperature. */
  lemma RoundEffect(s: State, t: State, o: Outcome, j: nat)
    requires Round(s, t, o) && j < |s.procs| && s.procs[j].heat >= 0
    ensures |t.procs| == |s.procs| && (o.Throttled? <==> s.temp >= 90) && (o.Idled? ==> s.procs[j].state != RUNNABLE)
    ensures
      var p := s.procs[j];
      var cool := if p.state !in {RUNNABLE, SLEEPING} then p.heat else if p.heat >= 2 then p.heat - 2 else 0;
      if o == Ran(j) then
        && t.procs[j] == p.(state := RUNNING, waiting := 0, heat := if cool > 90 then 100 else cool + 10)
        && t.temp == NewTemp(s.temp, t.procs[j].heat)
      else
        && t.procs[j] == p.(heat := cool, waiting := if o.Ran? && p.state == RUNNABLE then p.waiting + 1 else p.waiting)
        && (o.Ran? || t.temp == NewTemp(s.temp, 0))
  {
    var mid: seq<Proc> :| DecayedTo(s.procs, mid) && RoundFrom(s.temp, mid, t, o);
    assert mid[j] == Cooled(s.procs[j]);
    hide NewTemp, LeastPid, Coolest, NoneReady, NoneReadyChild;
    if o.Ran? && o.i != j {
      assert t.procs[o.i := mid[o.i]][j] == t.procs[j];
    }
  }

  class Scheduler {
    var temp: int
    const proc: array<Proc>

    constructor (table: array<Proc>)
      ensures temp == 25 && proc == table
    {
      temp := 25;
      proc := table;
    }

    /** update_cpu_temp. */
    method UpdateCpuTemp(processHeat: int)
      modifies this
      ensures temp == NewTemp(old(temp), processHeat)
      ensures processHeat <= 0 && 20 <= old(temp) <= 100 ==>
        temp == if old(temp) > 50 then old(temp) - 2 else if old(temp) > 20 then old(temp) - 1 else 20
      ensures 1 <= processHeat <= 100 && 20 <= old(temp) <= 96 ==>
        temp == old(temp) + if processHeat < 30 then 1 else if processHeat < 60 then 2 else if processHeat < 90 then 3 else 4
    {
      if processHeat > 0 {
        var factor := 1 + processHeat / 30;
        temp := temp + factor;
      } else {
        temp := temp - (if temp > 50 then 2 else 1);
      }
      if temp > 100 {
        temp := 100;
      } else if temp < 20 {
        temp := 20;
      }
    }

    /** Step 1: heat decay. */
    method Decay()
      modifies proc
      ensures DecayedTo(old(proc[..]), proc[..])
      ensures forall j :: 0 <= j < proc.Length && old(proc[j].state) in {RUNNABLE, SLEEPING} && old(proc[j].heat) >= 0 ==>
        proc[j] == old(proc[j]).(heat := if old(proc[j].heat) >= 2 then old(proc[j].heat) - 2 else 0)
      ensures forall j :: 0 <= j < proc.Length && old(proc[j].state) !in {RUNNABLE, SLEEPING} ==> proc[j] == old(proc[j])
    {
      for i := 0 to proc.Length
        invariant forall j :: 0 <= j < i ==> proc[j] == Cooled(old(proc[j]))
        invariant forall j :: i <= j < proc.Length ==> proc[j] == old(proc[j])
      {
        var p := proc[i];
        if p.state == RUNNABLE || p.state == SLEEPING {
          if p.heat > 0 {
            p := p.(heat := p.heat - HEAT_DECAY);
            if p.heat < 0 {
              p := p.(heat := 0);
            }
            proc[i] := p;
          }
        }
      }
    }

    /** Pass A: the test child with the lowest PID that passes the gate. */
    method PassA() returns (chosen: Option<nat>)
      ensures chosen.Some? ==> LeastPid(proc[..], temp, chosen.value)
      ensures chosen.None? ==> NoneReadyChild(proc[..], temp)
    {
      chosen := None;
      for i := 0 to proc.Length
        invariant chosen.Some? ==> chosen.value < i && LeastPid(proc[..i], temp, chosen.value)
        invariant chosen.None? ==> NoneReadyChild(proc[..i], temp)
      {
        assert proc[..i + 1] == proc[..i] + [proc[i]];
        var p := proc[i];
        if p.state == RUNNABLE {
          var dominated := false;
          if p.waiting < STARVE_TICKS {
            if temp >= HOT_TEMP && p.heat >= HEAT_COOL_THRESH {
              dominated := true;
            } else if temp >= WARM_TEMP && p.heat >= HEAT_WARM_THRESH {
              dominated := true;
            }
          }
          if dominated {
            continue;
          }
          if p.child {
            if chosen.None? || p.pid < proc[chosen.value].pid {
              chosen := Some(i);
            }
          }
        }
      }
      assert proc[..proc.Length] == proc[..];
    }

    /** Pass B: the coolest process that passes the gate; it relies on no heat exceeding MAX_HEAT. */
    method PassB() returns (chosen: Option<nat>)
      ensures chosen.Some? ==> chosen.value < proc.Length && Ready(proc[chosen.value], temp)
      ensures HeatCapped(proc[..]) ==> chosen.Some? ==> Coolest(proc[..], temp, chosen.value)
      ensures HeatCapped(proc[..]) ==> chosen.None? ==> NoneReady(proc[..], temp)
    {
      chosen := None;
      var lowest := MAX_HEAT + 1;
      ghost var capped := HeatCapped(proc[..]);
      for i := 0 to proc.Length
        invariant chosen.Some? ==> chosen.value < i && Ready(proc[chosen.value], temp) && lowest == proc[chosen.value].heat
        invariant chosen.None? ==> lowest == MAX_HEAT + 1
        invariant capped && chosen.Some? ==> Coolest(proc[..i], temp, chosen.value)
        invariant capped && chosen.None? ==> NoneReady(proc[..i], temp)
      {
        assert proc[..i + 1] == proc[..i] + [proc[i]];
        assert capped ==> proc[..][i].heat <= MAX_HEAT;
        var p := proc[i];
        if p.state == RUNNABLE {
          var dominated := false;
          if p.waiting < STARVE_TICKS {
            if temp >= HOT_TEMP && p.heat >= HEAT_COOL_THRESH {
              dominated := true;
            } else if temp >= WARM_TEMP && p.heat >= HEAT_WARM_THRESH {
              dominated := true;
            }
          }
          if dominated {
            continue;
          }
          if p.heat < lowest {
            chosen := Some(i);
            lowest := p.heat;
          }
        }
      }
      assert proc[..proc.Length] == proc[..];
    }

    /** Pass C: the first RUNNABLE process, gated or not. */
    method PassC() returns (chosen: Option<nat>)
      ensures chosen.Some? ==> FirstRunnable(proc[..], chosen.value)
      ensures chosen.None? ==> NoneRunnable(proc[..])
    {
      for i := 0 to proc.Length
        invariant forall j :: 0 <= j < i ==> proc[j].state != RUNNABLE
      {
        if proc[i].state == RUNNABLE {
          return Some(i);
        }
      }
      return None;
    }

    /** Step 3. */
    method Select() returns (chosen: Option<nat>)
      requires HeatCapped(proc[..])
      ensures Selects(proc[..], temp, chosen)
    {
      chosen := PassA();
      if chosen.None? {
        chosen := PassB();
        if chosen.None? {
          chosen := PassC();
        }
      }
    }

    /** Step 4: waiting_tick of every RUNNABLE process that was not chosen. */
    method Age(chosen: Option<nat>)
      modifies proc
      ensures AgedTo(old(proc[..]), proc[..], chosen)
    {
      for i := 0 to proc.Length
        invariant forall j :: 0 <= j < i ==>
          proc[j] == if old(proc[j].state) == RUNNABLE && chosen != Some(j)
                     then old(proc[j]).(waiting := old(proc[j].waiting) + 1) else old(proc[j])
        invariant forall j :: i <= j < proc.Length ==> proc[j] == old(proc[j])
      {
        if proc[i].state == RUNNABLE && chosen != Some(i) {
          proc[i] := proc[i].(waiting := proc[i].waiting + 1);
        }
      }
    }

    /** One pass through the scheduler's loop, up to the switch into the chosen process. */
    method RunRound() returns (o: Outcome)
      requires HeatCapped(proc[..])
      modifies this, proc
      ensures Round(old(State(temp, proc[..])), State(temp, proc[..]), o)
    {
      Decay();
      ghost var mid, temp0 := proc[..], temp;
      if temp >= THROTTLE_TEMP {
        UpdateCpuTemp(0);
        assert RoundFrom(temp0, mid, State(temp, proc[..]), Throttled);
        return Throttled;
      }
      var chosen := Select();
      Age(chosen);
      ghost var aged := proc[..];
      if chosen.None? {
        assert aged == mid;
        UpdateCpuTemp(0);
        assert RoundFrom(temp0, mid, State(temp, proc[..]), Idled);
        return Idled;
      }
      var i := chosen.value;
      var heat := proc[i].heat + HEAT_INCREMENT;
      if heat > MAX_HEAT {
        heat := MAX_HEAT;
      }
      proc[i] := proc[i].(state := RUNNING, waiting := 0, heat := heat);
      assert proc[..] == aged[i := Dispatched(aged[i])];
      assert proc[..][i := mid[i]] == aged;
      UpdateCpuTemp(heat);
      assert RoundFrom(temp0, mid, State(temp, proc[..]), Ran(i));
      return Ran(i);
    }
  }

  ghost predicate HeatCapped(ps: seq<Proc>) {
    forall i :: 0 <= i < |ps| ==> ps[i].heat <= MAX_HEAT
  }
}
