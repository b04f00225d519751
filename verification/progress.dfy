/** Progress of the pipe's lock and of the calls inside it: who gets in, after how many steps, and what a call gets done. */
module Progress {
  import opened PipeRing
  import opened Peterson

  /** In the busy wait of peterson_enter. */
  predicate Waits(pc: Pc) {
    pc.TestFlag? || pc.TestTurn?
  }

  ghost predicate Own(s: State, t: State, i: nat) {
    exists a :: Step(s, t, i, a)
  }

  /** Steps of side i alone. */
  ghost predicate Path(t: seq<State>, i: nat) {
    |t| > 0 && forall k :: 0 <= k < |t| - 1 ==> Own(t[k], t[k + 1], i)
  }

  // ----- Getting in -----

  /** A waiting side whose wait condition does not hold can step, and is inside after at most two of its own steps,
      at the first access of its call. */
  lemma EntersWithinTwo(s: State, i: nat)
    requires Shape(s) && i < 2 && Waits(s.pc[i]) && !Stuck(s, i)
    ensures exists t :: Step(s, t, i, Lock)
    ensures forall t :: Step(s, t, i, Lock) ==>
      || Inside(t, i, s.pc[i].op)
      || (Waits(t.pc[i]) && (exists u :: Step(t, u, i, Lock)) && forall u :: Step(t, u, i, Lock) ==> Inside(u, i, s.pc[i].op))
  {
    var t := Locking(s, i);
    assert Step(s, t, i, Lock);
    if !t.pc[i].Crit? {
      assert Step(t, Locking(t, i), i, Lock);
    }
  }

  ghost predicate Inside(s: State, i: nat, op: Op) {
    |s.pc| == 2 && i < 2 && s.pc[i] == Crit(match op case Write => WTest case Read => RTestA case Close => COwn)
  }

  /** While the wait condition holds, the side's own steps do not take it in. */
  lemma StuckWaits(s: State, t: State, i: nat)
    requires Shape(s) && i < 2 && Stuck(s, i) && Step(s, t, i, Lock)
    ensures Waits(t.pc[i]) && Stuck(t, i)
  {
  }

  /** When both sides wait, one of them is inside after at most two of its own steps. */
  lemma OneEnters(run: seq<State>) returns (i: nat)
    requires IsRun(run) && Shape(run[|run| - 1])
    requires Waits(run[|run| - 1].pc[0]) && Waits(run[|run| - 1].pc[1])
    ensures i < 2
    ensures
      var s := run[|run| - 1];
      && (exists t :: Step(s, t, i, Lock))
      && forall t, u :: Step(s, t, i, Lock) && Step(t, u, i, Lock) ==>
           Inside(t, i, s.pc[i].op) || Inside(u, i, s.pc[i].op)
  {
    var s := run[|run| - 1];
    NeverBothStuck(run);
    i := if Stuck(s, 0) then 1 else 0;
    EntersWithinTwo(s, i);
    hide Step, Stuck;
  }

  /** A side that finds its peer outside is inside after three steps of its own. */
  lemma EntersAlone(s: State, i: nat, op: Op) returns (t: seq<State>)
    requires Shape(s) && i < 2 && s.pc[i] == Idle && !s.flag[1 - i] && op in {if i == 0 then Write else Read, Close}
    ensures |t| == 4 && t[0] == s && Path(t, i) && Inside(t[3], i, op)
  {
    var a := s.(pc := s.pc[i := SetTurn(op)], flag := s.flag[i := true]);
    assert Step(s, a, i, Enter(op));
    var b := Locking(a, i);
    assert Step(a, b, i, Lock);
    assert Step(b, Locking(b, i), i, Lock);
    t := [s, a, b, Locking(b, i)];
  }

  // ----- Bounded waiting -----

  /** The peer of side i is inside, or has to ask again, or has given way to side i. */
  ghost predicate GivesWay(s: State, i: nat)
    requires |s.pc| == 2 && i < 2
  {
    s.pc[1 - i].Crit? || !Competing(s.pc[1 - i]) || s.turn == i
  }

  lemma GivesWayStays(s: State, t: State, i: nat)
    requires LockOk(s) && Next(s, t) && i < 2 && Waits(s.pc[i]) && |t.pc| == 2 && Waits(t.pc[i]) && GivesWay(s, i)
    ensures GivesWay(t, i) && (!s.pc[1 - i].Crit? ==> !t.pc[1 - i].Crit?)
  {
    hide Moves, SideOk;
    var j: nat, a :| Step(s, t, j, a);
    assert j < 2;
    hide Step, LockOk;
    if j == i {
      WaiterStep(s, t, i, a);
    } else {
      PeerStep(s, t, i, a);
    }
  }

  lemma WaiterStep(s: State, t: State, i: nat, a: Action)
    requires Step(s, t, i, a) && i < 2 && Waits(s.pc[i])
    ensures t.turn == s.turn && |t.pc| == 2 && t.pc[1 - i] == s.pc[1 - i]
  {
    hide Moves;
  }

  lemma PeerStep(s: State, t: State, i: nat, a: Action)
    requires LockOk(s) && i < 2 && Step(s, t, 1 - i, a) && Waits(s.pc[i]) && GivesWay(s, i)
    ensures |t.pc| == 2 && GivesWay(t, i) && (!s.pc[1 - i].Crit? ==> !t.pc[1 - i].Crit?)
  {
    assert SideOk(s, i);
    hide SideOk;
    if a.Move? {
      StaysInside(s, t, 1 - i, a.to);
    }
    hide Moves;
  }

  lemma StaysInside(s: State, t: State, i: nat, to: At)
    requires Shape(s) && i < 2 && s.pc[i].Crit? && Moves(s, t, i, s.pc[i].at, to)
    ensures t.pc == s.pc[i := Crit(to)]
  {
  }

  /** Bounded waiting: while a side waits, its peer enters the critical section at most once. */
  lemma AtMostOneBypass(run: seq<State>, i: nat, p: nat, q: nat)
    requires IsRun(run) && i < 2 && p < q < |run| - 1
    requires forall k :: p <= k <= q + 1 ==> |run[k].pc| == 2 && Waits(run[k].pc[i])
    requires !run[p].pc[1 - i].Crit? && run[p + 1].pc[1 - i].Crit?
    ensures !(!run[q].pc[1 - i].Crit? && run[q + 1].pc[1 - i].Crit?)
  {
    hide IsRun, Waits;
    StillGivesWay(run, i, p + 1, q);
    OneMoreStep(run, i, q);
  }

  lemma {:induction false} StillGivesWay(run: seq<State>, i: nat, p: nat, q: nat)
    requires IsRun(run) && i < 2 && p <= q < |run|
    requires forall k :: p <= k <= q ==> |run[k].pc| == 2 && Waits(run[k].pc[i])
    requires GivesWay(run[p], i)
    ensures GivesWay(run[q], i)
    decreases q
  {
    hide IsRun, Waits, GivesWay;
    if p < q {
      StillGivesWay(run, i, p, q - 1);
      OneMoreStep(run, i, q - 1);
    }
  }

  lemma Reachable(run: seq<State>, k: nat)
    requires IsRun(run) && k < |run|
    ensures LockOk(run[k])
  {
    hide Next;
    assert IsRun(run[..k + 1]);
    InvHolds(run[..k + 1]);
  }

  lemma OneMoreStep(run: seq<State>, i: nat, k: nat)
    requires IsRun(run) && i < 2 && k < |run| - 1
    requires |run[k].pc| == 2 && Waits(run[k].pc[i]) && |run[k + 1].pc| == 2 && Waits(run[k + 1].pc[i]) && GivesWay(run[k], i)
    ensures GivesWay(run[k + 1], i) && (!run[k].pc[1 - i].Crit? ==> !run[k + 1].pc[1 - i].Crit?)
  {
    hide Next, LockOk;
    Reachable(run, k);
    assert Next(run[k], run[k + 1]);
    GivesWayStays(run[k], run[k + 1], i);
  }

  // ----- Getting something done -----

  lemma SixSteps(t: seq<State>, i: nat)
    requires |t| == 7
    requires Own(t[0], t[1], i) && Own(t[1], t[2], i) && Own(t[2], t[3], i) && Own(t[3], t[4], i) && Own(t[4], t[5], i) && Own(t[5], t[6], i)
    ensures Path(t, i)
  {
    hide Own;
  }

  lemma Along(s: State, t: State, i: nat, to: At)
    requires Shape(s) && i < 2 && s.pc[i].Crit? && Moves(s, t, i, s.pc[i].at, to)
    ensures Own(s, t, i)
  {
    assert Step(s, t, i, Move(to));
  }

  /** With room in the pipe and the read end open, a writer's next six steps put in whichever byte it has. */
  lemma WriterPuts(run: seq<State>, ch: int) returns (t: seq<State>)
    requires IsRun(run) && Shape(run[|run| - 1])
    requires var s := run[|run| - 1]; s.pc[0] == Crit(WTest) && s.open[1] && !Full(s.ring)
    ensures |t| == 7 && t[0] == run[|run| - 1] && Path(t, 0)
    ensures t[6].pc == t[0].pc && t[6].written == t[0].written + [ch] && t[6].taken == t[0].taken
  {
    hide Own, Path;
    var s := run[|run| - 1];
    var t3 := WriterLooks(s);
    var t6 := WriterStores(t3[2], ch);
    t := [s] + t3 + t6;
    SixSteps(t, 0);
    assert t[6].pc == s.pc;
  }

  lemma WriterLooks(s: State) returns (t: seq<State>)
    requires Shape(s) && s.pc[0] == Crit(WTest) && s.open[1] && !Full(s.ring)
    ensures |t| == 3 && Own(s, t[0], 0) && Own(t[0], t[1], 0) && Own(t[1], t[2], 0)
    ensures t[2] == s.(pc := s.pc[0 := Crit(WCopy)])
  {
    var w := s.ring.nwrite;
    var a := s.(pc := s.pc[0 := Crit(WFullA)]);
    var b := s.(pc := s.pc[0 := Crit(WFullB(w))]);
    var c := s.(pc := s.pc[0 := Crit(WCopy)]);
    Along(s, a, 0, WFullA);
    Along(a, b, 0, WFullB(w));
    Along(b, c, 0, WCopy);
    hide Own;
    t := [a, b, c];
  }

  lemma WriterStores(s: State, ch: int) returns (t: seq<State>)
    requires Shape(s) && s.pc[0] == Crit(WCopy)
    ensures |t| == 3 && Own(s, t[0], 0) && Own(t[0], t[1], 0) && Own(t[1], t[2], 0)
    ensures t[2].pc == s.pc[0 := Crit(WTest)] && t[2].written == s.written + [ch] && t[2].taken == s.taken
  {
    var w := s.ring.nwrite;
    var d := s.(pc := s.pc[0 := Crit(WPut(ch, w, false, false))]);
    var e := s.(pc := s.pc[0 := Crit(WPut(ch, w, true, false))], ring := s.ring.(nwrite := (w + 1) % WRAP));
    var f := s.(pc := s.pc[0 := Crit(WTest)], written := s.written + [ch],
                ring := Ring(s.ring.data[w % PIPESIZE := ch], s.ring.nread, (w + 1) % WRAP));
    Along(s, d, 0, WPut(ch, w, false, false));
    Along(d, e, 0, WPut(ch, w, true, false));
    Along(e, f, 0, WTest);
    hide Own;
    t := [d, e, f];
  }

  /** With a byte in the pipe, a reader's next six steps take the oldest one. */
  lemma ReaderTakes(run: seq<State>) returns (t: seq<State>)
    requires IsRun(run) && Shape(run[|run| - 1])
    requires var s := run[|run| - 1]; s.pc[1] == Crit(RTestA) && |s.taken| < |s.written|
    ensures |t| == 7 && t[0] == run[|run| - 1] && Path(t, 1)
    ensures t[6].pc == t[0].pc && t[6].written == t[0].written
    ensures t[6].taken == t[0].taken + [t[0].written[|t[0].taken|]]
  {
    hide Own, Path;
    var s := run[|run| - 1];
    InvHolds(run);
    hide IsRun;
    Exclusion(s);
    FirstUnread(s);
    var t3 := ReaderLooks(s);
    var t6 := ReaderLoads(t3[2]);
    t := [s] + t3 + t6;
    SixSteps(t, 1);
    assert t[6].pc == s.pc;
  }

  lemma ReaderLooks(s: State) returns (t: seq<State>)
    requires Shape(s) && s.pc[1] == Crit(RTestA) && s.ring.nread != s.ring.nwrite
    ensures |t| == 3 && Own(s, t[0], 1) && Own(t[0], t[1], 1) && Own(t[1], t[2], 1)
    ensures t[2] == s.(pc := s.pc[1 := Crit(RLoad(s.ring.nread))])
  {
    var r := s.ring.nread;
    var a := s.(pc := s.pc[1 := Crit(RTestB(r))]);
    var b := s.(pc := s.pc[1 := Crit(RLoadA)]);
    var c := s.(pc := s.pc[1 := Crit(RLoad(r))]);
    Along(s, a, 1, RTestB(r));
    Along(a, b, 1, RLoadA);
    Along(b, c, 1, RLoad(r));
    hide Own;
    t := [a, b, c];
  }

  lemma ReaderLoads(s: State) returns (t: seq<State>)
    requires Shape(s) && s.pc[1] == Crit(RLoad(s.ring.nread))
    ensures |t| == 3 && Own(s, t[0], 1) && Own(t[0], t[1], 1) && Own(t[1], t[2], 1)
    ensures t[2].pc == s.pc[1 := Crit(RTestA)] && t[2].written == s.written
    ensures t[2].taken == s.taken + [s.ring.data[s.ring.nread % PIPESIZE]]
  {
    var r := s.ring.nread;
    var ch := s.ring.data[r % PIPESIZE];
    var d := s.(pc := s.pc[1 := Crit(RIncA(ch))]);
    var e := s.(pc := s.pc[1 := Crit(RInc(ch, r))]);
    var f := s.(pc := s.pc[1 := Crit(RTestA)], ring := s.ring.(nread := (r + 1) % WRAP), taken := s.taken + [ch]);
    Along(s, d, 1, RIncA(ch));
    Along(d, e, 1, RInc(ch, r));
    Along(e, f, 1, RTestA);
    hide Own;
    t := [d, e, f];
  }

  lemma FirstUnread(s: State)
    requires Inv(s) && !s.pc[0].Crit? && |s.taken| < |s.written|
    ensures s.ring.nread != s.ring.nwrite && s.ring.data[s.ring.nread % PIPESIZE] == s.written[|s.taken|]
  {
    assert Whole(s) == s.ring;
    FullIff(s.ring);
    TakeRemoves(s.ring);
    assert s.written == s.taken + Unread(s.ring);
  }

  /** A close that has entered is over after at most five steps; the pipe is freed then exactly if the other end was
      closed. */
  lemma CloseEnds(run: seq<State>, i: nat) returns (t: seq<State>)
    requires IsRun(run) && Shape(run[|run| - 1]) && i < 2 && run[|run| - 1].pc[i] == Crit(COwn)
    ensures 0 < |t| <= 6 && t[0] == run[|run| - 1] && Path(t, i)
    ensures
      var u := t[|t| - 1];
      |u.pc| == 2 && u.pc[i] == Gone && u.freed == if t[0].open[1 - i] then 0 else 1
  {
    var s := run[|run| - 1];
    InvHolds(run);
    assert SideOk(s, i) && s.freed == 0 && s.open[i];
    hide IsRun, Inv, Own, Path;
    var a := s.(pc := s.pc[i := Crit(CRead)], open := s.open[i := false]);
    Along(s, a, i, CRead);
    OneStep(s, a, i);
    var b := CloseTests(a, i);
    var c := CloseLeaves(b[|b| - 1], i);
    JoinPaths([s, a], b, i);
    JoinPaths([s, a] + b[1..], c, i);
    t := [s, a] + b[1..] + c[1..];
  }

  lemma OneStep(s: State, t: State, i: nat)
    requires Own(s, t, i)
    ensures Path([s, t], i)
  {
    hide Own;
  }

  lemma JoinPaths(p: seq<State>, q: seq<State>, i: nat)
    requires Path(p, i) && Path(q, i) && p[|p| - 1] == q[0]
    ensures Path(p + q[1..], i) && (p + q[1..])[|p| + |q| - 2] == q[|q| - 1]
  {
    hide Own;
    var t := p + q[1..];
    forall k | 0 <= k < |t| - 1
      ensures Own(t[k], t[k + 1], i)
    {
      if k >= |p| - 1 {
        assert t[k] == q[k - |p| + 1] && t[k + 1] == q[k - |p| + 2];
      }
    }
  }

  lemma CloseTests(a: State, i: nat) returns (t: seq<State>)
    requires Shape(a) && i < 2 && a.pc[i] == Crit(CRead) && !a.open[i]
    ensures 2 <= |t| <= 3 && t[0] == a && Path(t, i)
    ensures t[|t| - 1] == a.(pc := a.pc[i := Crit(CExit(!a.open[1 - i]))])
  {
    var z := a.(pc := a.pc[i := Crit(CExit(!a.open[1 - i]))]);
    if a.open[1] {
      Along(a, z, i, CExit(false));
      t := [a, z];
    } else {
      var b := a.(pc := a.pc[i := Crit(CWrite)]);
      Along(a, b, i, CWrite);
      Along(b, z, i, CExit(!a.open[0]));
      t := [a, b, z];
    }
    hide Own;
  }

  lemma CloseLeaves(s: State, i: nat) returns (t: seq<State>)
    requires Shape(s) && i < 2 && s.pc[i].Crit? && s.pc[i].at.CExit?
    ensures 2 <= |t| <= 3 && t[0] == s && Path(t, i)
    ensures
      var u := t[|t| - 1];
      |u.pc| == 2 && u.pc[i] == Gone && u.freed == s.freed + if s.pc[i].at.free then 1 else 0
  {
    hide Moves;
    var free := s.pc[i].at.free;
    var b := s.(pc := s.pc[i := if free then Freeing else Gone], flag := s.flag[i := false]);
    assert Step(s, b, i, Leave);
    t := [s, b];
    if free {
      var c := b.(pc := b.pc[i := Gone], freed := b.freed + 1);
      assert Step(b, c, i, Free);
      t := [s, b, c];
    }
  }
}
