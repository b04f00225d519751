/** The pipe of kernel/pipe.c under its two-process lock: one writer (side 0), one reader (side 1), every access to a
    shared variable an atomic step. Blocking inside the critical section is not modelled: a writer that finds the
    pipe full and a reader that finds it empty look again, or leave. */
module Peterson {
  import opened PipeRing

  datatype Op = Write | Read | Close

  /** The next access inside the critical section; local variables are arguments. */
  datatype At =
    // pipewrite
    | WTest                                            // reads readopen
    | WFullA                                           // reads nwrite
    | WFullB(a: nat)                                   // reads nread and compares
    | WCopy                                            // copies a byte in, reads nwrite
    | WPut(ch: int, a: nat, inc: bool, stored: bool)   // increments nwrite and stores the byte, in either order
    // piperead
    | RTestA                                           // reads nread
    | RTestB(a: nat)                                   // reads nwrite and compares
    | RLoadA                                           // reads nread
    | RLoad(a: nat)                                    // reads the byte
    | RIncA(ch: int)                                   // copies the byte out, reads nread
    | RInc(ch: int, a: nat)                            // writes nread
    // pipeclose
    | COwn                                             // marks its own end closed
    | CRead                                            // reads readopen
    | CWrite                                           // reads writeopen
    | CExit(free: bool)                                // leaves, then frees the pipe or not

  /** Where a side is. */
  datatype Pc =
    | Idle
    | SetTurn(op: Op)     // turn = other
    | TestFlag(op: Op)    // evaluates flag[other] == 1
    | TestTurn(op: Op)    // evaluates turn == other
    | Crit(at: At)        // inside the critical section
    | Freeing             // about to kfree the pipe
    | Gone                // closed for good

  datatype State = State(flag: seq<bool>, turn: nat, pc: seq<Pc>, ring: Ring,
                         open: seq<bool>, freed: nat, written: seq<int>, taken: seq<int>)

  function Init(): State {
    State([false, false], 0, [Idle, Idle], Ring(seq(PIPESIZE, _ => 0), 0, 0), [true, true], 0, [], [])
  }

  function First(op: Op): At {
    match op
    case Write => WTest
    case Read => RTestA
    case Close => COwn
  }

  ghost predicate Shape(s: State) {
    |s.flag| == 2 && |s.pc| == 2 && |s.open| == 2 && s.turn < 2 && |s.ring.data| == PIPESIZE
  }

  datatype Action = Enter(op: Op) | Lock | Move(to: At) | Leave | Free

  /** One atomic step of side i. */
  ghost predicate Step(s: State, t: State, i: nat, a: Action) {
    && Shape(s) && i < 2
    && match a
       case Enter(op) =>
         && s.pc[i] == Idle && op in {if i == 0 then Write else Read, Close}
         && t == s.(pc := s.pc[i := SetTurn(op)], flag := s.flag[i := true])
       case Lock => (s.pc[i].SetTurn? || s.pc[i].TestFlag? || s.pc[i].TestTurn?) && t == Locking(s, i)
       case Move(to) => s.pc[i].Crit? && Moves(s, t, i, s.pc[i].at, to)
       case Leave =>
         && s.pc[i].Crit? && MayLeave(s.pc[i].at)
         && t == s.(pc := s.pc[i := Outside(s.pc[i].at)], flag := s.flag[i := false])
       case Free => s.pc[i] == Freeing && t == s.(pc := s.pc[i := Gone], freed := s.freed + 1)
  }

  /** peterson_enter after its first assignment. */
  function Locking(s: State, i: nat): State
    requires |s.flag| == 2 && |s.pc| == 2 && i < 2
  {
    var other := 1 - i;
    match s.pc[i]
    case SetTurn(op) => s.(pc := s.pc[i := TestFlag(op)], turn := other)
    case TestFlag(op) => s.(pc := s.pc[i := if s.flag[other] then TestTurn(op) else Crit(First(op))])
    case TestTurn(op) => s.(pc := s.pc[i := if s.turn == other then TestFlag(op) else Crit(First(op))])
    case _ => s
  }

  /** Places from which a call may end: all bytes done, killed, the other end closed, or a copy failed. */
  predicate MayLeave(at: At) {
    at.WTest? || at.WCopy? || at.RTestA? || at.RIncA? || at.CExit?
  }

  function Outside(at: At): Pc {
    if at.CExit? then if at.free then Freeing else Gone else Idle
  }

  /** One access inside the critical section. */
  ghost predicate Moves(s: State, t: State, i: nat, at: At, to: At)
    requires Shape(s) && i < 2
  {
    var s' := s.(pc := s.pc[i := Crit(to)]);
    var ring := s.ring;
    match at
    case WTest => s.open[1] && to == WFullA && t == s'
    case WFullA => to == WFullB(ring.nwrite) && t == s'
    case WFullB(a) => to == (if a == (ring.nread + PIPESIZE) % WRAP then WTest else WCopy) && t == s'
    case WCopy => to.WPut? && to.a == ring.nwrite && !to.inc && !to.stored && t == s'
    case WPut(ch, a, inc, stored) =>
      var done := if inc || stored then s.written + [ch] else s.written;
      || (!inc && to == (if stored then WTest else WPut(ch, a, true, stored))
          && t == s'.(ring := ring.(nwrite := (a + 1) % WRAP), written := done))
      || (!stored && to == (if inc then WTest else WPut(ch, a, inc, true))
          && t == s'.(ring := ring.(data := ring.data[a % PIPESIZE := ch]), written := done))
    case RTestA => to == RTestB(ring.nread) && t == s'
    case RTestB(a) => to == (if a == ring.nwrite then RTestA else RLoadA) && t == s'
    case RLoadA => to == RLoad(ring.nread) && t == s'
    case RLoad(a) => to == RIncA(ring.data[a % PIPESIZE]) && t == s'
    case RIncA(ch) => to == RInc(ch, ring.nread) && t == s'
    case RInc(ch, a) => to == RTestA && t == s'.(ring := ring.(nread := (a + 1) % WRAP), taken := s.taken + [ch])
    case COwn => to == CRead && t == s'.(open := s.open[i := false])
    case CRead => to == (if s.open[1] then CExit(false) else CWrite) && t == s'
    case CWrite => to == CExit(!s.open[0]) && t == s'
    case CExit(_) => false
  }

  ghost predicate Next(s: State, t: State) {
    exists i, a :: Step(s, t, i, a)
  }

  ghost predicate IsRun(run: seq<State>) {
    && |run| > 0 && run[0] == Init()
    && forall k :: 0 < k < |run| ==> Next(run[k - 1], run[k])
  }

  // ----- The lock -----

  /** Past the turn assignment and not out of the critical section yet. */
  predicate Competing(pc: Pc) {
    pc.TestFlag? || pc.TestTurn? || pc.Crit?
  }

  predicate Closing(at: At) {
    at.CRead? || at.CWrite? || at.CExit?
  }

  predicate Closed(pc: Pc) {
    pc == Freeing || pc == Gone || (pc.Crit? && Closing(pc.at))
  }

  ghost predicate SideOk(s: State, i: nat)
    requires Shape(s) && i < 2
  {
    var other := 1 - i;
    && (s.flag[i] <==> s.pc[i].SetTurn? || Competing(s.pc[i]))
    && (s.pc[i].Crit? && Competing(s.pc[other]) ==> s.turn == i)
    && (s.open[i] <==> !Closed(s.pc[i]))
    && (s.pc[i] == Freeing ==> s.pc[other] == Gone && s.freed == 0)
    && (s.pc[i].Crit? && Closing(s.pc[i].at) ==> s.pc[other] != Freeing)
    && (s.pc[i] == Crit(CWrite) ==> !s.open[1])
    && (s.pc[i].Crit? && s.pc[i].at.CExit? ==> s.pc[i].at.free == !s.open[other])
    && (s.pc[i] != Gone ==> s.freed == 0)
  }

  ghost predicate LockOk(s: State) {
    && Shape(s)
    && SideOk(s, 0) && SideOk(s, 1)
    && (s.pc[0] == Gone && s.pc[1] == Gone ==> s.freed == 1)
  }

  /** Entering and leaving keep the lock's invariant. */
  lemma LockStepKeeps(s: State, t: State, i: nat, a: Action)
    requires LockOk(s) && Step(s, t, i, a) && !a.Move?
    ensures LockOk(t)
  {
    hide Moves, SideOk;
    ActorSide(s, t, i, a);
    OtherSide(s, t, i, a);
  }

  lemma ActorSide(s: State, t: State, i: nat, a: Action)
    requires LockOk(s) && Step(s, t, i, a) && !a.Move?
    ensures Shape(t) && SideOk(t, i) && (t.pc[i] == Gone && t.pc[1 - i] == Gone ==> t.freed == 1)
  {
    hide Moves;
    assert SideOk(s, i) && SideOk(s, 1 - i);
  }

  lemma OtherSide(s: State, t: State, i: nat, a: Action)
    requires LockOk(s) && Step(s, t, i, a) && !a.Move?
    ensures Shape(t) && SideOk(t, 1 - i)
  {
    hide Moves;
    assert SideOk(s, i) && SideOk(s, 1 - i);
  }

  /** So do the accesses inside the critical section, those of pipeclose included. */
  lemma CritStepKeeps(s: State, t: State, i: nat, to: At)
    requires LockOk(s) && Shape(s) && i < 2 && s.pc[i].Crit? && Moves(s, t, i, s.pc[i].at, to)
    ensures LockOk(t)
  {
    MoveKind(s, t, i, s.pc[i].at, to);
    if s.pc[i].at.COwn? || Closing(s.pc[i].at) {
      CloseStepKeeps(s, t, i, to);
    } else {
      hide Moves, LockOk;
      DataOnly(s, t, i, to);
    }
  }

  /** Every access stays within its own call, and only those of pipeclose change more than the ring. */
  lemma MoveKind(s: State, t: State, i: nat, at: At, to: At)
    requires Shape(s) && i < 2 && Moves(s, t, i, at, to)
    ensures Writes(at) <==> Writes(to)
    ensures Reads(at) <==> Reads(to)
    ensures !at.COwn? && !Closing(at) ==>
      && |t.ring.data| == PIPESIZE && !Closing(to)
      && t == s.(pc := s.pc[i := Crit(to)], ring := t.ring, written := t.written, taken := t.taken)
  {
  }

  lemma CloseStepKeeps(s: State, t: State, i: nat, to: At)
    requires LockOk(s) && i < 2 && s.pc[i].Crit? && Moves(s, t, i, s.pc[i].at, to)
    requires s.pc[i].at.COwn? || Closing(s.pc[i].at)
    ensures LockOk(t)
  {
    assert SideOk(s, i) && SideOk(s, 1 - i);
    var at := s.pc[i].at;
    if at.COwn? {
      assert t == s.(pc := s.pc[i := Crit(CRead)], open := s.open[i := false]);
    } else {
      assert t == s.(pc := s.pc[i := Crit(to)]);
    }
    hide Moves;
    assert SideOk(t, i) && SideOk(t, 1 - i);
  }

  lemma DataOnly(s: State, t: State, i: nat, to: At)
    requires LockOk(s) && i < 2 && s.pc[i].Crit? && !Closing(s.pc[i].at) && !Closing(to) && |t.ring.data| == PIPESIZE
    requires t == s.(pc := s.pc[i := Crit(to)], ring := t.ring, written := t.written, taken := t.taken)
    ensures LockOk(t)
  {
    assert SideOk(s, i) && SideOk(s, 1 - i);
  }

  // ----- The bytes -----

  /** The ring without a byte that is only half put in. */
  function Whole(s: State): Ring
    requires |s.pc| == 2
  {
    if s.pc[0].Crit? && s.pc[0].at.WPut? then s.ring.(nwrite := s.pc[0].at.a) else s.ring
  }

  ghost predicate WriterOk(s: State)
    requires Shape(s)
  {
    s.pc[0].Crit? ==> match s.pc[0].at
       case WFullB(a) => a == s.ring.nwrite
       case WCopy => !Full(s.ring)
       case WPut(ch, a, inc, stored) =>
         && a < WRAP && !Full(Whole(s)) && !(inc && stored)
         && s.ring.nwrite == (if inc then (a + 1) % WRAP else a)
         && (stored ==> s.ring.data[a % PIPESIZE] == ch)
       case _ => true
  }

  ghost predicate ReaderOk(s: State)
    requires Shape(s)
  {
    s.pc[1].Crit? ==> match s.pc[1].at
       case RTestB(a) => a == s.ring.nread
       case RLoadA => s.ring.nread != s.ring.nwrite
       case RLoad(a) => a == s.ring.nread != s.ring.nwrite
       case RIncA(ch) => s.ring.nread != s.ring.nwrite && ch == s.ring.data[s.ring.nread % PIPESIZE]
       case RInc(ch, a) => a == s.ring.nread != s.ring.nwrite && ch == s.ring.data[s.ring.nread % PIPESIZE]
       case _ => true
  }

  predicate Writes(at: At) {
    at.WTest? || at.WFullA? || at.WFullB? || at.WCopy? || at.WPut?
  }

  predicate Reads(at: At) {
    at.RTestA? || at.RTestB? || at.RLoadA? || at.RLoad? || at.RIncA? || at.RInc?
  }

  /** Only side 0 writes and only side 1 reads. */
  ghost predicate RolesOk(s: State)
    requires Shape(s)
  {
    && (s.pc[0].SetTurn? || s.pc[0].TestFlag? || s.pc[0].TestTurn? ==> s.pc[0].op != Read)
    && (s.pc[1].SetTurn? || s.pc[1].TestFlag? || s.pc[1].TestTurn? ==> s.pc[1].op != Write)
    && (s.pc[0].Crit? ==> !Reads(s.pc[0].at)) && (s.pc[1].Crit? ==> !Writes(s.pc[1].at))
  }

  ghost predicate BytesOk(s: State)
    requires Shape(s)
  {
    RingOk(Whole(s)) && s.written == s.taken + Unread(Whole(s))
  }

  ghost predicate Inv(s: State) {
    LockOk(s) && RolesOk(s) && WriterOk(s) && ReaderOk(s) && BytesOk(s)
  }

  /** The two sides are never in the critical section together. */
  lemma Exclusion(s: State)
    requires LockOk(s)
    ensures !(s.pc[0].Crit? && s.pc[1].Crit?)
  {
  }

  /** Storing a byte at the free slot changes no unread byte. */
  lemma StoreKeeps(r: Ring, b: int)
    requires RingOk(r) && !Full(r)
    ensures RingOk(r.(data := r.data[r.nwrite % PIPESIZE := b]))
    ensures Unread(r.(data := r.data[r.nwrite % PIPESIZE := b])) == Unread(r)
  {
    FullIff(r);
    WriteEnd(r);
    var t := r.(data := r.data[r.nwrite % PIPESIZE := b]);
    var c := Count(r);
    ModMod(r.nread + c);
    forall k | 0 <= k < c
      ensures Unread(t)[k] == Unread(r)[k]
    {
      SlotsDiffer(r, k, c);
    }
  }

  /** The writer's accesses: with the reader outside, a byte half put in is invisible and then appended whole. */
  lemma WriterStep(s: State, t: State, to: At)
    requires Inv(s) && s.pc[0].Crit? && Writes(s.pc[0].at) && Moves(s, t, 0, s.pc[0].at, to)
    ensures Shape(t) && WriterOk(t) && ReaderOk(t) && BytesOk(t)
  {
    Exclusion(s);
    hide LockOk, RingOk, Unread, Full;
    var at := s.pc[0].at;
    if at.WFullB? && to == WCopy {
      FullTest(s.ring);
    } else if at.WPut? {
      PutStep(s, t, to);
    }
  }

  lemma FullTest(r: Ring)
    ensures Full(r) <==> r.nwrite == (r.nread + PIPESIZE) % WRAP
  {
  }

  lemma PutStep(s: State, t: State, to: At)
    requires Shape(s) && s.pc[0].Crit? && s.pc[0].at.WPut? && !s.pc[1].Crit? && WriterOk(s) && BytesOk(s)
    requires Moves(s, t, 0, s.pc[0].at, to)
    ensures Shape(t) && WriterOk(t) && BytesOk(t)
  {
    hide RingOk, Unread, Full;
    var at, whole := s.pc[0].at, Whole(s);
    StoreKeeps(whole, at.ch);
    PutAppends(whole, at.ch);
    NotFullStays(whole, at.ch);
    assert at.stored ==> whole.data[at.a % PIPESIZE := at.ch] == whole.data;
    Associates(s.taken, Unread(whole), at.ch);
    if to == WTest {
      assert t.ring == Put(whole, at.ch);
    } else if to.stored {
      assert Whole(t) == whole.(data := whole.data[at.a % PIPESIZE := at.ch]);
    } else {
      assert Whole(t) == whole;
    }
  }

  lemma NotFullStays(r: Ring, b: int)
    requires |r.data| == PIPESIZE && !Full(r)
    ensures !Full(r.(data := r.data[r.nwrite % PIPESIZE := b]))
  {
  }

  lemma Associates(a: seq<int>, b: seq<int>, c: int)
    ensures a + b + [c] == a + (b + [c])
  {
  }

  /** The reader's accesses: with the writer outside, the byte it takes is the first unread one. */
  lemma ReaderStep(s: State, t: State, to: At)
    requires Inv(s) && s.pc[1].Crit? && Reads(s.pc[1].at) && Moves(s, t, 1, s.pc[1].at, to)
    ensures Shape(t) && WriterOk(t) && ReaderOk(t) && BytesOk(t)
  {
    Exclusion(s);
    hide LockOk, RingOk, Unread, Full;
    if s.pc[1].at.RInc? {
      var ch := s.pc[1].at.ch;
      TakeRemoves(s.ring);
      assert t.ring == Take(s.ring);
      FirstOf(s.taken, Unread(s.ring), ch);
    }
  }

  lemma FirstOf(a: seq<int>, b: seq<int>, c: int)
    requires |b| > 0 && b[0] == c
    ensures a + b == (a + [c]) + b[1..]
  {
  }

  /** A step that is not one of those two leaves the bytes and what the other side knows alone. */
  lemma OtherStep(s: State, t: State, i: nat, a: Action)
    requires Inv(s) && Step(s, t, i, a)
    requires a.Move? ==> s.pc[i].at.COwn? || Closing(s.pc[i].at)
    ensures Shape(t) && WriterOk(t) && ReaderOk(t) && BytesOk(t)
  {
    hide LockOk, RingOk, Unread, Full;
  }

  lemma RolesStay(s: State, t: State, i: nat, a: Action)
    requires Shape(s) && RolesOk(s) && Step(s, t, i, a) && Shape(t)
    ensures RolesOk(t)
  {
    if a.Move? {
      MoveKind(s, t, i, s.pc[i].at, a.to);
      assert t.pc == s.pc[i := Crit(a.to)];
    }
    hide Moves;
  }

  lemma NextKeepsInv(s: State, t: State)
    requires Inv(s) && Next(s, t)
    ensures Inv(t)
  {
    var i: nat, a :| Step(s, t, i, a);
    hide RingOk, Unread, Full, Moves, SideOk;
    if a.Move? {
      CritStepKeeps(s, t, i, a.to);
    } else {
      LockStepKeeps(s, t, i, a);
    }
    if a.Move? && Writes(s.pc[i].at) {
      WriterStep(s, t, a.to);
    } else if a.Move? && Reads(s.pc[i].at) {
      ReaderStep(s, t, a.to);
    } else {
      OtherStep(s, t, i, a);
    }
    RolesStay(s, t, i, a);
  }

  lemma {:induction false} InvHolds(run: seq<State>)
    requires IsRun(run)
    ensures Inv(run[|run| - 1])
  {
    if |run| > 1 {
      hide Inv;
      InvHolds(run[..|run| - 1]);
      NextKeepsInv(run[|run| - 2], run[|run| - 1]);
    }
  }

  /** Mutual exclusion: the two sides are never in the critical section together. */
  lemma MutualExclusion(run: seq<State>)
    requires IsRun(run)
    ensures |run[|run| - 1].pc| == 2
    ensures !(run[|run| - 1].pc[0].Crit? && run[|run| - 1].pc[1].Crit?)
  {
    InvHolds(run);
  }

  /** Side i's wait condition holds right now. */
  predicate Stuck(s: State, i: nat)
    requires |s.pc| == 2 && |s.flag| == 2 && i < 2
  {
    (s.pc[i].TestFlag? || s.pc[i].TestTurn?) && s.flag[1 - i] && s.turn == 1 - i
  }

  /** The two sides are never both stuck in the busy wait, and a waiting side with a quiet peer gets in. */
  lemma NeverBothStuck(run: seq<State>)
    requires IsRun(run)
    ensures
      var s := run[|run| - 1];
      && Shape(s)
      && !(Stuck(s, 0) && Stuck(s, 1))
      && (forall i :: 0 <= i < 2 && Stuck(s, i) ==> s.pc[1 - i].SetTurn? || Competing(s.pc[1 - i]))
  {
    InvHolds(run);
  }

  /** First in, first out: the bytes read are a prefix of the bytes written, never more than PIPESIZE behind. */
  lemma FirstInFirstOut(run: seq<State>)
    requires IsRun(run)
    ensures
      var s := run[|run| - 1];
      s.taken <= s.written && |s.written| - |s.taken| <= PIPESIZE
  {
    InvHolds(run);
  }

  /** The page is freed at most once; once it is, both ends are closed and no side takes another step. */
  lemma FreedOnceThenUntouched(run: seq<State>, t: State)
    requires IsRun(run)
    ensures run[|run| - 1].freed <= 1
    ensures run[|run| - 1].freed == 1 ==> run[|run| - 1].open == [false, false] && !Next(run[|run| - 1], t)
    ensures run[|run| - 1].pc == [Gone, Gone] ==> run[|run| - 1].freed == 1
  {
    InvHolds(run);
  }
}
