/** Crash semantics of the redo log of kernel/log.c.
    Block writes are atomic; the machine may stop between any two of them, also during recovery.
    A block is a sequence of numbers; only the header block is looked into, and its numbers are the 32-bit words of the
    header: the count, then the block numbers. */
module Crash {
  import opened Bio

  /** Where the log lives: header at `start`, log blocks right after it. */
  datatype Layout = Layout(start: nat, logblocks: nat, size: nat) {
    predicate InLog(b: nat) {
      start <= b <= start + logblocks
    }
    predicate Home(b: nat) {
      b < size && !InLog(b)
    }
    predicate Ok() {
      start + logblocks < size
    }
  }

  /** Contents of the header block after write_head: only the count and the listed blocks change. */
  function PutHead(hb: Block, blocks: seq<nat>): (r: Block)
    requires |blocks| < |hb|
    ensures |r| == |hb|
    ensures r[0] == |blocks|
    ensures forall i :: 0 <= i < |blocks| ==> r[1 + i] == blocks[i]
    ensures forall i :: 1 + |blocks| <= i < |hb| ==> r[i] == hb[i]
  {
    [|blocks|] + blocks + hb[1 + |blocks|..]
  }

  /** A header block that recovery can read. */
  ghost predicate HeadOk(lay: Layout, hb: Block) {
    && |hb| > lay.logblocks
    && 0 <= hb[0] <= lay.logblocks
    && forall j :: 1 <= j <= hb[0] ==> 0 <= hb[j] && lay.Home(hb[j])
  }

  ghost predicate DiskOk(lay: Layout, d: seq<Block>) {
    lay.Ok() && |d| == lay.size && HeadOk(lay, d[lay.start])
  }

  /** A group of logged block updates that fits the log. */
  ghost predicate TxOk(lay: Layout, tx: seq<Write>) {
    && |tx| <= lay.logblocks
    && forall t :: 0 <= t < |tx| ==> lay.Home(tx[t].blockno)
  }

  function Blocks(tx: seq<Write>): (r: seq<nat>)
    ensures |r| == |tx|
    ensures forall t :: 0 <= t < |tx| ==> r[t] == tx[t].blockno
  {
    seq(|tx|, t requires 0 <= t < |tx| => tx[t].blockno)
  }

  /** The writes of write_log: the t-th update goes to the t-th log block. */
  function LogWrites(start: nat, tx: seq<Write>): (r: seq<Write>)
    ensures |r| == |tx|
    ensures forall t :: 0 <= t < |tx| ==> r[t] == Write(start + 1 + t, tx[t].data)
  {
    seq(|tx|, t requires 0 <= t < |tx| => Write(start + 1 + t, tx[t].data))
  }

  /** The block writes of commit, in order. */
  function CommitWrites(lay: Layout, hb: Block, tx: seq<Write>): (r: seq<Write>)
    requires |tx| < |hb|
  {
    if tx == [] then []
    else
      LogWrites(lay.start, tx)
      + [Write(lay.start, PutHead(hb, Blocks(tx)))]
      + tx
      + [Write(lay.start, PutHead(PutHead(hb, Blocks(tx)), []))]
  }

  /** What the header on disk says is still to be installed. */
  function Pending(lay: Layout, d: seq<Block>): (r: seq<Write>)
    requires DiskOk(lay, d)
    ensures |r| == d[lay.start][0]
    ensures forall t :: 0 <= t < |r| ==> r[t] == Write(d[lay.start][1 + t], d[lay.start + 1 + t])
  {
    seq(d[lay.start][0], t requires 0 <= t < d[lay.start][0] => Write(d[lay.start][1 + t], d[lay.start + 1 + t]))
  }

  /** The block writes of recover_from_log, in order. */
  function RecoverWrites(lay: Layout, d: seq<Block>): (r: seq<Write>)
    requires DiskOk(lay, d)
  {
    Pending(lay, d) + [Write(lay.start, PutHead(d[lay.start], []))]
  }

  function Recovered(lay: Layout, d: seq<Block>): (r: seq<Block>)
    requires DiskOk(lay, d)
  {
    Replay(d, RecoverWrites(lay, d))
  }

  /** Equal outside the log. */
  ghost predicate SameHome(lay: Layout, d: seq<Block>, e: seq<Block>) {
    && |d| == |e| == lay.size
    && forall b :: 0 <= b < lay.size && lay.Home(b) ==> d[b] == e[b]
  }

  // ----- Replaying writes -----

  ghost predicate Touches(writes: seq<Write>, b: nat) {
    exists i :: 0 <= i < |writes| && writes[i].blockno == b
  }

  lemma {:induction false} ReplayConcat(d: seq<Block>, v: seq<Write>, w: seq<Write>)
    ensures Replay(d, v + w) == Replay(Replay(d, v), w)
  {
    if w == [] {
      assert v + w == v;
    } else {
      assert (v + w)[..|v + w| - 1] == v + w[..|w| - 1];
      ReplayConcat(d, v, w[..|w| - 1]);
    }
  }

  /** A list of writes cut inside its second part. */
  lemma ReplayCut(d: seq<Block>, v: seq<Write>, w: seq<Write>, k: nat)
    requires |v| <= k <= |v + w|
    ensures Replay(d, (v + w)[..k]) == Replay(Replay(d, v), w[..k - |v|])
  {
    hide Replay;
    assert (v + w)[..k] == v + w[..k - |v|];
    ReplayConcat(d, v, w[..k - |v|]);
  }

  lemma {:induction false} ReplayUntouched(d: seq<Block>, w: seq<Write>, b: nat)
    requires b < |d| && !Touches(w, b)
    ensures Replay(d, w)[b] == d[b]
  {
    if w != [] {
      assert forall i :: 0 <= i < |w| ==> w[i].blockno != b;
      ReplayUntouched(d, w[..|w| - 1], b);
    }
  }

  /** Redo: a block that is written ends up the same whatever the disk held before. */
  lemma {:induction false} ReplayAgrees(d: seq<Block>, e: seq<Block>, w: seq<Write>, b: nat)
    requires b < |d| == |e|
    requires d[b] == e[b] || Touches(w, b)
    ensures Replay(d, w)[b] == Replay(e, w)[b]
  {
    if w != [] && w[|w| - 1].blockno != b {
      var v := w[..|w| - 1];
      if Touches(w, b) {
        var i :| 0 <= i < |w| && w[i].blockno == b;
        assert v[i].blockno == b;
      }
      ReplayAgrees(d, e, v, b);
    }
  }

  /** Redoing a list of writes after some prefix of it is the same as doing it once. */
  lemma RedoIdempotent(d: seq<Block>, w: seq<Write>, k: nat)
    requires k <= |w|
    ensures Replay(Replay(d, w[..k]), w) == Replay(d, w)
  {
    var e := Replay(d, w[..k]);
    forall b | 0 <= b < |d|
      ensures Replay(e, w)[b] == Replay(d, w)[b]
    {
      if !Touches(w, b) {
        assert !Touches(w[..k], b);
        ReplayUntouched(d, w[..k], b);
      }
      ReplayAgrees(e, d, w, b);
    }
  }

  /** Writes to home blocks leave the log alone. */
  lemma HomeWritesKeepLog(lay: Layout, d: seq<Block>, w: seq<Write>)
    requires |d| == lay.size && lay.Ok()
    requires forall i :: 0 <= i < |w| ==> lay.Home(w[i].blockno)
    ensures forall b :: lay.start <= b <= lay.start + lay.logblocks ==> Replay(d, w)[b] == d[b]
  {
  }

  /** Writes into the log leave the home blocks alone. */
  lemma LogWritesKeepHome(lay: Layout, d: seq<Block>, w: seq<Write>)
    requires |d| == lay.size && lay.Ok()
    requires forall i :: 0 <= i < |w| ==> lay.InLog(w[i].blockno)
    ensures SameHome(lay, Replay(d, w), d)
  {
  }

  lemma SameHomeReplay(lay: Layout, d: seq<Block>, e: seq<Block>, w: seq<Write>)
    requires SameHome(lay, d, e)
    ensures SameHome(lay, Replay(d, w), Replay(e, w))
  {
  }

  // ----- Recovery -----

  /** What recovery leaves: the pending updates applied, the log empty. */
  lemma RecoveredHome(lay: Layout, d: seq<Block>)
    requires DiskOk(lay, d)
    ensures SameHome(lay, Recovered(lay, d), Replay(d, Pending(lay, d)))
    ensures DiskOk(lay, Recovered(lay, d))
    ensures Recovered(lay, d)[lay.start][0] == 0
  {
    var p := Pending(lay, d);
    ReplayConcat(d, p, [Write(lay.start, PutHead(d[lay.start], []))]);
    var e := Replay(d, p);
    var w := [Write(lay.start, PutHead(d[lay.start], []))];
    assert w[..0] == [];
    assert Replay(e, w) == e[lay.start := PutHead(d[lay.start], [])];
  }

  /** Recovery may itself be cut short after any number of its writes: nothing changes. */
  lemma RecoveryIsIdempotent(lay: Layout, d: seq<Block>, k: nat)
    requires DiskOk(lay, d)
    requires k <= |RecoverWrites(lay, d)|
    ensures DiskOk(lay, Replay(d, RecoverWrites(lay, d)[..k]))
    ensures SameHome(lay, Recovered(lay, Replay(d, RecoverWrites(lay, d)[..k])), Recovered(lay, d))
  {
    var p := Pending(lay, d);
    var w := RecoverWrites(lay, d);
    RecoveredHome(lay, d);
    if k <= |p| {
      assert w[..k] == p[..k];
      var e := Replay(d, p[..k]);
      HomeWritesKeepLog(lay, d, p[..k]);
      assert Pending(lay, e) == p;
      RedoIdempotent(d, p, k);
      RecoveredHome(lay, e);
    } else {
      assert w[..k] == w;
      var e := Recovered(lay, d);
      RecoveredHome(lay, e);
      assert Pending(lay, e) == [];
    }
  }

  // ----- One group commit, stopped anywhere -----

  /** The state right after the header write of commit. */
  function AfterHeader(lay: Layout, d: seq<Block>, tx: seq<Write>): (r: seq<Block>)
    requires DiskOk(lay, d) && TxOk(lay, tx)
    ensures |r| == |d|
  {
    Replay(d, LogWrites(lay.start, tx))[lay.start := PutHead(d[lay.start], Blocks(tx))]
  }

  /** After write_log and the header write, the header on disk describes exactly the transaction. */
  lemma HeaderCommits(lay: Layout, d: seq<Block>, tx: seq<Write>)
    requires DiskOk(lay, d) && TxOk(lay, tx)
    ensures DiskOk(lay, AfterHeader(lay, d, tx))
    ensures Pending(lay, AfterHeader(lay, d, tx)) == tx
    ensures SameHome(lay, AfterHeader(lay, d, tx), d)
  {
    hide Replay, PutHead, Blocks, LogWrites, Pending, SameHome;
    var m := Replay(d, LogWrites(lay.start, tx));
    assert SameHome(lay, m, d) by {
      LogWritesInLog(lay, tx);
      LogWritesKeepHome(lay, d, LogWrites(lay.start, tx));
    }
    forall t | 0 <= t < |tx|
      ensures m[lay.start + 1 + t] == tx[t].data
    {
      LogWritten(d, lay.start, tx, t);
    }
    HeadDescribes(lay, d[lay.start], tx);
    HeaderOnTop(lay, d, m, PutHead(d[lay.start], Blocks(tx)), tx);
  }

  lemma LogWritesInLog(lay: Layout, tx: seq<Write>)
    requires |tx| <= lay.logblocks
    ensures forall i :: 0 <= i < |LogWrites(lay.start, tx)| ==> lay.InLog(LogWrites(lay.start, tx)[i].blockno)
  {
  }

  /** What write_head writes: a header recovery can read, listing the transaction's blocks. */
  lemma HeadDescribes(lay: Layout, hb: Block, tx: seq<Write>)
    requires HeadOk(lay, hb) && TxOk(lay, tx)
    ensures HeadOk(lay, PutHead(hb, Blocks(tx)))
    ensures PutHead(hb, Blocks(tx))[0] == |tx|
    ensures forall t :: 0 <= t < |tx| ==> PutHead(hb, Blocks(tx))[1 + t] == tx[t].blockno
  {
    var h := PutHead(hb, Blocks(tx));
    forall j | 1 <= j <= |tx|
      ensures 0 <= h[j] && lay.Home(h[j])
    {
      assert h[1 + (j - 1)] == Blocks(tx)[j - 1];
    }
  }

  /** A header `h` that lists `tx`, on a disk whose log blocks hold its data, makes it pending. */
  lemma HeaderOnTop(lay: Layout, d: seq<Block>, m: seq<Block>, h: Block, tx: seq<Write>)
    requires lay.Ok() && SameHome(lay, m, d) && HeadOk(lay, h)
    requires h[0] == |tx| <= lay.logblocks
    requires forall t :: 0 <= t < |tx| ==> h[1 + t] == tx[t].blockno && m[lay.start + 1 + t] == tx[t].data
    ensures DiskOk(lay, m[lay.start := h])
    ensures Pending(lay, m[lay.start := h]) == tx
    ensures SameHome(lay, m[lay.start := h], d)
  {
    hide Replay;
    var p := Pending(lay, m[lay.start := h]);
    forall t | 0 <= t < |tx|
      ensures p[t] == tx[t]
    {
    }
  }

  /** The t-th log block holds the t-th update. */
  lemma {:induction false} LogWritten(d: seq<Block>, start: nat, tx: seq<Write>, t: nat)
    requires t < |tx| && start + |tx| < |d|
    ensures Replay(d, LogWrites(start, tx))[start + 1 + t] == tx[t].data
  {
    var lw := LogWrites(start, tx);
    if t < |tx| - 1 {
      assert lw[..|lw| - 1] == LogWrites(start, tx[..|tx| - 1]);
      LogWritten(d, start, tx[..|tx| - 1], t);
    }
  }

  /** Before the header write the old state is recovered; from the header write on, the new one. */
  lemma CommitIsAtomic(lay: Layout, d: seq<Block>, tx: seq<Write>, k: nat)
    requires DiskOk(lay, d) && TxOk(lay, tx) && d[lay.start][0] == 0
    requires k <= |CommitWrites(lay, d[lay.start], tx)|
    ensures DiskOk(lay, Replay(d, CommitWrites(lay, d[lay.start], tx)[..k]))
    ensures SameHome(lay, Recovered(lay, Replay(d, CommitWrites(lay, d[lay.start], tx)[..k])),
                     if k > |tx| then Replay(d, tx) else d)
    ensures tx != [] && k == |CommitWrites(lay, d[lay.start], tx)|
            ==> Replay(d, CommitWrites(lay, d[lay.start], tx))[lay.start][0] == 0
                && SameHome(lay, Replay(d, CommitWrites(lay, d[lay.start], tx)), Replay(d, tx))
  {
    if k <= |tx| {
      CommitCutEarly(lay, d, tx, k);
    } else {
      CommitCutLate(lay, d, tx, k);
    }
    if tx != [] {
      CommitFinishes(lay, d, tx);
    }
  }

  lemma CommitCutEarly(lay: Layout, d: seq<Block>, tx: seq<Write>, k: nat)
    requires DiskOk(lay, d) && TxOk(lay, tx) && d[lay.start][0] == 0
    requires k <= |tx| && k <= |CommitWrites(lay, d[lay.start], tx)|
    ensures DiskOk(lay, Replay(d, CommitWrites(lay, d[lay.start], tx)[..k]))
    ensures SameHome(lay, Recovered(lay, Replay(d, CommitWrites(lay, d[lay.start], tx)[..k])), d)
  {
    var w := CommitWrites(lay, d[lay.start], tx)[..k];
    if tx != [] {
      assert w == LogWrites(lay.start, tx)[..k];
    }
    LogWritesKeepHome(lay, d, w);
    var e := Replay(d, w);
    ReplayUntouched(d, w, lay.start);
    RecoveredHome(lay, e);
    assert Pending(lay, e) == [];
  }

  /** After its header write, commit does what recovery would do. */
  lemma CommitEndsLikeRecovery(lay: Layout, d: seq<Block>, tx: seq<Write>)
    returns (first: seq<Write>)
    requires DiskOk(lay, d) && TxOk(lay, tx) && tx != []
    ensures DiskOk(lay, AfterHeader(lay, d, tx))
    ensures |first| == |tx| + 1
    ensures CommitWrites(lay, d[lay.start], tx) == first + RecoverWrites(lay, AfterHeader(lay, d, tx))
    ensures Replay(d, first) == AfterHeader(lay, d, tx)
  {
    hide SameHome, Pending;
    HeaderCommits(lay, d, tx);
    var lw := LogWrites(lay.start, tx);
    var h := PutHead(d[lay.start], Blocks(tx));
    var last := [Write(lay.start, PutHead(h, []))];
    first := lw + [Write(lay.start, h)];
    assert first[..|first| - 1] == lw;
    assert RecoverWrites(lay, AfterHeader(lay, d, tx)) == tx + last;
    assert first + tx + last == first + (tx + last);
  }

  /** A commit cut after its header write is a recovery cut somewhere. */
  lemma LateCut(lay: Layout, d: seq<Block>, tx: seq<Write>, k: nat)
    requires DiskOk(lay, d) && TxOk(lay, tx)
    requires |tx| < k <= |CommitWrites(lay, d[lay.start], tx)|
    ensures DiskOk(lay, AfterHeader(lay, d, tx))
    ensures |CommitWrites(lay, d[lay.start], tx)| == |tx| + 1 + |RecoverWrites(lay, AfterHeader(lay, d, tx))|
    ensures Replay(d, CommitWrites(lay, d[lay.start], tx)[..k])
         == Replay(AfterHeader(lay, d, tx), RecoverWrites(lay, AfterHeader(lay, d, tx))[..k - |tx| - 1])
  {
    var first := CommitEndsLikeRecovery(lay, d, tx);
    ReplayCut(d, first, RecoverWrites(lay, AfterHeader(lay, d, tx)), k);
  }

  lemma CommitCutLate(lay: Layout, d: seq<Block>, tx: seq<Write>, k: nat)
    requires DiskOk(lay, d) && TxOk(lay, tx) && d[lay.start][0] == 0
    requires |tx| < k <= |CommitWrites(lay, d[lay.start], tx)|
    ensures DiskOk(lay, Replay(d, CommitWrites(lay, d[lay.start], tx)[..k]))
    ensures SameHome(lay, Recovered(lay, Replay(d, CommitWrites(lay, d[lay.start], tx)[..k])), Replay(d, tx))
  {
    hide *;
    LateCut(lay, d, tx, k);
    AfterHeaderRecovers(lay, d, tx);
    var c := AfterHeader(lay, d, tx);
    RecoveryIsIdempotent(lay, c, k - |tx| - 1);
    SameHomeTransitive(lay, Recovered(lay, Replay(c, RecoverWrites(lay, c)[..k - |tx| - 1])), Recovered(lay, c), Replay(d, tx));
  }

  /** A finished commit leaves an empty log and the updates at home. */
  lemma CommitFinishes(lay: Layout, d: seq<Block>, tx: seq<Write>)
    requires DiskOk(lay, d) && TxOk(lay, tx) && tx != []
    ensures Replay(d, CommitWrites(lay, d[lay.start], tx))[lay.start][0] == 0
    ensures SameHome(lay, Replay(d, CommitWrites(lay, d[lay.start], tx)), Replay(d, tx))
  {
    var w := CommitWrites(lay, d[lay.start], tx);
    LateCut(lay, d, tx, |w|);
    assert w[..|w|] == w;
    AfterHeaderRecovers(lay, d, tx);
    var rest := RecoverWrites(lay, AfterHeader(lay, d, tx));
    assert rest[..|rest|] == rest;
  }

  /** Recovering right after the header write yields the transaction's updates. */
  lemma AfterHeaderRecovers(lay: Layout, d: seq<Block>, tx: seq<Write>)
    requires DiskOk(lay, d) && TxOk(lay, tx)
    ensures DiskOk(lay, AfterHeader(lay, d, tx))
    ensures SameHome(lay, Recovered(lay, AfterHeader(lay, d, tx)), Replay(d, tx))
    ensures Recovered(lay, AfterHeader(lay, d, tx))[lay.start][0] == 0
  {
    HeaderCommits(lay, d, tx);
    var c := AfterHeader(lay, d, tx);
    RecoveredHome(lay, c);
    SameHomeReplay(lay, c, d, tx);
    SameHomeTransitive(lay, Recovered(lay, c), Replay(c, tx), Replay(d, tx));
  }

  lemma SameHomeTransitive(lay: Layout, d: seq<Block>, e: seq<Block>, f: seq<Block>)
    requires SameHome(lay, d, e) && SameHome(lay, e, f)
    ensures SameHome(lay, d, f)
  {
  }

  // ----- Whole runs -----

  /** A group commit or a boot, each stopped after `k` of its block writes
      (a crash unless `k` is all of them). */
  datatype Event = Commit(tx: seq<Write>, k: nat) | Boot(k: nat)

  /** The machine: its disk, and whether file-system code is running (as opposed to crashed). */
  datatype Machine = Machine(disk: seq<Block>, up: bool)

  ghost predicate Enabled(lay: Layout, m: Machine, e: Event)
    requires DiskOk(lay, m.disk)
  {
    match e
    case Commit(tx, k) => m.up && TxOk(lay, tx) && k <= |CommitWrites(lay, m.disk[lay.start], tx)|
    case Boot(k) => k <= |RecoverWrites(lay, m.disk)|
  }

  ghost function Step(lay: Layout, m: Machine, e: Event): Machine
    requires DiskOk(lay, m.disk) && Enabled(lay, m, e)
  {
    match e
    case Commit(tx, k) =>
      var w := CommitWrites(lay, m.disk[lay.start], tx);
      Machine(Replay(m.disk, w[..k]), k == |w|)
    case Boot(k) =>
      var w := RecoverWrites(lay, m.disk);
      Machine(Replay(m.disk, w[..k]), k == |w|)
  }

  /** `run[i]` is the machine before event i. */
  ghost predicate IsRun(lay: Layout, run: seq<Machine>, events: seq<Event>) {
    && |run| == |events| + 1
    && !run[0].up
    && DiskOk(lay, run[0].disk)
    && forall i :: 0 <= i < |events| ==>
         DiskOk(lay, run[i].disk) && Enabled(lay, run[i], events[i]) && run[i + 1] == Step(lay, run[i], events[i])
  }

  /** All updates, in order, of the commits whose header write reached the disk. */
  ghost function Durable(events: seq<Event>): seq<Write> {
    if events == [] then []
    else
      var e := events[|events| - 1];
      Durable(events[..|events| - 1]) + if e.Commit? && e.k > |e.tx| then e.tx else []
  }

  /** Crash atomicity. In every run, with crashes anywhere (recovery included, any number of times),
      recovering now yields the initially recovered file system plus exactly the durable commits;
      while the machine is up the home blocks already are that state. */
  lemma {:induction false} CrashAtomicity(lay: Layout, run: seq<Machine>, events: seq<Event>)
    requires IsRun(lay, run, events)
    ensures
      var m := run[|events|];
      var expected := Replay(Recovered(lay, run[0].disk), Durable(events));
      && DiskOk(lay, m.disk)
      && SameHome(lay, Recovered(lay, m.disk), expected)
      && (m.up ==> m.disk[lay.start][0] == 0 && SameHome(lay, m.disk, expected))
  {
    if events != [] {
      hide Replay, Recovered, Step, SameHome, PutHead, CommitWrites, RecoverWrites;
      var n := |events| - 1;
      assert IsRun(lay, run[..n + 1], events[..n]);
      CrashAtomicity(lay, run[..n + 1], events[..n]);
      var expected := Replay(Recovered(lay, run[0].disk), Durable(events[..n]));
      StepKeepsPromise(lay, run[n], events[n], expected);
      ReplayConcat(Recovered(lay, run[0].disk), Durable(events[..n]),
                   if events[n].Commit? && events[n].k > |events[n].tx| then events[n].tx else []);
    }
  }

  /** One event moves the promised state by exactly the transaction it makes durable. */
  lemma StepKeepsPromise(lay: Layout, m: Machine, e: Event, expected: seq<Block>)
    requires DiskOk(lay, m.disk) && Enabled(lay, m, e)
    requires SameHome(lay, Recovered(lay, m.disk), expected)
    requires m.up ==> m.disk[lay.start][0] == 0 && SameHome(lay, m.disk, expected)
    ensures
      var m' := Step(lay, m, e);
      var expected' := Replay(expected, if e.Commit? && e.k > |e.tx| then e.tx else []);
      && DiskOk(lay, m'.disk)
      && SameHome(lay, Recovered(lay, m'.disk), expected')
      && (m'.up ==> m'.disk[lay.start][0] == 0 && SameHome(lay, m'.disk, expected'))
  {
    match e {
      case Commit(tx, k) =>
        CommitKeepsPromise(lay, m.disk, tx, k, expected);
      case Boot(k) =>
        BootKeepsPromise(lay, m.disk, k, expected);
    }
  }

  lemma CommitKeepsPromise(lay: Layout, d: seq<Block>, tx: seq<Write>, k: nat, expected: seq<Block>)
    requires DiskOk(lay, d) && TxOk(lay, tx) && d[lay.start][0] == 0
    requires SameHome(lay, d, expected)
    requires k <= |CommitWrites(lay, d[lay.start], tx)|
    ensures
      var w := CommitWrites(lay, d[lay.start], tx);
      var d' := Replay(d, w[..k]);
      var expected' := Replay(expected, if k > |tx| then tx else []);
      && DiskOk(lay, d')
      && SameHome(lay, Recovered(lay, d'), expected')
      && (k == |w| ==> d'[lay.start][0] == 0 && SameHome(lay, d', expected'))
  {
    hide SameHome, Recovered, PutHead;
    var w := CommitWrites(lay, d[lay.start], tx);
    var done := if k > |tx| then tx else [];
    CommitIsAtomic(lay, d, tx, k);
    SameHomeReplay(lay, d, expected, done);
    SameHomeTransitive(lay, Recovered(lay, Replay(d, w[..k])), Replay(d, done), Replay(expected, done));
    if k == |w| && tx != [] {
      assert w[..k] == w;
      SameHomeTransitive(lay, Replay(d, w), Replay(d, tx), Replay(expected, tx));
    }
  }

  lemma BootKeepsPromise(lay: Layout, d: seq<Block>, k: nat, expected: seq<Block>)
    requires DiskOk(lay, d) && SameHome(lay, Recovered(lay, d), expected)
    requires k <= |RecoverWrites(lay, d)|
    ensures
      var d' := Replay(d, RecoverWrites(lay, d)[..k]);
      && DiskOk(lay, d')
      && SameHome(lay, Recovered(lay, d'), expected)
      && (k == |RecoverWrites(lay, d)| ==> d'[lay.start][0] == 0 && SameHome(lay, d', expected))
  {
    hide SameHome, PutHead, DiskOk, Replay, RecoverWrites;
    var w := RecoverWrites(lay, d);
    RecoveryIsIdempotent(lay, d, k);
    RecoveredHome(lay, d);
    SameHomeTransitive(lay, Recovered(lay, Replay(d, w[..k])), Recovered(lay, d), expected);
    assert w[..|w|] == w;
  }
}
