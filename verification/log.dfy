/** The redo log of kernel/log.c, on top of the buffer cache. */
module RedoLog {
  import opened Ring
  import opened Bio
  import opened Crash
  import opened LogInv
  import opened Counting
  import opened Params
  import opened Wrappers

  /** The home contents of the logged blocks, as a transaction. */
  function Group(flat: seq<Block>, blocks: seq<nat>): (tx: seq<Write>)
    requires forall t :: 0 <= t < |blocks| ==> blocks[t] < |flat|
    ensures |tx| == |blocks|
    ensures forall t :: 0 <= t < |blocks| ==> tx[t] == Write(blocks[t], flat[blocks[t]])
  {
    seq(|blocks|, t requires 0 <= t < |blocks| => Write(blocks[t], flat[blocks[t]]))
  }

  class Log {
    const cache: Cache
    const lay: Layout
    var outstanding: nat
    var committing: bool
    var n: nat
    var block: seq<nat>
    /** The contents each block was last given. */
    ghost var flat: seq<Block>
    /** Buffers being changed by their holder. */
    ghost var dirty: set<nat>
    /** How many of the first n blocks are installed and unpinned again. */
    ghost var lo: nat

    ghost predicate HeaderOk()
      reads this`n, this`block, this`lo
    {
      && lo <= n <= |block| == lay.logblocks
      && Distinct(block[lo..n])
      && forall t :: 0 <= t < n ==> lay.Home(block[t])
    }

    ghost predicate Valid()
      reads this`n, this`block, this`lo, this`flat, this`dirty, cache
    {
      && cache.Valid()
      && lay.Ok()
      && |cache.disk| == lay.size
      && |cache.disk[lay.start]| > lay.logblocks
      && |flat| == lay.size
      && HeaderOk()
      && Inv(cache.buf, cache.disk, flat, dirty, block[lo..n])
    }

    /** Between transactions: nothing installed, nothing pending on disk. */
    ghost predicate Idle()
      reads this`n, this`block, this`lo, this`flat, this`dirty, cache
    {
      Valid() && lo == 0 && HeadOk(lay, cache.disk[lay.start]) && cache.disk[lay.start][0] == 0
    }

    ghost predicate Quiet()
      reads this`dirty, cache
    {
      NoneLocked(cache.buf) && dirty == {}
    }

    /** initlog on a freshly initialised cache, up to recovery. */
    constructor (c: Cache, l: Layout)
      requires c.Valid() && NoneLocked(c.buf)
      requires forall i :: 0 <= i < |c.buf| ==> c.buf[i].dev == 0
      requires DiskOk(l, c.disk)
      ensures cache == c && lay == l
      ensures Valid() && Quiet() && n == 0 && flat == c.disk && outstanding == 0 && !committing
    {
      cache := c;
      lay := l;
      outstanding := 0;
      committing := false;
      n := 0;
      block := seq(l.logblocks, _ => 0);
      flat := c.disk;
      dirty := {};
      lo := 0;
    }

    /** bread by any client: the last contents given to the block. */
    method Read(b: nat) returns (r: Option<nat>)
      requires Valid() && b < lay.size && Unlocked(cache.buf, b)
      modifies cache`buf
      ensures Valid()
      ensures r.None? <==> !Cached(old(cache.buf), ROOTDEV, b) && AllBusy(old(cache.buf))
      ensures r.None? ==> cache.buf == old(cache.buf)
      ensures r.Some? ==> cache.Holds(r.value, ROOTDEV, b) && r.value !in dirty && cache.buf[r.value].data == flat[b]
      ensures r.Some? ==> OnlyChanged(old(cache.buf), cache.buf, r.value)
      ensures r.Some? ==> !old(cache.buf[r.value]).locked && cache.buf[r.value].refcnt == old(cache.buf[r.value].refcnt) + 1
      ensures r.Some? ==> old(cache.buf[r.value]).Is(ROOTDEV, b) || old(cache.buf[r.value].refcnt) == 0
    {
      ghost var before := cache.buf;
      r := cache.Bread(ROOTDEV, b);
      if r.Some? {
        ReadKeeps(before, cache.buf, r.value, b, cache.disk, flat, dirty, block[lo..n]);
      }
    }

    /** A client changes the data of a buffer it holds. */
    method Modify(i: nat, data: Block)
      requires Valid() && i < |cache.buf| && cache.buf[i].locked && cache.buf[i].valid && cache.buf[i].dev == ROOTDEV
      modifies cache`buf, this`dirty
      ensures Valid()
      ensures cache.buf == old(cache.buf)[i := old(cache.buf[i]).(data := data)]
      ensures dirty == old(dirty) + {i}
    {
      ModifyKeeps(cache.buf, i, data, cache.disk, flat, dirty, block[lo..n]);
      cache.buf := cache.buf[i := cache.buf[i].(data := data)];
      dirty := dirty + {i};
    }

    /** brelse by a client that has logged its changes. */
    method Release(i: nat)
      requires Valid() && i < |cache.buf| && cache.buf[i].locked && i !in dirty
      modifies cache`buf, cache`next, cache`prev, cache`order, cache`history
      ensures Valid()
      ensures cache.buf == old(cache.buf)[i := old(cache.buf[i]).(locked := false, refcnt := old(cache.buf[i].refcnt) - 1)]
    {
      ReleaseKeeps(cache.buf, i, cache.disk, flat, dirty, block[lo..n]);
      cache.Brelse(i);
    }

    /** The position of a block among the first n logged ones, or n. */
    method Slot(b: nat) returns (i: nat)
      requires HeaderOk()
      ensures i <= n
      ensures i < n ==> block[i] == b
      ensures i == n ==> b !in block[..n]
    {
      i := 0;
      while i < n
        invariant i <= n
        invariant forall t :: 0 <= t < i ==> block[t] != b
      {
        if block[i] == b {
          return;
        }
        i := i + 1;
      }
    }

    /** log_write. The result is false for its two panics. */
    method LogWrite(i: nat) returns (ok: bool)
      requires Valid() && lo == 0
      requires i < |cache.buf| && cache.buf[i].locked && cache.buf[i].valid && cache.buf[i].dev == ROOTDEV
      requires lay.Home(cache.buf[i].blockno)
      modifies this`n, this`block, this`flat, this`dirty, cache`buf
      ensures ok <==> old(n) < lay.logblocks && outstanding >= 1
      ensures Valid()
      ensures !ok ==> cache.buf == old(cache.buf) && flat == old(flat) && dirty == old(dirty) && n == old(n) && block == old(block)
      ensures ok ==>
        var b := old(cache.buf[i].blockno);
        && flat == old(flat)[b := old(cache.buf[i].data)]
        && dirty == old(dirty) - {i}
        && block[..n] == old(block[..n]) + (if b in old(block[..n]) then [] else [b])
        && (if b in old(block[..n]) then cache.buf == old(cache.buf)
            else cache.buf == old(cache.buf)[i := old(cache.buf[i]).(refcnt := old(cache.buf[i].refcnt) + 1)])
    {
      if n >= lay.logblocks || outstanding < 1 {
        return false;
      }
      var b := cache.buf[i].blockno;
      var s := Slot(b);
      if s == n {
        LogNew(i);
      } else {
        LogAgain(i, s);
      }
      ok := true;
    }

    /** The rest of log_write for a block not in the log yet. */
    method LogNew(i: nat)
      requires Valid() && lo == 0 && n < lay.logblocks
      requires i < |cache.buf| && cache.buf[i].locked && cache.buf[i].valid && cache.buf[i].dev == ROOTDEV
      requires lay.Home(cache.buf[i].blockno) && cache.buf[i].blockno !in block[..n]
      modifies this`n, this`block, this`flat, this`dirty, cache`buf
      ensures Valid() && n == old(n) + 1
      ensures flat == old(flat)[old(cache.buf[i].blockno) := old(cache.buf[i].data)]
      ensures dirty == old(dirty) - {i}
      ensures block[..n] == old(block[..n]) + [old(cache.buf[i].blockno)]
      ensures cache.buf == old(cache.buf)[i := old(cache.buf[i]).(refcnt := old(cache.buf[i].refcnt) + 1)]
    {
      var b := cache.buf[i].blockno;
      ghost var logged := block[..n];
      LogNewKeeps(cache.buf, i, cache.disk, flat, dirty, block[lo..n]);
      hide LogInv.Inv;
      flat := flat[b := cache.buf[i].data];
      dirty := dirty - {i};
      block := block[n := b];
      cache.Bpin(i);
      n := n + 1;
      assert block[lo..n] == block[..n] == logged + [b];
    }

    /** The rest of log_write for a block found at position s. */
    method LogAgain(i: nat, s: nat)
      requires Valid() && lo == 0 && s < n
      requires i < |cache.buf| && cache.buf[i].valid && cache.buf[i].Is(ROOTDEV, block[s])
      modifies this`block, this`flat, this`dirty
      ensures Valid() && block[..n] == old(block[..n])
      ensures flat == old(flat)[cache.buf[i].blockno := cache.buf[i].data]
      ensures dirty == old(dirty) - {i}
    {
      InSlice(block, lo, n, s);
      LogAgainKeeps(cache.buf, i, cache.disk, flat, dirty, block[lo..n]);
      hide LogInv.Inv;
      assert block[s := cache.buf[i].blockno] == block;
      block := block[s := cache.buf[i].blockno];
      flat := flat[cache.buf[i].blockno := cache.buf[i].data];
      dirty := dirty - {i};
    }

    /** bwrite of a held buffer by the log itself. */
    method WriteBack(i: nat)
      requires Valid()
      requires i < |cache.buf| && cache.buf[i].locked && cache.buf[i].valid && cache.buf[i].dev == ROOTDEV
      requires cache.buf[i].blockno == lay.start ==> |cache.buf[i].data| > lay.logblocks
      modifies cache`disk, cache`writes, this`flat, this`dirty
      ensures Valid()
      ensures cache.disk == old(cache.disk)[cache.buf[i].blockno := cache.buf[i].data]
      ensures cache.writes == old(cache.writes) + [Write(cache.buf[i].blockno, cache.buf[i].data)]
      ensures flat == old(flat)[cache.buf[i].blockno := cache.buf[i].data]
      ensures dirty == old(dirty) - {i}
    {
      WriteKeeps(cache.buf, i, cache.disk, flat, dirty, block[lo..n]);
      cache.Bwrite(i);
      flat := flat[cache.buf[i].blockno := cache.buf[i].data];
      dirty := dirty - {i};
    }

    lemma Unique()
      requires Valid()
      ensures UniqueIds(cache.buf)
    {
    }

    lemma LoggedIsCached(b: nat)
      requires Valid()
      ensures b in block[lo..n] ==> Cached(cache.buf, ROOTDEV, b)
    {
      PinnedIsCached(cache.buf, block[lo..n], b);
    }

    /** The two breads that open the loop bodies of write_log and install_trans:
        log block t, then home block t. False is a cache with no buffer left. */
    method ReadPair(t: nat) returns (ok: bool, l: nat, h: nat)
      requires Valid() && Quiet() && t < n
      modifies cache`buf
      ensures Valid() && |cache.buf| == old(|cache.buf|)
      ensures block[t] in block[lo..n] ==>
                (ok <==> Cached(old(cache.buf), ROOTDEV, lay.start + 1 + t) || !AllBusy(old(cache.buf)))
      ensures |cache.buf| >= 2 && AllIdle(old(cache.buf)) ==> ok
      ensures ok ==>
        && l != h
        && cache.Holds(l, ROOTDEV, lay.start + 1 + t) && cache.buf[l].data == flat[lay.start + 1 + t]
        && cache.Holds(h, ROOTDEV, block[t]) && cache.buf[h].data == flat[block[t]]
        && TwoHeld(old(cache.buf), cache.buf, l, h)
    {
      hide LogInv.Inv, Bio.Cache.Valid;
      ok, l, h := false, 0, 0;
      IdleNotBusy(cache.buf);
      var log := Read(lay.start + 1 + t);
      if log.None? {
        return;
      }
      LoggedIsCached(block[t]);
      SomeOtherIdle(old(cache.buf), cache.buf, log.value);
      var home := Read(block[t]);
      if home.None? {
        return;
      }
      ok, l, h := true, log.value, home.value;
    }

    /** One iteration of write_log: the cached contents of a logged block go to its log block. */
    method WriteLogOne(t: nat, ghost w: nat) returns (ok: bool)
      requires Valid() && Quiet() && t < n && lo == 0
      modifies cache, this`flat, this`dirty
      ensures Valid()
      ensures ok <==> Cached(old(cache.buf), ROOTDEV, lay.start + 1 + t) || !AllBusy(old(cache.buf))
      ensures IdleAt(old(cache.buf), w) ==> ok && IdleAt(cache.buf, w)
      ensures !ok ==> flat == old(flat) && cache.writes == old(cache.writes)
      ensures ok ==>
        && Quiet()
        && flat == old(flat)[lay.start + 1 + t := old(flat)[block[t]]]
        && cache.writes == old(cache.writes) + [Write(lay.start + 1 + t, old(flat)[block[t]])]
    {
      hide LogInv.Inv, Bio.Cache.Valid;
      InSlice(block, lo, n, t);
      var l, h;
      ok, l, h := ReadPair(t);
      if ok {
        CopyData(l, h);
        ReleasePair(h, l);
      }
    }

    /** memmove between two held buffers, then bwrite of the target. */
    method CopyData(to: nat, from: nat)
      requires Valid() && to != from
      requires to < |cache.buf| && cache.buf[to].locked && cache.buf[to].valid && cache.buf[to].dev == ROOTDEV
      requires from < |cache.buf| && cache.buf[to].blockno != lay.start
      modifies cache`buf, cache`disk, cache`writes, this`flat, this`dirty
      ensures Valid()
      ensures cache.buf == old(cache.buf)[to := old(cache.buf[to]).(data := old(cache.buf[from].data))]
      ensures dirty == old(dirty) - {to}
      ensures flat == old(flat)[old(cache.buf[to].blockno) := old(cache.buf[from].data)]
      ensures cache.disk == old(cache.disk)[old(cache.buf[to].blockno) := old(cache.buf[from].data)]
      ensures cache.writes == old(cache.writes) + [Write(old(cache.buf[to].blockno), old(cache.buf[from].data))]
    {
      Modify(to, cache.buf[from].data);
      WriteBack(to);
    }

    method ReleasePair(i: nat, j: nat)
      requires Valid() && i != j
      requires i < |cache.buf| && cache.buf[i].locked && i !in dirty
      requires j < |cache.buf| && cache.buf[j].locked && j !in dirty
      modifies cache`buf, cache`next, cache`prev, cache`order, cache`history
      ensures Valid() && |cache.buf| == old(|cache.buf|)
      ensures forall k :: 0 <= k < |cache.buf| && k != i && k != j ==> cache.buf[k] == old(cache.buf[k])
      ensures !cache.buf[i].locked && cache.buf[i].refcnt == old(cache.buf[i].refcnt) - 1
      ensures !cache.buf[j].locked && cache.buf[j].refcnt == old(cache.buf[j].refcnt) - 1
    {
      Release(i);
      Release(j);
    }

    /** One iteration of install_trans: the log block's contents go home; outside recovery the pin is dropped. */
    method InstallOne(t: nat, recovering: bool, ghost w: nat) returns (ok: bool)
      requires Valid() && Quiet() && t < n
      requires recovering ==> lo == n
      requires !recovering ==> lo == t && flat[lay.start + 1 + t] == flat[block[t]]
      modifies cache, this`flat, this`dirty, this`lo
      ensures Valid()
      ensures !recovering && IdleAt(old(cache.buf), w) ==> ok && IdleAt(cache.buf, w)
      ensures recovering && |cache.buf| >= 2 && AllIdle(old(cache.buf)) ==> ok && AllIdle(cache.buf)
      ensures |cache.buf| == old(|cache.buf|)
      ensures !ok ==> cache.writes == old(cache.writes)
      ensures ok ==>
        && Quiet()
        && lo == (if recovering then n else t + 1)
        && flat == old(flat)[block[t] := old(flat)[lay.start + 1 + t]]
        && cache.writes == old(cache.writes) + [Write(block[t], old(flat)[lay.start + 1 + t])]
    {
      hide LogInv.Inv, Bio.Cache.Valid;
      if !recovering {
        InSlice(block, lo, n, t);
      }
      var l, h;
      ok, l, h := ReadPair(t);
      if ok {
        CopyHome(l, h, t, recovering);
        ReleasePair(l, h);
      }
    }

    /** The copy, the write and the unpin of one install_trans iteration. */
    method CopyHome(l: nat, h: nat, t: nat, recovering: bool)
      requires Valid() && t < n && l != h
      requires recovering || lo == t
      requires l < |cache.buf|
      requires h < |cache.buf| && cache.buf[h].locked && cache.buf[h].valid && cache.buf[h].Is(ROOTDEV, block[t])
      requires !recovering ==> cache.buf[l].data == flat[block[t]]
      modifies cache`buf, cache`disk, cache`writes, this`flat, this`dirty, this`lo
      ensures Valid()
      ensures OnlyChanged(old(cache.buf), cache.buf, h)
      ensures cache.buf[h].locked && cache.buf[h].refcnt == old(cache.buf[h].refcnt) - (if recovering then 0 else 1)
      ensures lo == if recovering then old(lo) else t + 1
      ensures dirty == old(dirty) - {h}
      ensures flat == old(flat)[block[t] := old(cache.buf[l].data)]
      ensures cache.disk == old(cache.disk)[block[t] := old(cache.buf[l].data)]
      ensures cache.writes == old(cache.writes) + [Write(block[t], old(cache.buf[l].data))]
    {
      CopyData(h, l);
      if !recovering {
        DropPin(h);
      }
    }

    /** bunpin after installing the block at position lo. */
    method DropPin(h: nat)
      requires Valid() && lo < n
      requires h < |cache.buf| && cache.buf[h].locked && cache.buf[h].Is(ROOTDEV, block[lo])
      requires cache.disk[block[lo]] == flat[block[lo]]
      modifies cache`buf, this`lo
      ensures Valid()
      ensures lo == old(lo) + 1
      ensures cache.buf == old(cache.buf)[h := old(cache.buf[h]).(refcnt := old(cache.buf[h].refcnt) - 1)]
      ensures cache.buf[h].refcnt > 0
    {
      hide LogInv.Inv, Bio.Cache.Valid;
      ghost var logged := block[lo..n];
      PinAt(cache.buf, cache.disk, flat, dirty, logged, h);
      UnpinKeeps(cache.buf, h, cache.disk, flat, dirty, logged);
      cache.Bunpin(h);
      lo := lo + 1;
      assert block[lo..n] == logged[1..];
    }

    ghost predicate BlocksOk()
      reads this`n, this`block, this`lo, this`flat
    {
      HeaderOk() && |flat| == lay.size
    }

    /** The pending transaction: the logged blocks with their flat contents. */
    ghost function Tx(): (tx: seq<Write>)
      reads this`n, this`block, this`lo, this`flat
      requires BlocksOk()
      ensures |tx| == n
    {
      Group(flat, block[..n])
    }

    /** write_log. An idle buffer `w` guarantees success. */
    method WriteLog(ghost w: nat) returns (ok: bool)
      requires Valid() && Quiet() && lo == 0
      modifies cache, this`flat, this`dirty
      ensures Valid()
      ensures IdleAt(old(cache.buf), w) ==> ok && IdleAt(cache.buf, w)
      ensures n > 0 && AllBusy(old(cache.buf)) && !Cached(old(cache.buf), ROOTDEV, lay.start + 1) ==>
                !ok && cache.writes == old(cache.writes)
      ensures cache.writes <= old(cache.writes) + LogWrites(lay.start, old(Tx()))
      ensures ok ==>
        && Quiet()
        && SameHome(lay, flat, old(flat))
        && flat[lay.start] == old(flat[lay.start])
        && SlotsFilled(flat, lay.start, old(Tx()))
        && cache.writes == old(cache.writes) + LogWrites(lay.start, old(Tx()))
    {
      hide LogInv.Inv, Bio.Cache.Valid, Crash.SameHome, SlotsFilled, LogInv.NoneLocked;
      NoSlots(lay, flat, Tx());
      ghost var tx := Tx();
      ghost var lw := LogWrites(lay.start, tx);
      var tail := 0;
      while tail < n
        invariant tail <= n
        invariant Valid() && Quiet()
        invariant IdleAt(old(cache.buf), w) ==> IdleAt(cache.buf, w)
        invariant SameHome(lay, flat, old(flat))
        invariant flat[lay.start] == old(flat[lay.start])
        invariant SlotsFilled(flat, lay.start, tx[..tail])
        invariant cache.writes == old(cache.writes) + lw[..tail]
        invariant tail == 0 ==> cache.buf == old(cache.buf)
        invariant n > 0 && AllBusy(old(cache.buf)) && !Cached(old(cache.buf), ROOTDEV, lay.start + 1) ==> tail == 0
      {
        ghost var f := flat;
        ok := WriteLogOne(tail, w);
        if !ok {
          return;
        }
        FillSlot(lay, old(flat), f, flat, block[..n], tail);
        tail := tail + 1;
      }
      ok := true;
    }

    /** The header block is never logged, so cache and disk agree on it. */
    lemma HeaderSynced()
      requires Valid()
      ensures cache.disk[lay.start] == flat[lay.start]
      ensures |flat[lay.start]| > lay.logblocks >= n
      ensures Blocks(Tx()) == block[..n]
    {
      assert lay.start !in block[lo..n];
    }

    /** write_head: count and block list go into the header block and to disk. */
    method WriteHead(ghost w: nat) returns (ok: bool)
      requires Valid() && Quiet()
      modifies cache, this`flat, this`dirty
      ensures Valid() && |cache.buf| == old(|cache.buf|)
      ensures IdleAt(old(cache.buf), w) ==> ok && IdleAt(cache.buf, w)
      ensures !ok ==> flat == old(flat) && cache.writes == old(cache.writes)
      ensures ok ==>
        && Quiet()
        && SameRefs(old(cache.buf), cache.buf)
        && |old(flat)[lay.start]| > lay.logblocks
        && var hb := PutHead(old(flat)[lay.start], block[..n]);
           flat == old(flat)[lay.start := hb]
           && cache.writes == old(cache.writes) + [Write(lay.start, hb)]
    {
      HeaderSynced();
      assert |PutHead(flat[lay.start], block[..n])| == |flat[lay.start]|;
      hide LogInv.Inv, Bio.Cache.Valid, Crash.PutHead, Ring.Distinct, Bio.Cached, Bio.AllBusy;
      NoLocks(cache.buf, lay.start);
      hide LogInv.Unlocked;
      var b := Read(lay.start);
      ok := b.Some?;
      if ok {
        Modify(b.value, PutHead(cache.buf[b.value].data, block[..n]));
        WriteBack(b.value);
        Release(b.value);
      }
    }

    /** install_trans: every log block goes home, in order. */
    method InstallTrans(recovering: bool, ghost w: nat) returns (ok: bool)
      requires Valid() && Quiet()
      requires recovering ==> lo == n
      requires !recovering ==> lo == 0 && SlotsFilled(flat, lay.start, Tx())
      modifies cache, this`flat, this`dirty, this`lo
      ensures Valid()
      ensures !recovering && IdleAt(old(cache.buf), w) ==> ok && IdleAt(cache.buf, w)
      ensures recovering && |cache.buf| >= 2 && AllIdle(old(cache.buf)) ==> ok && AllIdle(cache.buf)
      ensures |cache.buf| == old(|cache.buf|)
      ensures cache.writes <= old(cache.writes) + SlotTx(old(flat), lay.start, block[..n])
      ensures ok ==>
        && Quiet() && lo == n
        && flat == Replay(old(flat), SlotTx(old(flat), lay.start, block[..n]))
        && (!recovering ==> flat == old(flat))
        && cache.writes == old(cache.writes) + SlotTx(old(flat), lay.start, block[..n])
    {
      hide LogInv.Inv, Bio.Cache.Valid, Bio.Replay;
      ghost var tx := SlotTx(flat, lay.start, block[..n]);
      ReplayNone(flat);
      var tail := 0;
      while tail < n
        invariant tail <= n
        invariant Valid() && Quiet()
        invariant lo == if recovering then n else tail
        invariant !recovering && IdleAt(old(cache.buf), w) ==> IdleAt(cache.buf, w)
        invariant recovering && |cache.buf| >= 2 && AllIdle(old(cache.buf)) ==> AllIdle(cache.buf)
        invariant |cache.buf| == old(|cache.buf|)
        invariant flat == Replay(old(flat), tx[..tail])
        invariant !recovering ==> flat == old(flat)
        invariant cache.writes == old(cache.writes) + tx[..tail]
      {
        InstallStep(lay, old(flat), block[..n], tail);
        ok := InstallOne(tail, recovering, w);
        if !ok {
          return;
        }
        tail := tail + 1;
      }
      assert tx[..n] == tx;
      ok := true;
    }

    /** The in-memory header is emptied once everything is installed. */
    method ClearCount()
      requires Valid() && lo == n
      modifies this`n, this`lo
      ensures Valid() && n == lo == 0
    {
      assert block[lo..n] == [] && block[0..0] == [];
      n := 0;
      lo := 0;
    }

    /** The first half of commit: log blocks, then the header that makes them durable. */
    method MakeDurable(ghost w: nat) returns (ok: bool)
      requires Valid() && Quiet() && lo == 0
      modifies cache, this`flat, this`dirty
      ensures Valid()
      ensures IdleAt(old(cache.buf), w) ==> ok && IdleAt(cache.buf, w)
      ensures n > 0 && AllBusy(old(cache.buf)) && !Cached(old(cache.buf), ROOTDEV, lay.start + 1) ==>
                !ok && cache.writes == old(cache.writes)
      ensures |old(flat)[lay.start]| > lay.logblocks
      ensures cache.writes <= old(cache.writes) + UpToHeader(lay, old(flat)[lay.start], old(Tx()))
      ensures ok ==>
        && Quiet()
        && SameHome(lay, flat, old(flat))
        && flat[lay.start] == PutHead(old(flat)[lay.start], block[..n])
        && SlotsFilled(flat, lay.start, old(Tx()))
        && cache.writes == old(cache.writes) + UpToHeader(lay, old(flat)[lay.start], old(Tx()))
    {
      hide LogInv.Inv, Bio.Cache.Valid, Bio.Replay, Crash.SameHome, SlotsFilled, Group, Crash.LogWrites, Crash.CommitWrites,
           UpToHeader, Crash.PutHead, Crash.Blocks, LogInv.NoneLocked, Ring.Distinct, Bio.AllBusy, Bio.Cached;
      HeaderSynced();
      ghost var flat0, before, tx := flat, cache.writes, Tx();
      ghost var hb := PutHead(flat[lay.start], block[..n]);
      UpToHeaderIs(lay, flat[lay.start], tx, block[..n]);
      ok := WriteLog(w);
      PrefixGrows(cache.writes, before, LogWrites(lay.start, tx), [Write(lay.start, hb)]);
      if ok {
        HeaderWriteKeeps(lay, flat0, flat, tx, hb);
        ok := WriteHead(w);
      }
    }

    /** The second half of commit: install, then erase the transaction from the log. */
    method InstallAndClear(ghost w: nat) returns (ok: bool)
      requires Valid() && Quiet() && lo == 0 && SlotsFilled(flat, lay.start, Tx())
      modifies this`n, this`lo, this`flat, this`dirty, cache
      ensures IdleAt(old(cache.buf), w) ==> ok
      ensures |old(flat)[lay.start]| > lay.logblocks
      ensures cache.writes <= old(cache.writes) + (old(Tx()) + [Write(lay.start, PutHead(old(flat)[lay.start], []))])
      ensures ok ==>
        && Idle() && Quiet() && n == 0
        && SameHome(lay, flat, old(flat))
        && cache.writes == old(cache.writes) + (old(Tx()) + [Write(lay.start, PutHead(old(flat)[lay.start], []))])
    {
      hide LogInv.Inv, Bio.Cache.Valid, Bio.Replay, Crash.SameHome, SlotsFilled, Group, Crash.LogWrites, Crash.CommitWrites,
           UpToHeader, Crash.PutHead, Crash.Blocks, LogInv.NoneLocked, Ring.Distinct, Bio.AllBusy, Bio.Cached;
      HeaderSynced();
      ghost var before, tx := cache.writes, Tx();
      ghost var h := Write(lay.start, PutHead(flat[lay.start], []));
      SlotsAre(flat, lay.start, block[..n]);
      ok := InstallTrans(false, w);
      PrefixGrows(cache.writes, before, tx, [h]);
      if ok {
        ClearCount();
        assert block[..n] == [];
        ClearedOk(lay, flat);
        ok := WriteHead(w);
        if ok {
          HeaderSynced();
        }
      }
    }

    /** commit. The block writes are those of CommitWrites, in order. It fails only for want of a buffer; when the
        log alone holds references, exactly when it holds every buffer. */
    method Commit() returns (ok: bool)
      requires Idle() && Quiet()
      modifies this`n, this`lo, this`flat, this`dirty, cache
      ensures !AllBusy(old(cache.buf)) ==> ok
      ensures old(n) > 0 && AllBusy(old(cache.buf)) && !Cached(old(cache.buf), ROOTDEV, lay.start + 1) ==>
                !ok && cache.writes == old(cache.writes)
      ensures OnlyPins(old(cache.buf), old(block[..n])) ==>
        && (ok <==> old(n) == 0 || old(n) < |old(cache.buf)|)
        && (!ok ==> cache.writes == old(cache.writes))
      ensures cache.writes <= old(cache.writes) + CommitWrites(lay, old(cache.disk[lay.start]), old(Tx()))
      ensures ok ==>
        && Idle() && Quiet() && n == 0
        && SameHome(lay, flat, old(flat))
        && cache.writes == old(cache.writes) + CommitWrites(lay, old(cache.disk[lay.start]), old(Tx()))
    {
      hide LogInv.Inv, Bio.Cache.Valid, Bio.Replay, Crash.SameHome, SlotsFilled, Group, Crash.LogWrites, Crash.CommitWrites,
           UpToHeader, Crash.PutHead, Crash.Blocks, LogInv.NoneLocked, Ring.Distinct, Bio.AllBusy, Bio.Cached, OnlyPins;
      HeaderSynced();
      if OnlyPins(cache.buf, block[..n]) {
        FullCacheIff(this);
      }
      ghost var w := SomeIdle(cache.buf);
      ok := true;
      if n > 0 {
        ghost var flat0, tx, before := flat, Tx(), cache.writes;
        ghost var up := UpToHeader(lay, flat[lay.start], tx);
        ghost var h := Write(lay.start, PutHead(PutHead(flat[lay.start], Blocks(tx)), []));
        SplitCommit(lay, flat[lay.start], tx);
        ok := MakeDurable(w);
        PrefixGrows(cache.writes, before, up, tx + [h]);
        if ok {
          SameGroup(lay, flat0, flat, block[..n]);
          ghost var flat1 := flat;
          ok := InstallAndClear(w);
          if ok {
            SameHomeTransitive(lay, flat, flat1, flat0);
          }
        }
      } else {
        NothingToCommit(lay, flat, Tx());
      }
    }

    /** The header block as read_head sees it. */
    method LoadHead() returns (hb: Block)
      requires Valid() && Quiet() && AllIdle(cache.buf) && |cache.buf| >= 2
      modifies cache
      ensures Valid() && Quiet() && AllIdle(cache.buf) && |cache.buf| == old(|cache.buf|)
      ensures cache.writes == old(cache.writes) && hb == flat[lay.start]
    {
      hide LogInv.Inv, Bio.Cache.Valid, Ring.Distinct;
      var b := Read(lay.start);
      assert b.Some? by {
        assert old(cache.buf[0].refcnt) == 0;
      }
      hb := cache.buf[b.value].data;
      Release(b.value);
    }

    /** read_head: the header on disk becomes the in-memory one. Nothing is pinned. */
    method ReadHead() returns (ok: bool)
      requires Valid() && Quiet() && AllIdle(cache.buf) && |cache.buf| >= 2
      requires n == 0 && lo == 0 && HeadOk(lay, flat[lay.start])
      modifies this`n, this`block, this`lo, cache
      ensures Valid() && Quiet() && AllIdle(cache.buf) && |cache.buf| == old(|cache.buf|)
      ensures ok && cache.writes == old(cache.writes)
      ensures lo == n == flat[lay.start][0]
      ensures forall t :: 0 <= t < n ==> block[t] == flat[lay.start][1 + t]
    {
      hide LogInv.Inv, Bio.Cache.Valid, LogInv.NoneLocked, AllIdle;
      var hb := LoadHead();
      ok := true;
      assert block[lo..n] == [];
      var lst: seq<nat> := block;
      var i := 0;
      while i < hb[0]
        invariant 0 <= i <= hb[0]
        invariant |lst| == lay.logblocks
        invariant forall t :: 0 <= t < i ==> lst[t] == hb[1 + t]
      {
        lst := lst[i := hb[1 + i]];
        i := i + 1;
      }
      block := lst;
      n := hb[0];
      lo := hb[0];
      assert block[lo..n] == [];
    }

    /** recover_from_log on a fresh cache: exactly the block writes of RecoverWrites. */
    method RecoverFromLog() returns (ok: bool)
      requires Valid() && Quiet() && AllIdle(cache.buf) && |cache.buf| >= 2
      requires n == 0 && lo == 0 && flat == cache.disk && DiskOk(lay, cache.disk)
      modifies this`n, this`block, this`lo, this`flat, this`dirty, cache
      ensures ok && Idle() && Quiet() && n == 0
      ensures cache.writes == old(cache.writes) + RecoverWrites(lay, old(cache.disk))
      ensures flat == Recovered(lay, old(cache.disk))
    {
      hide LogInv.Inv, Bio.Cache.Valid, Bio.Replay, Ring.Distinct;
      ghost var d := cache.disk;
      ok := ReadHead();
      assert SlotTx(flat, lay.start, block[..n]) == Pending(lay, d);
      ok := InstallTrans(true, 0);
      ReplayUntouched(d, Pending(lay, d), lay.start);
      ReplayPush(d, Pending(lay, d), Write(lay.start, PutHead(d[lay.start], [])));
      ClearCount();
      assert block[..n] == [];
      ClearedOk(lay, flat);
      ok := WriteHead(0);
      HeaderSynced();
    }

    /** One turn of begin_op's loop: either the operation starts or the caller must sleep. */
    method BeginOp() returns (started: bool)
      modifies this`outstanding
      ensures started <==> !committing && n + (old(outstanding) + 1) * MAXOPBLOCKS <= LOGBLOCKS
      ensures outstanding == old(outstanding) + if started then 1 else 0
    {
      if committing {
        started := false;
      } else if n + (outstanding + 1) * MAXOPBLOCKS > LOGBLOCKS {
        started := false;
      } else {
        outstanding := outstanding + 1;
        started := true;
      }
    }

    /** end_op: the last operation commits everything logged since the previous commit. */
    method EndOp() returns (ok: bool)
      requires Idle() && outstanding >= 1 && !committing
      requires outstanding == 1 ==> Quiet()
      modifies this`outstanding, this`committing, this`n, this`lo, this`flat, this`dirty, cache
      ensures outstanding == old(outstanding) - 1
      ensures old(outstanding) > 1 ==>
        && ok && Idle() && !committing && n == old(n) && block == old(block) && dirty == old(dirty) && flat == old(flat)
        && cache.buf == old(cache.buf) && cache.writes == old(cache.writes)
      ensures old(outstanding) == 1 ==>
        && (ok <==> !committing)
        && (!AllBusy(old(cache.buf)) ==> ok)
        && (OnlyPins(old(cache.buf), old(block[..n])) ==>
              && (ok <==> old(n) == 0 || old(n) < |old(cache.buf)|)
              && (!ok ==> cache.writes == old(cache.writes)))
        && cache.writes <= old(cache.writes) + CommitWrites(lay, old(cache.disk[lay.start]), old(Tx()))
        && (ok ==>
              && Idle() && Quiet() && n == 0
              && SameHome(lay, flat, old(flat))
              && cache.writes == old(cache.writes) + CommitWrites(lay, old(cache.disk[lay.start]), old(Tx())))
    {
      hide *;
      outstanding := outstanding - 1;
      ok := true;
      if outstanding == 0 {
        committing := true;
        ok := Commit();
        if ok {
          committing := false;
        }
      }
    }
  }

  // ----- What a crash during commit leaves -----

  /** Installing the group's blocks gives each of them its flat contents and touches no other. */
  lemma {:induction false} GroupReplays(d: seq<Block>, flat: seq<Block>, blocks: seq<nat>, b: nat)
    requires |d| == |flat| && b < |d| && forall t :: 0 <= t < |blocks| ==> blocks[t] < |flat|
    ensures Replay(d, Group(flat, blocks))[b] == if b in blocks then flat[b] else d[b]
  {
    if blocks != [] {
      var n := |blocks| - 1;
      assert Group(flat, blocks)[..n] == Group(flat, blocks[..n]);
      GroupReplays(d, flat, blocks[..n], b);
      assert b in blocks <==> b in blocks[..n] || b == blocks[n];
    }
  }

  /** A crash between any two block writes of a commit: recovery yields the home blocks as the last commit left
      them, or all contents that clients were reading when this one started; nothing in between. */
  lemma CrashDuringCommit(lay: Layout, d: seq<Block>, flat: seq<Block>, blocks: seq<nat>, k: nat)
    requires DiskOk(lay, d) && d[lay.start][0] == 0 && DiskAgrees(d, flat, blocks)
    requires |flat| == lay.size && |blocks| <= lay.logblocks
    requires forall t :: 0 <= t < |blocks| ==> lay.Home(blocks[t]) && blocks[t] < |flat|
    requires k <= |CommitWrites(lay, d[lay.start], Group(flat, blocks))|
    ensures DiskOk(lay, Replay(d, CommitWrites(lay, d[lay.start], Group(flat, blocks))[..k]))
    ensures SameHome(lay, Recovered(lay, Replay(d, CommitWrites(lay, d[lay.start], Group(flat, blocks))[..k])),
                     if k > |blocks| then flat else d)
  {
    var tx := Group(flat, blocks);
    assert TxOk(lay, tx);
    CommitIsAtomic(lay, d, tx, k);
    hide Replay, Recovered, CommitWrites, Group, DiskOk;
    assert SameHome(lay, Replay(d, tx), flat) by {
      forall b | 0 <= b < lay.size && lay.Home(b)
        ensures Replay(d, tx)[b] == flat[b]
      {
        GroupReplays(d, flat, blocks, b);
      }
    }
    if k > |blocks| {
      SameHomeTransitive(lay, Recovered(lay, Replay(d, CommitWrites(lay, d[lay.start], tx)[..k])), Replay(d, tx), flat);
    }
  }

  // ----- When commit can run out of buffers -----

  /** Nobody holds a reference except the log's pins. */
  ghost predicate OnlyPins(buf: seq<Buf>, logged: seq<nat>) {
    forall i :: 0 <= i < |buf| ==>
      buf[i].refcnt == if buf[i].dev == ROOTDEV && buf[i].blockno in logged then 1 else 0
  }

  /** The buffer that pins the t-th logged block. */
  lemma PinIndices(buf: seq<Buf>, logged: seq<nat>) returns (at: seq<nat>)
    requires AllPinned(buf, logged) && Distinct(logged)
    ensures |at| == |logged| && Distinct(at)
    ensures forall t :: 0 <= t < |logged| ==> PinnedAt(buf, at[t], logged[t])
  {
    at := [];
    while |at| < |logged|
      invariant |at| <= |logged|
      invariant forall t :: 0 <= t < |at| ==> PinnedAt(buf, at[t], logged[t])
    {
      assert Pinned(buf, logged[|at|]);
      var i: nat :| PinnedAt(buf, i, logged[|at|]);
      at := at + [i];
    }
  }

  /** With no other references, every buffer is busy exactly when the log holds as many blocks as there
      are buffers, and then no buffer is left for a log block: commit panics. */
  lemma FullCacheIff(log: Log)
    requires log.Valid() && log.lo == 0 && OnlyPins(log.cache.buf, log.block[..log.n])
    ensures log.n <= |log.cache.buf|
    ensures AllBusy(log.cache.buf) <==> log.n == |log.cache.buf|
    ensures AllBusy(log.cache.buf) ==> !Cached(log.cache.buf, ROOTDEV, log.lay.start + 1)
  {
    var buf, logged := log.cache.buf, log.block[..log.n];
    assert log.block[log.lo..log.n] == logged;
    var at := PinIndices(buf, logged);
    DistinctCount(at);
    RangeCount(|buf|, Elements(at));
    if AllBusy(buf) {
      BusyIsLogged(buf, logged);
      assert log.lay.start + 1 !in logged;
    } else if log.n == |buf| {
      forall i | 0 <= i < |buf|
        ensures buf[i].refcnt > 0
      {
        assert i in Elements(at);
      }
    }
  }

  /** Three operations that together log as many blocks as the cache has buffers, and nothing else: the commit at the
      end of the last one finds no buffer and fails before it writes anything. `parts` says how many blocks each of them
      logs; with no more buffers than LOGBLOCKS each keeps to its reservation. */
  method LogEveryBuffer(nbuf: nat, image: seq<Block>, l: Layout) returns (log: Log, ok: bool, parts: seq<nat>)
    requires DiskOk(l, image) && image[l.start][0] == 0
    requires 0 < nbuf <= l.logblocks && l.start + l.logblocks + nbuf < l.size
    ensures !ok && log.committing && log.cache.writes == []
    ensures |parts| == 3 && parts[0] + parts[1] + parts[2] == nbuf
    ensures nbuf <= LOGBLOCKS ==> forall i :: 0 <= i < 3 ==> parts[i] <= MAXOPBLOCKS
  {
    hide LogInv.Inv, Bio.Cache.Valid, OnlyPins, Bio.AllBusy, Ring.Distinct;
    var c := new Cache(nbuf, image);
    FreshBuffers(c.buf);
    hide LogInv.NoneLocked;
    log := new Log(c, l);
    assert log.block[..0] == [];
    parts := ThreeOperations(log, l.start + l.logblocks + 1, nbuf);
    ok := log.EndOp();
    ok := log.EndOp();
    ok := log.EndOp();
  }

  /** Three operations start, and each logs its third of `count` consecutive home blocks. */
  method ThreeOperations(log: Log, first: nat, count: nat) returns (parts: seq<nat>)
    requires log.Idle() && log.Quiet() && log.n == log.outstanding == 0 && !log.committing && OnlyPins(log.cache.buf, log.block[..0])
    requires count <= |log.cache.buf| && count <= log.lay.logblocks
    requires forall b :: first <= b < first + count ==> log.lay.Home(b)
    modifies log`outstanding, log`n, log`block, log`flat, log`dirty, log.cache`buf, log.cache`next, log.cache`prev,
             log.cache`order, log.cache`history
    ensures log.Idle() && log.Quiet() && log.outstanding == 3 && |log.cache.buf| == old(|log.cache.buf|)
    ensures OnlyPins(log.cache.buf, log.block[..log.n])
    ensures |parts| == 3 && parts[0] + parts[1] + parts[2] == log.n == count
    ensures count <= LOGBLOCKS ==> forall i :: 0 <= i < 3 ==> parts[i] <= MAXOPBLOCKS
  {
    hide LogInv.Inv, Bio.Cache.Valid, OnlyPins, Bio.AllBusy, Ring.Distinct, LogInv.NoneLocked;
    var a, b, c := (count + 2) / 3, (count + 1) / 3, count / 3;
    Thirds(count);
    var started;
    started := log.BeginOp();
    started := log.BeginOp();
    started := log.BeginOp();
    LogBlocks(log, first, a);
    LogBlocks(log, first + a, b);
    LogBlocks(log, first + a + b, c);
    parts := [a, b, c];
  }

  lemma Thirds(n: nat)
    ensures (n + 2) / 3 + (n + 1) / 3 + n / 3 == n
    ensures n <= LOGBLOCKS ==> (n + 2) / 3 <= MAXOPBLOCKS
  {
  }

  /** What one operation does: `count` consecutive home blocks, above those logged so far, are logged. */
  method LogBlocks(log: Log, first: nat, count: nat)
    requires log.Idle() && log.Quiet() && log.outstanding > 0 && OnlyPins(log.cache.buf, log.block[..log.n])
    requires log.n + count <= |log.cache.buf| && log.n + count <= log.lay.logblocks
    requires forall t :: 0 <= t < log.n ==> log.block[..log.n][t] < first
    requires forall b :: first <= b < first + count ==> log.lay.Home(b)
    modifies log`n, log`block, log`flat, log`dirty, log.cache`buf, log.cache`next, log.cache`prev, log.cache`order,
             log.cache`history
    ensures log.Idle() && log.Quiet() && log.n == old(log.n) + count && |log.cache.buf| == old(|log.cache.buf|)
    ensures OnlyPins(log.cache.buf, log.block[..log.n])
    ensures forall t :: 0 <= t < log.n ==> log.block[..log.n][t] < first + count
  {
    hide LogInv.Inv, Bio.Cache.Valid, OnlyPins, Ring.Distinct, LogInv.NoneLocked;
    var k := 0;
    while k < count
      invariant k <= count && |log.cache.buf| == old(|log.cache.buf|)
      invariant log.Idle() && log.Quiet() && log.n == old(log.n) + k && OnlyPins(log.cache.buf, log.block[..log.n])
      invariant forall t :: 0 <= t < log.n ==> log.block[..log.n][t] < first + k
    {
      LogBlock(log, first + k);
      k := k + 1;
    }
  }

  /** bread, log_write and brelse of a block not logged yet. */
  method LogBlock(log: Log, b: nat)
    requires log.Idle() && log.Quiet() && OnlyPins(log.cache.buf, log.block[..log.n])
    requires log.n < |log.cache.buf| && log.n < log.lay.logblocks && log.outstanding > 0
    requires log.lay.Home(b) && b !in log.block[..log.n]
    modifies log`n, log`block, log`flat, log`dirty, log.cache`buf, log.cache`next, log.cache`prev, log.cache`order,
             log.cache`history
    ensures log.Idle() && log.Quiet() && |log.cache.buf| == old(|log.cache.buf|)
    ensures log.n == old(log.n) + 1 && log.block[..log.n] == old(log.block[..log.n]) + [b]
    ensures OnlyPins(log.cache.buf, log.block[..log.n])
  {
    hide LogInv.Inv, Bio.Cache.Valid, OnlyPins, Bio.AllBusy, Ring.Distinct;
    FullCacheIff(log);
    ghost var before, logged := log.cache.buf, log.block[..log.n];
    NoLocks(before, b);
    var i := log.Read(b);
    var ok := log.LogWrite(i.value);
    log.Release(i.value);
    log.Unique();
    OneMorePin(before, log.cache.buf, logged, i.value, b);
  }

  lemma FreshBuffers(buf: seq<Buf>)
    requires forall i :: 0 <= i < |buf| ==> buf[i] == Buf(false, 0, 0, 0, false, [])
    ensures OnlyPins(buf, []) && NoneLocked(buf)
  {
  }

  lemma NoLocks(buf: seq<Buf>, b: nat)
    requires NoneLocked(buf)
    ensures Unlocked(buf, b)
  {
  }

  lemma OneMorePin(before: seq<Buf>, after: seq<Buf>, logged: seq<nat>, i: nat, b: nat)
    requires OnlyPins(before, logged) && NoneLocked(before) && b !in logged && UniqueIds(after)
    requires OnlyChanged(before, after, i) && i < |after| && after[i].Is(ROOTDEV, b) && !after[i].locked
    requires (before[i].Is(ROOTDEV, b) || before[i].refcnt == 0) && after[i].refcnt == before[i].refcnt + 1
    ensures OnlyPins(after, logged + [b]) && NoneLocked(after)
  {
    assert forall j :: 0 <= j < |after| && j != i ==> !after[j].Is(ROOTDEV, b);
  }

  /** An idle buffer, if there is one. */
  ghost function SomeIdle(buf: seq<Buf>): (w: nat)
    ensures !AllBusy(buf) ==> IdleAt(buf, w)
  {
    if i: nat :| i < |buf| && buf[i].refcnt == 0 then i else 0
  }

  lemma BusyIsLogged(buf: seq<Buf>, logged: seq<nat>)
    requires UniqueIds(buf) && OnlyPins(buf, logged) && AllBusy(buf) && Distinct(logged)
    ensures |buf| <= |logged|
    ensures forall b :: b !in logged ==> !Cached(buf, ROOTDEV, b)
  {
    var ids := seq(|buf|, i requires 0 <= i < |buf| => buf[i].blockno);
    assert Distinct(ids);
    DistinctCount(ids);
    DistinctCount(logged);
    assert Elements(ids) <= Elements(logged);
    SubsetCount(Elements(ids), Elements(logged));
  }

  lemma PrefixGrows<T>(s: seq<T>, before: seq<T>, x: seq<T>, y: seq<T>)
    ensures s <= before + x ==> s <= before + (x + y)
    ensures before + x + y == before + (x + y)
  {
  }

  lemma ReplayNone(d: seq<Block>)
    ensures Replay(d, []) == d
  {
  }

  /** The writes of commit up to and including the header write. */
  function UpToHeader(lay: Layout, hb: Block, tx: seq<Write>): (r: seq<Write>)
    requires |tx| < |hb|
  {
    LogWrites(lay.start, tx) + [Write(lay.start, PutHead(hb, Blocks(tx)))]
  }

  lemma UpToHeaderIs(lay: Layout, hb: Block, tx: seq<Write>, blocks: seq<nat>)
    requires |tx| < |hb| && blocks == Blocks(tx)
    ensures UpToHeader(lay, hb, tx) == LogWrites(lay.start, tx) + [Write(lay.start, PutHead(hb, blocks))]
  {
  }

  /** Writing the header disturbs neither home blocks nor log blocks. */
  lemma HeaderWriteKeeps(lay: Layout, flat0: seq<Block>, flat: seq<Block>, tx: seq<Write>, hb: Block)
    requires lay.Ok() && SameHome(lay, flat, flat0) && SlotsFilled(flat, lay.start, tx)
    ensures SameHome(lay, flat[lay.start := hb], flat0)
    ensures SlotsFilled(flat[lay.start := hb], lay.start, tx)
  {
  }

  /** An emptied header is a valid one. */
  lemma ClearedOk(lay: Layout, flat: seq<Block>)
    requires lay.Ok() && |flat| == lay.size && |flat[lay.start]| > lay.logblocks
    ensures HeadOk(lay, PutHead(flat[lay.start], [])) && PutHead(flat[lay.start], [])[0] == 0
    ensures SameHome(lay, flat[lay.start := PutHead(flat[lay.start], [])], flat)
  {
  }

  lemma NothingToCommit(lay: Layout, flat: seq<Block>, tx: seq<Write>)
    requires lay.Ok() && |flat| == lay.size && |flat[lay.start]| > 0 && tx == []
    ensures CommitWrites(lay, flat[lay.start], tx) == [] && SameHome(lay, flat, flat)
  {
  }

  lemma SplitCommit(lay: Layout, hb: Block, tx: seq<Write>)
    requires 0 < |tx| < |hb|
    ensures CommitWrites(lay, hb, tx)
         == UpToHeader(lay, hb, tx) + (tx + [Write(lay.start, PutHead(PutHead(hb, Blocks(tx)), []))])
  {
  }

  /** Once write_log is done, installing the log blocks means installing the transaction. */
  lemma SlotsAre(flat: seq<Block>, start: nat, blocks: seq<nat>)
    requires forall t :: 0 <= t < |blocks| ==> blocks[t] < |flat|
    requires SlotsFilled(flat, start, Group(flat, blocks))
    ensures SlotTx(flat, start, blocks) == Group(flat, blocks)
  {
  }

  /** Log-area writes leave the pending transaction alone. */
  lemma SameGroup(lay: Layout, flat0: seq<Block>, flat: seq<Block>, blocks: seq<nat>)
    requires SameHome(lay, flat, flat0)
    requires forall t :: 0 <= t < |blocks| ==> lay.Home(blocks[t])
    ensures forall t :: 0 <= t < |blocks| ==> blocks[t] < |flat0|
    ensures Group(flat, blocks) == Group(flat0, blocks)
  {
  }

  /** What install_trans writes: the t-th log block's contents to the t-th listed block. */
  function SlotTx(flat: seq<Block>, start: nat, blocks: seq<nat>): (tx: seq<Write>)
    requires start + |blocks| < |flat|
    ensures |tx| == |blocks|
    ensures forall t :: 0 <= t < |blocks| ==> tx[t] == Write(blocks[t], flat[start + 1 + t])
  {
    seq(|blocks|, t requires 0 <= t < |blocks| => Write(blocks[t], flat[start + 1 + t]))
  }

  /** Installing one more block extends the replayed prefix; the log blocks still to come are intact. */
  lemma InstallStep(lay: Layout, flat0: seq<Block>, blocks: seq<nat>, t: nat)
    requires lay.Ok() && t < |blocks| <= lay.logblocks && |flat0| == lay.size
    requires forall i :: 0 <= i < |blocks| ==> lay.Home(blocks[i])
    ensures blocks[t] < |flat0|
    ensures Replay(flat0, SlotTx(flat0, lay.start, blocks)[..t])[lay.start + 1 + t] == flat0[lay.start + 1 + t]
    ensures Replay(flat0, SlotTx(flat0, lay.start, blocks)[..t])[blocks[t] := flat0[lay.start + 1 + t]]
         == Replay(flat0, SlotTx(flat0, lay.start, blocks)[..t + 1])
    ensures SlotTx(flat0, lay.start, blocks)[..t + 1]
         == SlotTx(flat0, lay.start, blocks)[..t] + [Write(blocks[t], flat0[lay.start + 1 + t])]
  {
    hide Replay;
    var tx := SlotTx(flat0, lay.start, blocks);
    assert lay.Home(blocks[t]);
    ReplayUntouched(flat0, tx[..t], lay.start + 1 + t);
    ReplayPush(flat0, tx[..t], tx[t]);
    assert tx[..t + 1] == tx[..t] + [tx[t]];
  }

  /** Filling one more log block changes no home block and extends the write sequence. */
  lemma NoSlots(lay: Layout, flat: seq<Block>, tx: seq<Write>)
    requires lay.Ok() && |flat| == lay.size
    ensures SameHome(lay, flat, flat) && SlotsFilled(flat, lay.start, tx[..0]) && LogWrites(lay.start, tx)[..0] == []
    ensures tx[..|tx|] == tx && LogWrites(lay.start, tx)[..|tx|] == LogWrites(lay.start, tx)
  {
  }

  lemma FillSlot(lay: Layout, flat0: seq<Block>, f: seq<Block>, f': seq<Block>, blocks: seq<nat>, t: nat)
    requires lay.Ok() && t < |blocks| <= lay.logblocks && |flat0| == lay.size
    requires forall i :: 0 <= i < |blocks| ==> lay.Home(blocks[i]) && blocks[i] < |flat0|
    requires SameHome(lay, f, flat0) && f[lay.start] == flat0[lay.start]
    requires SlotsFilled(f, lay.start, Group(flat0, blocks)[..t])
    requires f' == f[lay.start + 1 + t := f[blocks[t]]]
    ensures SameHome(lay, f', flat0) && f'[lay.start] == flat0[lay.start]
    ensures SlotsFilled(f', lay.start, Group(flat0, blocks)[..t + 1])
    ensures f[blocks[t]] == flat0[blocks[t]]
    ensures LogWrites(lay.start, Group(flat0, blocks))[..t + 1]
         == LogWrites(lay.start, Group(flat0, blocks))[..t] + [Write(lay.start + 1 + t, flat0[blocks[t]])]
  {
    assert lay.Home(blocks[t]);
  }

  ghost predicate IdleAt(buf: seq<Buf>, w: nat) {
    w < |buf| && buf[w].refcnt == 0
  }

  ghost predicate SlotsFilled(flat: seq<Block>, start: nat, tx: seq<Write>) {
    && start + |tx| < |flat|
    && forall t :: 0 <= t < |tx| ==> flat[start + 1 + t] == tx[t].data
  }

  lemma InSlice(s: seq<nat>, lo: nat, hi: nat, t: nat)
    requires lo <= t < hi <= |s|
    ensures s[t] in s[lo..hi]
  {
    assert s[lo..hi][t - lo] == s[t];
  }

  lemma PinnedIsCached(buf: seq<Buf>, logged: seq<nat>, b: nat)
    requires AllPinned(buf, logged)
    ensures b in logged ==> Cached(buf, ROOTDEV, b)
  {
    if b in logged {
      var i: nat :| PinnedAt(buf, i, b);
      assert buf[i].Is(ROOTDEV, b);
    }
  }

  lemma IdleNotBusy(buf: seq<Buf>)
    ensures AllIdle(buf) && |buf| > 0 ==> !AllBusy(buf)
  {
    if |buf| > 0 {
      assert buf[0].refcnt == 0 || buf[0].refcnt > 0;
    }
  }

  lemma SomeOtherIdle(before: seq<Buf>, after: seq<Buf>, i: nat)
    requires OnlyChanged(before, after, i)
    ensures AllIdle(before) && |before| >= 2 ==> !AllBusy(after)
  {
    var other := if i == 0 then 1 else 0;
    if |before| >= 2 {
      assert after[other] == before[other];
    }
  }

  ghost predicate AllIdle(buf: seq<Buf>) {
    forall i :: 0 <= i < |buf| ==> buf[i].refcnt == 0
  }

  /** Two distinct unlocked buffers were locked and referenced once more; the rest is untouched. */
  ghost predicate TwoHeld(before: seq<Buf>, after: seq<Buf>, l: nat, h: nat) {
    && |after| == |before|
    && l < |before| && h < |before|
    && after[l].locked && after[l].refcnt == before[l].refcnt + 1
    && after[h].locked && after[h].refcnt == before[h].refcnt + 1
    && forall i :: 0 <= i < |before| && i != l && i != h ==> after[i] == before[i]
  }
}
