/** Buffer cache of kernel/bio.c: a fixed set of buffers on one LRU list, over one disk. */
module Bio {
  import opened Ring
  import opened Wrappers

  /** One disk block: the bytes of a file system block, or the 32-bit words of the log header. */
  type Block = seq<int>

  const ROOTDEV: nat := 1

  /** A block write that reached the disk. */
  datatype Write = Write(blockno: nat, data: Block)

  datatype Buf = Buf(valid: bool, dev: nat, blockno: nat, refcnt: nat, locked: bool, data: Block) {
    predicate Is(d: nat, b: nat) {
      dev == d && blockno == b
    }
  }

  /** The disk after a sequence of block writes. */
  function Replay(disk: seq<Block>, writes: seq<Write>): (r: seq<Block>)
    ensures |r| == |disk|
  {
    if writes == [] then disk
    else
      var w := writes[|writes| - 1];
      var d := Replay(disk, writes[..|writes| - 1]);
      if w.blockno < |d| then d[w.blockno := w.data] else d
  }

  lemma ReplayPush(disk: seq<Block>, writes: seq<Write>, w: Write)
    requires w.blockno < |disk|
    ensures Replay(disk, writes + [w]) == Replay(disk, writes)[w.blockno := w.data]
  {
    assert (writes + [w])[..|writes|] == writes;
  }

  /** No two buffers carry the same block of the same real device. */
  ghost predicate UniqueIds(buf: seq<Buf>) {
    forall i, j :: 0 <= i < j < |buf| && buf[i].dev != 0 ==> !buf[j].Is(buf[i].dev, buf[i].blockno)
  }

  ghost predicate Cached(buf: seq<Buf>, dev: nat, blockno: nat) {
    exists i :: 0 <= i < |buf| && buf[i].Is(dev, blockno)
  }

  ghost predicate AllBusy(buf: seq<Buf>) {
    forall i :: 0 <= i < |buf| ==> buf[i].refcnt > 0
  }

  /** The last time buffer b was put at the front of the list, or -1. */
  ghost function LastUse(history: seq<nat>, b: nat): (k: int)
    ensures -1 <= k < |history| && (k >= 0 ==> history[k] == b)
    ensures forall m :: k < m < |history| ==> history[m] != b
  {
    var n := |history| - 1;
    if n < 0 then -1 else if history[n] == b then n else LastUse(history[..n], b)
  }

  lemma UsedNow(history: seq<nat>, b: nat, x: nat)
    ensures LastUse(history + [b], x) == if x == b then |history| else LastUse(history, x)
  {
    assert (history + [b])[..|history|] == history;
  }

  /** `order` lists buffers from most to least recently released. */
  ghost predicate ByRecency(order: seq<nat>, history: seq<nat>) {
    forall i, j :: 0 <= i < j < |order| ==> LastUse(history, order[i]) > LastUse(history, order[j])
  }

  /** Buffer b went from its place in the list to the front; the others keep their order. */
  ghost predicate MovedToFront(order: seq<nat>, order': seq<nat>, b: nat) {
    exists j :: 0 <= j < |order| && order[j] == b && order' == [b] + Without(order, j)
  }

  /** Every buffer is on the list. */
  ghost predicate Covers(order: seq<nat>, count: nat) {
    forall b :: 0 <= b < count ==> b in order
  }

  class Cache {
    var buf: seq<Buf>
    var next: seq<nat>
    var prev: seq<nat>
    var disk: seq<Block>
    /** The disk at boot, and every block write since, in the order it reached the disk. */
    ghost const image: seq<Block>
    ghost var writes: seq<Write>
    /** The buffers on the list, most recently released first. */
    ghost var order: seq<nat>
    /** The buffers put at the front of the list so far, in that order: by binit, then by releases that left them idle. */
    ghost var history: seq<nat>

    ghost predicate Valid()
      reads this
    {
      && ListOk(next, prev, order, history, |buf|)
      && UniqueIds(buf)
      && (forall i :: 0 <= i < |buf| ==> buf[i].locked ==> buf[i].refcnt > 0)
      && disk == Replay(image, writes)
    }

    /** binit, on a fresh machine with the given disk. */
    constructor (nbuf: nat, image: seq<Block>)
      ensures Valid()
      ensures |buf| == nbuf && this.image == disk == image && writes == []
      ensures forall i :: 0 <= i < nbuf ==> buf[i] == Buf(false, 0, 0, 0, false, [])
      ensures history == seq(nbuf, i => i) && order == seq(nbuf, i => nbuf - 1 - i)
    {
      hide LastUse;
      buf := seq(nbuf, _ => Buf(false, 0, 0, 0, false, []));
      disk := image;
      this.image := image;
      writes := [];
      var nxt: seq<nat> := seq(nbuf + 1, _ => nbuf);
      var prv: seq<nat> := seq(nbuf + 1, _ => nbuf);
      ghost var ord: seq<nat> := [];
      ghost var hist: seq<nat> := [];
      for b := 0 to nbuf
        invariant Linked(nxt, prv, nbuf, ord)
        invariant |ord| == b
        invariant forall i :: 0 <= i < b ==> ord[i] == b - 1 - i
        invariant |hist| == b && (forall i :: 0 <= i < b ==> hist[i] == i) && ByRecency(ord, hist)
      {
        PushKeepsLinked(nxt, prv, nbuf, ord, b);
        prv := prv[b := nbuf][nxt[nbuf] := b];
        nxt := nxt[b := nxt[nbuf]][nbuf := b];
        InFront(ord, hist, b);
        ord := [b] + ord;
        hist := hist + [b];
      }
      forall b | 0 <= b < nbuf
        ensures b in ord
      {
        assert ord[nbuf - 1 - b] == b;
      }
      next := nxt;
      prev := prv;
      order := ord;
      history := hist;
    }

    /** First loop of bget: forward scan for the block. */
    method Scan(dev: nat, blockno: nat) returns (r: Option<nat>)
      requires Valid()
      ensures r.Some? ==> r.value < |buf| && buf[r.value].Is(dev, blockno)
      ensures r.None? ==> !Cached(buf, dev, blockno)
    {
      var head := |buf|;
      ghost var k := 0;
      Ends(next, prev, head, order);
      var b := next[head];
      while b != head
        invariant 0 <= k <= |order|
        invariant b == if k < |order| then order[k] else head
        invariant forall i :: 0 <= i < k ==> !buf[order[i]].Is(dev, blockno)
        decreases |order| - k
      {
        if buf[b].Is(dev, blockno) {
          return Some(b);
        }
        Neighbours(next, prev, head, order, k);
        b := next[b];
        k := k + 1;
      }
      forall i | 0 <= i < |buf|
        ensures !buf[i].Is(dev, blockno)
      {
        assert i in order;
      }
      r := None;
    }

    /** Second loop of bget: backward scan for the least recently used idle buffer. */
    method Victim() returns (r: Option<nat>)
      requires Valid()
      ensures r.None? <==> AllBusy(buf)
      ensures r.Some? ==> r.value < |buf| && buf[r.value].refcnt == 0
      ensures r.Some? ==> forall i :: 0 <= i < |buf| && buf[i].refcnt == 0 ==> LastUse(history, r.value) <= LastUse(history, i)
    {
      hide LastUse, Replay, UniqueIds;
      var head := |buf|;
      ghost var k := |order|;
      Ends(next, prev, head, order);
      var b := prev[head];
      while b != head
        invariant 0 <= k <= |order|
        invariant b == if k > 0 then order[k - 1] else head
        invariant forall i :: k <= i < |order| ==> buf[order[i]].refcnt > 0
        decreases k
      {
        if buf[b].refcnt == 0 {
          forall i | 0 <= i < |buf| && buf[i].refcnt == 0
            ensures LastUse(history, b) <= LastUse(history, i)
          {
            assert i in order;
          }
          return Some(b);
        }
        Neighbours(next, prev, head, order, k - 1);
        b := prev[b];
        k := k - 1;
      }
      forall i | 0 <= i < |buf|
        ensures buf[i].refcnt > 0
      {
        assert i in order;
      }
      r := None;
    }

    /** bget. None is the "no buffers" panic; the caller waits until the buffer is unlocked. */
    method Bget(dev: nat, blockno: nat) returns (r: Option<nat>)
      requires Valid() && dev != 0
      requires forall i :: 0 <= i < |buf| && buf[i].Is(dev, blockno) ==> !buf[i].locked
      modifies this`buf
      ensures Valid() && |buf| == old(|buf|)
      ensures r.None? <==> !Cached(old(buf), dev, blockno) && AllBusy(old(buf))
      ensures r.None? ==> buf == old(buf)
      ensures r.Some? ==>
        && r.value < |buf|
        && buf[r.value].Is(dev, blockno)
        && (Cached(old(buf), dev, blockno) ==>
              && old(buf[r.value]).Is(dev, blockno)
              && buf == old(buf)[r.value := old(buf[r.value]).(refcnt := old(buf[r.value].refcnt) + 1, locked := true)])
        && (!Cached(old(buf), dev, blockno) ==>
              && old(buf[r.value]).refcnt == 0
              && (forall i :: 0 <= i < |buf| && old(buf[i]).refcnt == 0 ==> LastUse(history, r.value) <= LastUse(history, i))
              && buf == old(buf)[r.value := Buf(false, dev, blockno, 1, true, old(buf[r.value]).data)])
    {
      r := Scan(dev, blockno);
      if r.Some? {
        var b := r.value;
        buf := buf[b := buf[b].(refcnt := buf[b].refcnt + 1, locked := true)];
        return;
      }
      r := Victim();
      if r.Some? {
        var b := r.value;
        buf := buf[b := Buf(false, dev, blockno, 1, true, buf[b].data)];
      }
    }

    /** bread: the locked buffer holds the cached contents if there are any, the disk's otherwise. */
    method Bread(dev: nat, blockno: nat) returns (r: Option<nat>)
      requires Valid() && dev != 0
      requires blockno < |disk|
      requires forall i :: 0 <= i < |buf| && buf[i].Is(dev, blockno) ==> !buf[i].locked
      modifies this`buf
      ensures Valid() && |buf| == old(|buf|)
      ensures r.None? <==> !Cached(old(buf), dev, blockno) && AllBusy(old(buf))
      ensures r.None? ==> buf == old(buf)
      ensures r.Some? ==> Holds(r.value, dev, blockno) && OnlyChanged(old(buf), buf, r.value)
      ensures r.Some? && old(buf[r.value]).Is(dev, blockno) ==>
        && buf[r.value].refcnt == old(buf[r.value].refcnt) + 1
        && buf[r.value].data == if old(buf[r.value].valid) then old(buf[r.value].data) else disk[blockno]
      ensures r.Some? && !old(buf[r.value]).Is(dev, blockno) ==>
        && !Cached(old(buf), dev, blockno)
        && old(buf[r.value].refcnt) == 0
        && (forall i :: 0 <= i < |buf| && old(buf[i]).refcnt == 0 ==> LastUse(history, r.value) <= LastUse(history, i))
        && buf[r.value].refcnt == 1
        && buf[r.value].data == disk[blockno]
    {
      r := Bget(dev, blockno);
      if r.Some? {
        var b := r.value;
        if !buf[b].valid {
          buf := buf[b := buf[b].(data := disk[blockno], valid := true)];
        }
      }
    }

    ghost predicate Holds(b: nat, dev: nat, blockno: nat)
      reads this
    {
      b < |buf| && buf[b].Is(dev, blockno) && buf[b].valid && buf[b].locked && buf[b].refcnt > 0
    }

    /** bwrite, of a buffer the caller holds locked. */
    method Bwrite(b: nat)
      requires Valid()
      requires b < |buf| && buf[b].locked && buf[b].blockno < |disk|
      modifies this`disk, this`writes
      ensures Valid()
      ensures disk == old(disk)[buf[b].blockno := buf[b].data]
      ensures writes == old(writes) + [Write(buf[b].blockno, buf[b].data)]
    {
      disk := disk[buf[b].blockno := buf[b].data];
      ReplayPush(image, writes, Write(buf[b].blockno, buf[b].data));
      writes := writes + [Write(buf[b].blockno, buf[b].data)];
    }

    /** brelse: drop the lock and one reference; an idle buffer becomes the most recent. */
    method Brelse(b: nat)
      requires Valid()
      requires b < |buf| && buf[b].locked
      modifies this`buf, this`next, this`prev, this`order, this`history
      ensures Valid()
      ensures buf == old(buf)[b := old(buf[b]).(locked := false, refcnt := old(buf[b].refcnt) - 1)]
      ensures old(buf[b].refcnt) > 1 ==> next == old(next) && prev == old(prev) && order == old(order) && history == old(history)
      ensures old(buf[b].refcnt) == 1 ==> MovedToFront(old(order), order, b) && history == old(history) + [b]
    {
      SameIds(buf, buf[b].(locked := false, refcnt := buf[b].refcnt - 1), b);
      hide ListOk, Replay, UniqueIds;
      buf := buf[b := buf[b].(locked := false, refcnt := buf[b].refcnt - 1)];
      if buf[b].refcnt == 0 {
        ToFront(b);
      }
    }

    /** Buffer b becomes the most recent one in the list. */
    method ToFront(b: nat)
      requires ListOk(next, prev, order, history, |buf|) && b < |buf|
      modifies this`next, this`prev, this`order, this`history
      ensures ListOk(next, prev, order, history, |buf|)
      ensures MovedToFront(old(order), order, b) && history == old(history) + [b]
    {
      assert |next| == |prev| == |buf| + 1;
      hide ListOk;
      ghost var j := MoveToFrontKeepsList(next, prev, order, history, |buf|, b);
      prev, next := prev[next[b] := prev[b]], next[prev[b] := next[b]];
      prev, next := prev[b := |buf|][next[|buf|] := b], next[b := next[|buf|]][|buf| := b];
      order := [b] + Without(order, j);
      history := history + [b];
    }

    method Bpin(b: nat)
      requires Valid() && b < |buf|
      modifies this`buf
      ensures Valid()
      ensures buf == old(buf)[b := old(buf[b]).(refcnt := old(buf[b].refcnt) + 1)]
    {
      buf := buf[b := buf[b].(refcnt := buf[b].refcnt + 1)];
    }

    /** bunpin, of a buffer with a reference besides that of its holder. */
    method Bunpin(b: nat)
      requires Valid() && b < |buf| && buf[b].refcnt > if buf[b].locked then 1 else 0
      modifies this`buf
      ensures Valid()
      ensures buf == old(buf)[b := old(buf[b]).(refcnt := old(buf[b].refcnt) - 1)]
    {
      buf := buf[b := buf[b].(refcnt := buf[b].refcnt - 1)];
    }
  }

  lemma SameIds(buf: seq<Buf>, x: Buf, b: nat)
    requires UniqueIds(buf) && b < |buf| && x.dev == buf[b].dev && x.blockno == buf[b].blockno
    ensures UniqueIds(buf[b := x])
  {
  }

  ghost predicate OnlyChanged(before: seq<Buf>, after: seq<Buf>, b: nat) {
    && |after| == |before|
    && forall i :: 0 <= i < |before| && i != b ==> after[i] == before[i]
  }

  /** The LRU list as a whole: linked both ways, complete, and sorted by recency. */
  ghost predicate ListOk(next: seq<nat>, prev: seq<nat>, order: seq<nat>, history: seq<nat>, count: nat) {
    && Linked(next, prev, count, order)
    && ByRecency(order, history)
    && Covers(order, count)
  }

  /** A buffer not on the list goes to its front. */
  lemma InFront(order: seq<nat>, history: seq<nat>, b: nat)
    requires ByRecency(order, history) && b !in order
    ensures ByRecency([b] + order, history + [b])
  {
    var after := [b] + order;
    forall i, j | 0 <= i < j < |after|
      ensures LastUse(history + [b], after[i]) > LastUse(history + [b], after[j])
    {
      UsedNow(history, b, after[i]);
      UsedNow(history, b, after[j]);
    }
  }

  /** Moving one buffer to the front keeps the list sorted by recency and complete. */
  lemma MoveToFront(order: seq<nat>, history: seq<nat>, count: nat, j: nat)
    requires ByRecency(order, history) && Distinct(order) && Covers(order, count)
    requires j < |order|
    ensures ByRecency([order[j]] + Without(order, j), history + [order[j]])
    ensures Covers([order[j]] + Without(order, j), count)
  {
    var after := [order[j]] + Without(order, j);
    InFront(Without(order, j), history, order[j]);
    forall x | 0 <= x < count
      ensures x in after
    {
      assert x in order;
      var k :| 0 <= k < |order| && order[k] == x;
      assert after[if k < j then k + 1 else if k == j then 0 else k] == x;
    }
  }

  /** The pointer updates of brelse move the released buffer to the front of the list. */
  lemma MoveToFrontKeepsList(next: seq<nat>, prev: seq<nat>, order: seq<nat>, history: seq<nat>, count: nat, b: nat)
    returns (j: nat)
    requires ListOk(next, prev, order, history, count)
    requires b < count
    ensures next[b] <= count && prev[b] <= count
    ensures j < |order| && order[j] == b
    ensures
      var prev1 := prev[next[b] := prev[b]];
      var next1 := next[prev[b] := next[b]];
      && next1[count] <= count
      && ListOk(next1[b := next1[count]][count := b], prev1[b := count][next1[count] := b],
                [b] + Without(order, j), history + [b], count)
  {
    assert b in order;
    j :| 0 <= j < |order| && order[j] == b;
    var rest := Without(order, j);
    UnlinkKeepsLinked(next, prev, count, order, j);
    assert b !in rest;
    PushKeepsLinked(next[prev[b] := next[b]], prev[next[b] := prev[b]], count, rest, b);
    MoveToFront(order, history, count, j);
  }
}
