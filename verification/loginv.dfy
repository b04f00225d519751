/** The invariant that ties buffer cache, log and disk to one flat array of blocks. */
module LogInv {
  import opened Ring
  import opened Bio

  /** An unmodified cached block shows the flat contents; `dirty` buffers are being changed by their holder. */
  ghost predicate Coherent(buf: seq<Buf>, flat: seq<Block>, dirty: set<nat>) {
    forall i :: 0 <= i < |buf| ==>
      && buf[i].dev in {0, ROOTDEV}
      && (buf[i].dev == ROOTDEV ==> buf[i].blockno < |flat|)
      && (buf[i].dev == ROOTDEV && buf[i].valid && i !in dirty ==> buf[i].data == flat[buf[i].blockno])
  }

  /** The disk lags behind only in logged blocks. */
  ghost predicate DiskAgrees(disk: seq<Block>, flat: seq<Block>, logged: seq<nat>) {
    && |disk| == |flat|
    && forall b :: 0 <= b < |disk| && b !in logged ==> disk[b] == flat[b]
  }

  /** Buffer i carries block b, is valid, and has a reference besides that of its holder. */
  ghost predicate PinnedAt(buf: seq<Buf>, i: nat, b: nat) {
    && i < |buf|
    && buf[i].Is(ROOTDEV, b)
    && buf[i].valid
    && buf[i].refcnt > (if buf[i].locked then 1 else 0)
  }

  ghost predicate Pinned(buf: seq<Buf>, b: nat) {
    exists i :: PinnedAt(buf, i, b)
  }

  ghost predicate AllPinned(buf: seq<Buf>, logged: seq<nat>) {
    forall b :: b in logged ==> Pinned(buf, b)
  }

  ghost predicate DirtyHeld(buf: seq<Buf>, dirty: set<nat>) {
    forall i :: i in dirty ==> i < |buf| && buf[i].locked && buf[i].valid && buf[i].dev == ROOTDEV
  }

  ghost predicate Inv(buf: seq<Buf>, disk: seq<Block>, flat: seq<Block>, dirty: set<nat>, logged: seq<nat>) {
    && UniqueIds(buf)
    && Coherent(buf, flat, dirty)
    && DiskAgrees(disk, flat, logged)
    && AllPinned(buf, logged)
    && DirtyHeld(buf, dirty)
  }

  ghost predicate Unlocked(buf: seq<Buf>, b: nat) {
    forall i :: 0 <= i < |buf| && buf[i].Is(ROOTDEV, b) ==> !buf[i].locked
  }

  ghost predicate NoneLocked(buf: seq<Buf>) {
    forall i :: 0 <= i < |buf| ==> !buf[i].locked
  }

  ghost predicate SameRefs(before: seq<Buf>, after: seq<Buf>) {
    && |before| == |after|
    && forall i :: 0 <= i < |before| ==> after[i].refcnt == before[i].refcnt
  }

  /** Every logged block keeps its pinned buffer when one buffer changes, if that buffer
      was idle or keeps its own pin. */
  lemma PinsSurvive(before: seq<Buf>, after: seq<Buf>, i: nat, logged: seq<nat>)
    requires OnlyChanged(before, after, i) && i < |before|
    requires AllPinned(before, logged)
    requires forall b :: b in logged && PinnedAt(before, i, b) ==> PinnedAt(after, i, b)
    ensures AllPinned(after, logged)
  {
    forall b | b in logged
      ensures Pinned(after, b)
    {
      var j :| PinnedAt(before, j, b);
      assert PinnedAt(after, j, b);
    }
  }

  /** bread: any block, cached or not, is delivered with its flat contents. */
  lemma ReadKeeps(before: seq<Buf>, after: seq<Buf>, i: nat, b: nat,
                  disk: seq<Block>, flat: seq<Block>, dirty: set<nat>, logged: seq<nat>)
    requires Inv(before, disk, flat, dirty, logged)
    requires OnlyChanged(before, after, i) && UniqueIds(after)
    requires i < |before| && b < |disk| && Unlocked(before, b)
    requires after[i].Is(ROOTDEV, b) && after[i].valid && after[i].locked
    requires before[i].Is(ROOTDEV, b) ==>
               && after[i].refcnt == before[i].refcnt + 1
               && after[i].data == if before[i].valid then before[i].data else disk[b]
    requires !before[i].Is(ROOTDEV, b) ==>
               !Cached(before, ROOTDEV, b) && before[i].refcnt == 0 && !before[i].locked && after[i].data == disk[b]
    ensures Inv(after, disk, flat, dirty, logged)
    ensures after[i].data == flat[b] && i !in dirty
  {
    assert i !in dirty;
    if b in logged {
      var j :| PinnedAt(before, j, b);
      assert j == i;
    }
    PinsSurvive(before, after, i, logged);
  }

  /** brelse of a buffer whose changes, if any, were logged. */
  lemma ReleaseKeeps(before: seq<Buf>, i: nat, disk: seq<Block>, flat: seq<Block>, dirty: set<nat>, logged: seq<nat>)
    requires Inv(before, disk, flat, dirty, logged)
    requires i < |before| && before[i].locked && before[i].refcnt > 0 && i !in dirty
    ensures Inv(before[i := before[i].(locked := false, refcnt := before[i].refcnt - 1)], disk, flat, dirty, logged)
  {
    PinsSurvive(before, before[i := before[i].(locked := false, refcnt := before[i].refcnt - 1)], i, logged);
  }

  /** The holder changes the data of a buffer. */
  lemma ModifyKeeps(before: seq<Buf>, i: nat, data: Block,
                    disk: seq<Block>, flat: seq<Block>, dirty: set<nat>, logged: seq<nat>)
    requires Inv(before, disk, flat, dirty, logged)
    requires i < |before| && before[i].locked && before[i].valid && before[i].dev == ROOTDEV
    ensures Inv(before[i := before[i].(data := data)], disk, flat, dirty + {i}, logged)
  {
    PinsSurvive(before, before[i := before[i].(data := data)], i, logged);
  }

  /** log_write of a block not logged yet: the change becomes the flat contents, the buffer is pinned. */
  lemma LogNewKeeps(before: seq<Buf>, i: nat, disk: seq<Block>, flat: seq<Block>, dirty: set<nat>, logged: seq<nat>)
    requires Inv(before, disk, flat, dirty, logged)
    requires i < |before| && before[i].locked && before[i].valid && before[i].dev == ROOTDEV && before[i].refcnt > 0
    ensures Inv(before[i := before[i].(refcnt := before[i].refcnt + 1)], disk,
                flat[before[i].blockno := before[i].data], dirty - {i}, logged + [before[i].blockno])
  {
    var after := before[i := before[i].(refcnt := before[i].refcnt + 1)];
    PinsSurvive(before, after, i, logged);
    assert PinnedAt(after, i, before[i].blockno);
  }

  /** log_write of a block already logged. */
  lemma LogAgainKeeps(before: seq<Buf>, i: nat, disk: seq<Block>, flat: seq<Block>, dirty: set<nat>, logged: seq<nat>)
    requires Inv(before, disk, flat, dirty, logged)
    requires i < |before| && before[i].valid && before[i].dev == ROOTDEV
    requires before[i].blockno in logged
    ensures Inv(before, disk, flat[before[i].blockno := before[i].data], dirty - {i}, logged)
  {
  }

  /** bwrite of a held buffer: the disk now has its contents, so they are the flat contents. */
  lemma WriteKeeps(buf: seq<Buf>, i: nat, disk: seq<Block>, flat: seq<Block>, dirty: set<nat>, logged: seq<nat>)
    requires Inv(buf, disk, flat, dirty, logged)
    requires i < |buf| && buf[i].valid && buf[i].dev == ROOTDEV
    ensures Inv(buf, disk[buf[i].blockno := buf[i].data], flat[buf[i].blockno := buf[i].data], dirty - {i}, logged)
  {
  }

  /** bunpin of the oldest logged block, whose contents have reached the disk. */
  /** A locked buffer of a logged block has a reference besides its holder's. */
  lemma PinAt(buf: seq<Buf>, disk: seq<Block>, flat: seq<Block>, dirty: set<nat>, logged: seq<nat>, h: nat)
    requires Inv(buf, disk, flat, dirty, logged) && logged != []
    requires h < |buf| && buf[h].locked && buf[h].Is(ROOTDEV, logged[0])
    ensures buf[h].refcnt > 1
  {
    assert logged[0] in logged && Pinned(buf, logged[0]);
    var i :| PinnedAt(buf, i, logged[0]);
    assert i == h;
  }

  lemma UnpinKeeps(before: seq<Buf>, i: nat, disk: seq<Block>, flat: seq<Block>, dirty: set<nat>, logged: seq<nat>)
    requires Inv(before, disk, flat, dirty, logged)
    requires i < |before| && logged != [] && Distinct(logged) && before[i].Is(ROOTDEV, logged[0])
    requires before[i].refcnt > 1 && disk[logged[0]] == flat[logged[0]]
    ensures Inv(before[i := before[i].(refcnt := before[i].refcnt - 1)], disk, flat, dirty, logged[1..])
  {
    var after := before[i := before[i].(refcnt := before[i].refcnt - 1)];
    var rest := logged[1..];
    assert forall b :: b in rest ==> b in logged && b != logged[0];
    PinsSurvive(before, after, i, rest);
    forall b | 0 <= b < |disk| && b !in rest
      ensures disk[b] == flat[b]
    {
      assert b in logged ==> b == logged[0];
    }
  }
}
