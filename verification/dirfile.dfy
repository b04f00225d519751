/** Directory entries as bytes of the directory's file (kernel/fs.h, kernel/fs.c). */
module DirFile {
  import opened InodeMap
  import opened Inodes
  import opened FileIo
  import opened Bitmap
  import opened Counting
  import opened Wrappers
  import Dirs

  const DIRENT := 16

  /** A byte as a character; entries hold only bytes. */
  function CharOf(x: nat): char {
    if x < 256 then x as char else '\0'
  }

  /** An entry that fits its 16 bytes: a 16-bit inode number and a name field of 14 one-byte characters. */
  predicate Fits(e: Dirs.Dirent) {
    e.inum < 0x1_0000 && |e.name| == Dirs.DIRSIZ && forall k :: 0 <= k < |e.name| ==> e.name[k] as int < 256
  }

  /** Two bytes of inode number, least significant first, and the name field. */
  function Encode(e: Dirs.Dirent): (b: seq<nat>)
    ensures |b| == 2 + |e.name|
    ensures b[0] == e.inum % 256 && b[1] == e.inum / 256
    ensures forall k :: 0 <= k < |e.name| ==> b[2 + k] == e.name[k] as int
  {
    [e.inum % 256, e.inum / 256] + seq(|e.name|, k requires 0 <= k < |e.name| => e.name[k] as int)
  }

  function Decode(b: seq<nat>): (e: Dirs.Dirent)
    requires |b| == DIRENT
    ensures |e.name| == Dirs.DIRSIZ
  {
    Dirs.Dirent(b[0] + 256 * b[1], seq(Dirs.DIRSIZ, k requires 0 <= k < Dirs.DIRSIZ => CharOf(b[2 + k])))
  }

  /** An entry written is read back. */
  lemma EntryRoundTrip(e: Dirs.Dirent)
    requires Fits(e)
    ensures Decode(Encode(e)) == e
  {
    var d := Decode(Encode(e));
    forall k | 0 <= k < Dirs.DIRSIZ
      ensures d.name[k] == e.name[k]
    {
      assert Encode(e)[2 + k] == e.name[k] as int;
    }
    assert d.name == e.name;
  }

  /** The entries in a directory's bytes; the directory code reads them one by one. */
  function Slots(file: seq<nat>): (s: seq<Dirs.Dirent>)
    ensures |s| == |file| / DIRENT
    ensures forall k :: 0 <= k < |s| ==> s[k] == Decode(file[k * DIRENT..k * DIRENT + DIRENT])
  {
    seq(|file| / DIRENT, k requires 0 <= k < |file| / DIRENT => Decode(file[k * DIRENT..k * DIRENT + DIRENT]))
  }

  /** Writing the 16 bytes of an entry at slot k replaces or appends exactly that slot. */
  lemma SlotWritten(file: seq<nat>, k: nat, e: Dirs.Dirent)
    requires |file| % DIRENT == 0 && k * DIRENT <= |file| && Fits(e)
    ensures
      var file' := Overwrite(file, k * DIRENT, Encode(e));
      Slots(file') == if k < |Slots(file)| then Slots(file)[k := e] else Slots(file) + [e]
  {
    var b := Encode(e);
    var file' := Overwrite(file, k * DIRENT, b);
    var want := if k < |Slots(file)| then Slots(file)[k := e] else Slots(file) + [e];
    EntryRoundTrip(e);
    hide Decode, Encode;
    assert |file'| == if k < |Slots(file)| then |file| else |file| + DIRENT;
    forall j | 0 <= j < |want|
      ensures Slots(file')[j] == want[j]
    {
      var piece := file'[j * DIRENT..j * DIRENT + DIRENT];
      if j == k {
        assert piece == b;
      } else {
        Beside(j, k);
        assert piece == file[j * DIRENT..j * DIRENT + DIRENT];
      }
    }
  }

  lemma Beside(j: nat, k: nat)
    requires j != k
    ensures j * DIRENT + DIRENT <= k * DIRENT || k * DIRENT + DIRENT <= j * DIRENT
  {
  }

  /** The write of one entry by dirlink or unlink. An entry never straddles two blocks, so it is written whole or
      not at all, and not at all only on a full disk or at the largest file size. */
  method WriteEntry(f: Files, i: nat, k: nat, e: Dirs.Dirent) returns (ok: bool)
    requires f.Valid() && i < |f.inodes| && Fits(e)
    requires f.inodes[i].size % DIRENT == 0 && k * DIRENT <= f.inodes[i].size && f.outstanding > 0
    modifies f`disk, f`inodes, f`dinodes, f`g
    ensures f.Valid() && |f.inodes| == |old(f.inodes)|
    ensures NoNewHoles(old(f.disk), old(f.inodes), f.disk, f.inodes) && (old(f.DiskOk()) ==> f.DiskOk())
    ensures Logs(old(f.Now()), f.Now(), f.g.logged, f.inodestart)
    ensures OneEntry(old(f.g.logged), f.g.logged, f.inodestart + i / IPB, f.bmapstart, |f.disk|)
    ensures OthersSame(old(f.disk), old(f.inodes), f.disk, f.inodes, i)
    ensures !ok ==> File(f.disk, f.inodes[i]) == old(File(f.disk, f.inodes[i]))
    ensures !ok ==> NoneFree(f.g.role) || k * DIRENT + DIRENT > MAXFILE * BSIZE
    ensures HoleFree(old(f.disk), old(f.inodes[i]), k * DIRENT, k * DIRENT + DIRENT) && k * DIRENT + DIRENT <= MAXFILE * BSIZE ==> ok
    ensures f.inodes[i].size % DIRENT == 0
    ensures ok ==>
      Slots(File(f.disk, f.inodes[i])) ==
        (if k < |Slots(old(File(f.disk, f.inodes[i])))| then Slots(old(File(f.disk, f.inodes[i])))[k := e]
         else Slots(old(File(f.disk, f.inodes[i]))) + [e])
  {
    hide StoreOk, SizesOk, NoneHeld, NewlyLogged, Wrote, OthersSame, NoneFree, Ptr, Byte, File, Overwrite, Slots, Encode;
    hide Behind, Mountable, Logs, NoNewHoles, HoleFree, PtrsStay, OneEntry;
    ghost var d0, n0, l0 := f.disk, f.inodes, f.g.logged;
    NoEntry(l0, f.inodestart + i / IPB, f.bmapstart, |f.disk|);
    SizeBound(n0, i, k);
    EncodeLength(e);
    NoChange(d0, n0, i);
    var r := Writei(f, i, Encode(e), k * DIRENT);
    ok := r == DIRENT;
    if r != -1 {
      EntryPlace(l0, f.g.logged, f.disk, f.nmeta, f.bmapstart, f.g, i, k, f.inodestart + i / IPB);
      WholeEntry(k, r);
      FileAfterWrite(d0, n0[i], f.disk, f.inodes[i], k * DIRENT, r, Encode(e));
      SizeOf(d0, n0[i]);
      if ok {
        assert Encode(e)[..DIRENT] == Encode(e);
        SlotWritten(File(d0, n0[i]), k, e);
      } else {
        OverwriteNothing(File(d0, n0[i]), k * DIRENT);
      }
    }
  }

  /** What the write of one entry logs: the directory's inode block and, with one bitmap block, at most three more. */
  ghost predicate OneEntry(l0: set<nat>, l: set<nat>, ib: nat, start: nat, size: nat) {
    l0 <= l && InPlace(l - l0, ib, start, size) && (size <= BPB ==> |l - l0| <= 4)
  }

  lemma NoEntry(l: set<nat>, ib: nat, start: nat, size: nat)
    ensures OneEntry(l, l, ib, start, size)
  {
    assert l - l == {};
  }

  lemma EntryGrows(l0: set<nat>, l: set<nat>, ib: nat, start: nat, size: nat)
    requires OneEntry(l0, l, ib, start, size)
    ensures l0 <= l
  {
  }

  lemma EntryPlace(l0: set<nat>, l: set<nat>, d: seq<Block>, nmeta: nat, start: nat, g: Ghosts, i: nat, k: nat, ib: nat)
    requires StoreOk(d, nmeta, start, g) && i < |g.view|
    requires NewlyLogged(l0 + {ib}, l, d, g.view[i], start, k * DIRENT / BSIZE, (k * DIRENT + DIRENT + BSIZE - 1) / BSIZE)
    ensures OneEntry(l0, l, ib, start, |d|)
  {
    SameSize(d, nmeta, start, g);
    hide StoreOk, Ptr, IsMap, IsPtr;
    var lo := k * DIRENT / BSIZE;
    OneBlock(k);
    var ino := g.view[i];
    forall b | b in l - l0 && b != ib
      ensures start <= b < |d| && (|d| <= BPB ==> b in {start, ino.addrs[NDIRECT], Ptr(d, ino, lo)})
    {
      assert MayLog(d, ino, start, lo, lo + 1, b);
      MayLogPlace(d, nmeta, start, g, i, lo, lo + 1, b);
      MayLogOne(d, ino, start, lo, b);
    }
    if |d| <= BPB {
      SubsetCount(l - l0, {ib, start, ino.addrs[NDIRECT], Ptr(d, ino, lo)});
      FourAtMost(ib, start, ino.addrs[NDIRECT], Ptr(d, ino, lo));
    }
  }

  lemma OneBlock(k: nat)
    ensures (k * DIRENT + DIRENT + BSIZE - 1) / BSIZE == k * DIRENT / BSIZE + 1
  {
  }

  lemma MayLogOne(d: seq<Block>, ino: Inode, start: nat, lo: nat, b: nat)
    requires MayLog(d, ino, start, lo, lo + 1, b) && |ino.addrs| == NDIRECT + 1
    ensures |d| <= BPB ==> b in {start, ino.addrs[NDIRECT], Ptr(d, ino, lo)}
  {
    hide Ptr;
  }

  lemma FourAtMost(a: nat, b: nat, c: nat, d: nat)
    ensures |{a, b, c, d}| <= 4
  {
  }

  lemma EncodeLength(e: Dirs.Dirent)
    requires Fits(e)
    ensures |Encode(e)| == DIRENT
  {
  }

  lemma SizeBound(n: seq<Inode>, i: nat, k: nat)
    requires SizesOk(n) && i < |n| && k * DIRENT <= n[i].size
    ensures k * DIRENT < UINTS
  {
  }

  lemma SizeOf(d: seq<Block>, ino: Inode)
    ensures |File(d, ino)| == ino.size
  {
  }

  lemma NoChange(d: seq<Block>, n: seq<Inode>, i: nat)
    ensures OthersSame(d, n, d, n, i)
  {
  }

  lemma OverwriteNothing(file: seq<nat>, off: nat)
    requires off <= |file|
    ensures Overwrite(file, off, []) == file
  {
  }

  /** A partial write would have to end on a block boundary inside the entry. */
  lemma WholeEntry(k: nat, t: nat)
    requires t <= DIRENT && (t < DIRENT ==> t == 0 || (k * DIRENT + t) % BSIZE == 0)
    ensures t == 0 || t == DIRENT
  {
  }

  // ----- The directory operations over bytes -----

  ghost function SlotsOf(d: seq<Block>, ino: Inode): seq<Dirs.Dirent> {
    Slots(File(d, ino))
  }

  /** A directory file without holes. */
  ghost predicate Whole(d: seq<Block>, ino: Inode) {
    HoleFree(d, ino, 0, ino.size)
  }

  ghost predicate Same(d0: seq<Block>, n0: seq<Inode>, g0: Ghosts, d: seq<Block>, n: seq<Inode>, g: Ghosts) {
    d == d0 && n == n0 && g == g0
  }

  /** The entries found while file i only gained blocks. */
  ghost predicate Scanned(d0: seq<Block>, n0: seq<Inode>, g0: Ghosts, d: seq<Block>, n: seq<Inode>, g: Ghosts, i: nat) {
    && Grown(d0, n0, g0, d, n, g, i) && g0.logged <= g.logged && ChangesIn(d0, d, g.logged)
    && (i < |n0| && Whole(d0, n0[i]) ==> Same(d0, n0, g0, d, n, g))
  }

  lemma ScannedFile(d0: seq<Block>, n0: seq<Inode>, g0: Ghosts, d: seq<Block>, n: seq<Inode>, g: Ghosts, i: nat)
    requires Scanned(d0, n0, g0, d, n, g, i)
    ensures i < |n0| == |n| && n[i].size == n0[i].size && File(d, n[i]) == File(d0, n0[i])
    ensures NoNewHoles(d0, n0, d, n) && OthersSame(d0, n0, d, n, i)
  {
    GrownBytes(d0, n0, g0, d, n, g, i);
    AllSameNoHoles(d0, n0, d, n);
    hide Byte, Ptr;
    assert n[i].size == n0[i].size;
    forall k | 0 <= k < n[i].size
      ensures File(d, n[i])[k] == File(d0, n0[i])[k]
    {
    }
  }

  lemma ScannedNothing(d: seq<Block>, n: seq<Inode>, g: Ghosts, i: nat)
    requires i < |n| && |n[i].addrs| == NDIRECT + 1 && |g.role| == |d|
    ensures Scanned(d, n, g, d, n, g, i)
  {
    NothingGrown(d, n, g, i, 0, 0);
  }

  lemma ScannedMore(d0: seq<Block>, n0: seq<Inode>, g0: Ghosts, d1: seq<Block>, n1: seq<Inode>, g1: Ghosts,
                    d2: seq<Block>, n2: seq<Inode>, g2: Ghosts, i: nat)
    requires Scanned(d0, n0, g0, d1, n1, g1, i) && Scanned(d1, n1, g1, d2, n2, g2, i)
    ensures Scanned(d0, n0, g0, d2, n2, g2, i)
  {
    GrownTrans(d0, n0, g0, d1, n1, g1, d2, n2, g2, i);
    ChangesTrans(d0, d1, d2, g1.logged, g2.logged);
  }

  /** A scan, and what is done after it, as one change. */
  lemma ScannedLogs(d0: seq<Block>, n0: seq<Inode>, g0: Ghosts, d1: seq<Block>, n1: seq<Inode>, g1: Ghosts, dn: seq<Inode>,
                    b: Snap, l: set<nat>, i: nat, inodestart: nat)
    requires Scanned(d0, n0, g0, d1, n1, g1, i) && Logs(Snap(d1, dn), b, l, inodestart) && g1.logged <= l
    ensures Logs(Snap(d0, dn), b, l, inodestart)
  {
    ChangesTrans(d0, d1, b.disk, g1.logged, l);
    hide ChangesIn, Grown;
  }

  lemma ScannedOnly(d0: seq<Block>, n0: seq<Inode>, g0: Ghosts, d1: seq<Block>, n1: seq<Inode>, g1: Ghosts, dn: seq<Inode>,
                    i: nat, inodestart: nat)
    requires Scanned(d0, n0, g0, d1, n1, g1, i)
    ensures Logs(Snap(d0, dn), Snap(d1, dn), g1.logged, inodestart)
  {
    hide ChangesIn, Grown;
  }

  lemma WholePart(d: seq<Block>, ino: Inode, k: nat)
    requires Whole(d, ino) && k * DIRENT + DIRENT <= ino.size
    ensures HoleFree(d, ino, k * DIRENT, k * DIRENT + DIRENT)
  {
    hide Ptr;
  }

  /** readi of one entry; without ok, one of the panics on a read that is not whole. */
  method ReadEntry(f: Files, dp: nat, k: nat) returns (ok: bool, e: Dirs.Dirent)
    requires f.Valid() && dp < |f.inodes| && k * DIRENT + DIRENT <= f.inodes[dp].size
    modifies f`disk, f`inodes, f`g
    ensures f.Valid() && Scanned(old(f.disk), old(f.inodes), old(f.g), f.disk, f.inodes, f.g, dp)
    ensures k < |SlotsOf(old(f.disk), old(f.inodes[dp]))|
    ensures ok ==> e == SlotsOf(old(f.disk), old(f.inodes[dp]))[k]
    ensures old(Whole(f.disk, f.inodes[dp])) ==> ok
  {
    hide StoreOk, SizesOk, NoneFree, NoneHeld, Ptr, Byte, Grown, Reading, NoNewHoles, Behind, File, Mountable, Loses, Slots, ChangesIn;
    SlotInFile(f.disk, f.inodes, dp, k);
    if Whole(f.disk, f.inodes[dp]) {
      WholePart(f.disk, f.inodes[dp], k);
    }
    hide Whole, HoleFree;
    var out, panic := Readi(f, dp, k * DIRENT, DIRENT);
    ok := !panic && |out| == DIRENT;
    e := if ok then Decode(out) else Dirs.Dirent(0, "");
  }

  lemma SlotInFile(d: seq<Block>, n: seq<Inode>, i: nat, k: nat)
    requires i < |n| && SizesOk(n) && k * DIRENT + DIRENT <= n[i].size
    ensures k * DIRENT + DIRENT <= MAXFILE * BSIZE && |File(d, n[i])| == n[i].size
    ensures k < |Slots(File(d, n[i]))|
    ensures Slots(File(d, n[i]))[k] == Decode(File(d, n[i])[k * DIRENT..k * DIRENT + DIRENT])
  {
  }

  lemma SlotCount(d: seq<Block>, ino: Inode)
    requires ino.size % DIRENT == 0
    ensures |SlotsOf(d, ino)| * DIRENT == ino.size
  {
  }

  /** dirlookup: the slot of the name. A directory without holes is read without a panic and without a change. */
  method Dirlookup(f: Files, dp: nat, name: string) returns (ok: bool, r: Option<nat>)
    requires f.Valid() && dp < |f.inodes| && f.inodes[dp].size % DIRENT == 0 && Dirs.Unique(SlotsOf(f.disk, f.inodes[dp]))
    modifies f`disk, f`inodes, f`g
    ensures f.Valid() && Scanned(old(f.disk), old(f.inodes), old(f.g), f.disk, f.inodes, f.g, dp)
    ensures old(Whole(f.disk, f.inodes[dp])) ==> ok
    ensures ok ==>
      var slots := SlotsOf(old(f.disk), old(f.inodes[dp]));
      && (r.None? <==> Dirs.Cut(name) !in Dirs.DirMap(slots))
      && (r.Some? ==> r.value < |slots| && Dirs.Used(slots[r.value]) && Dirs.Cut(slots[r.value].name) == Dirs.Cut(name))
      && (r.Some? ==> Dirs.DirMap(slots)[Dirs.Cut(name)] == slots[r.value].inum)
  {
    hide StoreOk, SizesOk, NoneHeld, Scanned, Whole, Behind, Slots, File, Dirs.DirMap, Dirs.Cut, Dirs.Unique;
    ghost var d0, n0, g0 := f.disk, f.inodes, f.g;
    ghost var slots := SlotsOf(d0, n0[dp]);
    SameSize(d0, f.nmeta, f.bmapstart, g0);
    ScannedNothing(d0, n0, g0, dp);
    SlotCount(d0, n0[dp]);
    Dirs.MapIsSearch(slots, Dirs.Cut(name));
    var off := 0;
    ok, r := true, None;
    while off * DIRENT < f.inodes[dp].size
      invariant off <= |slots| && f.Valid() && dp < |f.inodes| && f.inodes[dp].size == n0[dp].size
      invariant Scanned(d0, n0, g0, f.disk, f.inodes, f.g, dp)
      invariant forall k :: 0 <= k < off ==> !(Dirs.Used(slots[k]) && Dirs.Cut(slots[k].name) == Dirs.Cut(name))
      decreases |slots| - off
    {
      ghost var d1, n1, g1 := f.disk, f.inodes, f.g;
      ScannedFile(d0, n0, g0, d1, n1, g1, dp);
      WholeStays(d0, n0, g0, d1, n1, g1, dp);
      var e;
      ok, e := ReadEntry(f, dp, off);
      ScannedMore(d0, n0, g0, d1, n1, g1, f.disk, f.inodes, f.g, dp);
      ScannedFile(d0, n0, g0, f.disk, f.inodes, f.g, dp);
      if !ok {
        return;
      }
      if e.inum != 0 {
        var same := Dirs.NameCmp(name, e.name);
        if same {
          return true, Some(off);
        }
      }
      off := off + 1;
    }
  }

  lemma WholeStays(d0: seq<Block>, n0: seq<Inode>, g0: Ghosts, d: seq<Block>, n: seq<Inode>, g: Ghosts, i: nat)
    requires Scanned(d0, n0, g0, d, n, g, i) && i < |n0| == |n|
    ensures Whole(d0, n0[i]) ==> Whole(d, n[i]) && Same(d0, n0, g0, d, n, g)
  {
  }

  /** The scan of dirlink: the first unused slot, or the end. */
  method FreeSlot(f: Files, dp: nat) returns (ok: bool, off: nat)
    requires f.Valid() && dp < |f.inodes| && f.inodes[dp].size % DIRENT == 0
    modifies f`disk, f`inodes, f`g
    ensures f.Valid() && Scanned(old(f.disk), old(f.inodes), old(f.g), f.disk, f.inodes, f.g, dp)
    ensures old(Whole(f.disk, f.inodes[dp])) ==> ok
    ensures ok ==>
      var slots := SlotsOf(old(f.disk), old(f.inodes[dp]));
      && off <= |slots| && (forall k :: 0 <= k < off ==> Dirs.Used(slots[k])) && (off < |slots| ==> !Dirs.Used(slots[off]))
  {
    hide StoreOk, SizesOk, NoneHeld, Scanned, Whole, Behind, Slots, File;
    ghost var d0, n0, g0 := f.disk, f.inodes, f.g;
    ghost var slots := SlotsOf(d0, n0[dp]);
    SameSize(d0, f.nmeta, f.bmapstart, g0);
    ScannedNothing(d0, n0, g0, dp);
    SlotCount(d0, n0[dp]);
    off := 0;
    ok := true;
    while off * DIRENT < f.inodes[dp].size
      invariant off <= |slots| && ok && f.Valid() && dp < |f.inodes| && f.inodes[dp].size == n0[dp].size
      invariant Scanned(d0, n0, g0, f.disk, f.inodes, f.g, dp)
      invariant forall k :: 0 <= k < off ==> Dirs.Used(slots[k])
      decreases |slots| - off
    {
      ghost var d1, n1, g1 := f.disk, f.inodes, f.g;
      ScannedFile(d0, n0, g0, d1, n1, g1, dp);
      WholeStays(d0, n0, g0, d1, n1, g1, dp);
      var e;
      ok, e := ReadEntry(f, dp, off);
      ScannedMore(d0, n0, g0, d1, n1, g1, f.disk, f.inodes, f.g, dp);
      ScannedFile(d0, n0, g0, f.disk, f.inodes, f.g, dp);
      if !ok || e.inum == 0 {
        return;
      }
      off := off + 1;
    }
  }

  /** dirlink. `done` is false for a panic on a read that is not whole, which needs a hole. */
  method Dirlink(f: Files, dp: nat, name: string, inum: nat) returns (done: bool, ok: bool)
    requires f.Valid() && dp < |f.inodes| && f.inodes[dp].size % DIRENT == 0 && Dirs.Unique(SlotsOf(f.disk, f.inodes[dp]))
    requires 0 < inum < 0x1_0000 && f.outstanding > 0 && forall k :: 0 <= k < |name| ==> name[k] as int < 256
    modifies f`disk, f`inodes, f`dinodes, f`g
    ensures f.Valid() && |f.inodes| == |old(f.inodes)| && f.inodes[dp].size % DIRENT == 0
    ensures OthersSame(old(f.disk), old(f.inodes), f.disk, f.inodes, dp) && NoNewHoles(old(f.disk), old(f.inodes), f.disk, f.inodes)
    ensures old(Whole(f.disk, f.inodes[dp])) ==> done && (old(f.DiskOk()) ==> f.DiskOk())
    ensures Logs(old(f.Now()), f.Now(), f.g.logged, f.inodestart)
    ensures old(Whole(f.disk, f.inodes[dp])) ==>
      OneEntry(old(f.g.logged), f.g.logged, f.inodestart + dp / IPB, f.bmapstart, |f.disk|)
    ensures !ok ==> File(f.disk, f.inodes[dp]) == old(File(f.disk, f.inodes[dp]))
    ensures ok ==>
      var map0 := Dirs.DirMap(old(SlotsOf(f.disk, f.inodes[dp])));
      && Dirs.Cut(name) !in map0 && Dirs.Unique(SlotsOf(f.disk, f.inodes[dp]))
      && Dirs.DirMap(SlotsOf(f.disk, f.inodes[dp])) == map0[Dirs.Cut(name) := inum]
    ensures done && !ok ==>
      || Dirs.Cut(name) in Dirs.DirMap(old(SlotsOf(f.disk, f.inodes[dp])))
      || NoneFree(f.g.role) || old(f.inodes[dp].size) + DIRENT > MAXFILE * BSIZE
  {
    hide StoreOk, SizesOk, NoneHeld, Scanned, Whole, Behind, Slots, File, OthersSame, NoNewHoles, NoneFree, HoleFree, Logs, Mountable;
    hide Dirs.DirMap, Dirs.Cut, Dirs.Unique, OneEntry;
    ghost var d0, n0, g0, dn := f.disk, f.inodes, f.g, f.dinodes;
    NoEntry(g0.logged, f.inodestart + dp / IPB, f.bmapstart, |f.disk|);
    ghost var slots := SlotsOf(d0, n0[dp]);
    SlotCount(d0, n0[dp]);
    var found;
    done, found := Dirlookup(f, dp, name);
    ok := false;
    ghost var d1, n1, g1 := f.disk, f.inodes, f.g;
    ScannedFile(d0, n0, g0, d1, n1, g1, dp);
    WholeStays(d0, n0, g0, d1, n1, g1, dp);
    ScannedOnly(d0, n0, g0, d1, n1, g1, dn, dp, f.inodestart);
    if !done || found.Some? {
      return;
    }
    var off;
    done, off := FreeSlot(f, dp);
    ghost var d2, n2, g2 := f.disk, f.inodes, f.g;
    ScannedMore(d0, n0, g0, d1, n1, g1, d2, n2, g2, dp);
    ScannedFile(d0, n0, g0, d2, n2, g2, dp);
    WholeStays(d0, n0, g0, d2, n2, g2, dp);
    ScannedOnly(d0, n0, g0, d2, n2, g2, dn, dp, f.inodestart);
    if !done {
      return;
    }
    var field := Dirs.NameCopy(name);
    var de := Dirs.Dirent(inum, field);
    ok := WriteEntry(f, dp, off, de);
    OthersSameTrans(d0, n0, d2, n2, f.disk, f.inodes, dp);
    NoNewHolesTrans(d0, n0, d2, n2, f.disk, f.inodes);
    EntryGrows(g2.logged, f.g.logged, f.inodestart + dp / IPB, f.bmapstart, |f.disk|);
    ScannedLogs(d0, n0, g0, d2, n2, g2, dn, f.Now(), f.g.logged, dp, f.inodestart);
    if ok {
      Dirs.Added(slots, SlotsOf(f.disk, f.inodes[dp]), off, de);
    }
  }

  /** A cleared entry. */
  function Nothing(): (e: Dirs.Dirent)
    ensures Fits(e) && !Dirs.Used(e)
  {
    Dirs.Dirent(0, seq(Dirs.DIRSIZ, _ => '\0'))
  }

  lemma ClearedToo(slots: seq<Dirs.Dirent>, k: nat)
    requires k < |slots| && Dirs.Unique(slots) && Dirs.Used(slots[k])
    ensures Dirs.Unique(slots[k := Nothing()])
    ensures Dirs.DirMap(slots[k := Nothing()]) == Dirs.DirMap(slots) - {Dirs.Cut(slots[k].name)}
  {
    Dirs.Cleared(slots, k);
    hide Dirs.Cut, Dirs.DirMap;
    UnusedAlike(slots[k := Dirs.UNUSED], slots[k := Nothing()]);
  }

  /** Unused slots count for nothing, whatever their names. */
  lemma {:induction false} UnusedAlike(a: seq<Dirs.Dirent>, b: seq<Dirs.Dirent>)
    requires |a| == |b| && forall k :: 0 <= k < |a| ==> a[k] == b[k] || (!Dirs.Used(a[k]) && !Dirs.Used(b[k]))
    ensures Dirs.DirMap(a) == Dirs.DirMap(b)
  {
    hide Dirs.Cut;
    if a != [] {
      UnusedAlike(a[..|a| - 1], b[..|b| - 1]);
    }
  }

  /** unlink's clearing of the slot it found: the name is gone. The panic on a write that is not whole needs a hole. */
  method ClearEntry(f: Files, dp: nat, k: nat) returns (done: bool)
    requires f.Valid() && dp < |f.inodes| && f.inodes[dp].size % DIRENT == 0 && Dirs.Unique(SlotsOf(f.disk, f.inodes[dp]))
    requires f.outstanding > 0 && k < |SlotsOf(f.disk, f.inodes[dp])| && Dirs.Used(SlotsOf(f.disk, f.inodes[dp])[k])
    modifies f`disk, f`inodes, f`dinodes, f`g
    ensures f.Valid() && |f.inodes| == |old(f.inodes)|
    ensures OthersSame(old(f.disk), old(f.inodes), f.disk, f.inodes, dp) && NoNewHoles(old(f.disk), old(f.inodes), f.disk, f.inodes)
    ensures (old(Whole(f.disk, f.inodes[dp])) ==> done) && (old(f.DiskOk()) ==> f.DiskOk())
    ensures Logs(old(f.Now()), f.Now(), f.g.logged, f.inodestart)
    ensures OneEntry(old(f.g.logged), f.g.logged, f.inodestart + dp / IPB, f.bmapstart, |f.disk|)
    ensures done ==>
      var slots := old(SlotsOf(f.disk, f.inodes[dp]));
      && Dirs.Unique(SlotsOf(f.disk, f.inodes[dp]))
      && Dirs.DirMap(SlotsOf(f.disk, f.inodes[dp])) == Dirs.DirMap(slots) - {Dirs.Cut(slots[k].name)}
  {
    hide StoreOk, SizesOk, NoneHeld, Behind, Slots, File, OthersSame, NoNewHoles, NoneFree, Logs, Mountable, OneEntry;
    hide Dirs.DirMap, Dirs.Cut, Dirs.Unique;
    ghost var slots := SlotsOf(f.disk, f.inodes[dp]);
    SlotCount(f.disk, f.inodes[dp]);
    SlotInFile(f.disk, f.inodes, dp, k);
    if Whole(f.disk, f.inodes[dp]) {
      WholePart(f.disk, f.inodes[dp], k);
    }
    hide Whole, HoleFree;
    done := WriteEntry(f, dp, k, Nothing());
    if done {
      ClearedToo(slots, k);
    }
  }

  /** One transaction that adds a name: begin_op, dirlink, end_op. */
  method LinkOp(f: Files, dp: nat, name: string, inum: nat) returns (done: bool, ok: bool, ghost op: Op)
    requires f.Valid() && dp < |f.inodes| && f.inodes[dp].size % DIRENT == 0 && Dirs.Unique(SlotsOf(f.disk, f.inodes[dp]))
    requires 0 < inum < 0x1_0000 && forall k :: 0 <= k < |name| ==> name[k] as int < 256
    modifies f
    ensures f.Valid() && f.outstanding == old(f.outstanding)
    ensures op.before == old(f.Now()) && op.after == f.Now() && Logs(op.before, op.after, op.logged, f.inodestart)
    ensures old(Whole(f.disk, f.inodes[dp])) ==> done && OpFits(op.logged, f.inodestart + dp / IPB, f.bmapstart, |f.disk|)
    ensures old(Whole(f.disk, f.inodes[dp]) && f.DiskOk()) ==> f.DiskOk()
    ensures |f.inodes| == |old(f.inodes)| && OthersSame(old(f.disk), old(f.inodes), f.disk, f.inodes, dp)
    ensures ok ==>
      Dirs.DirMap(SlotsOf(f.disk, f.inodes[dp])) == Dirs.DirMap(old(SlotsOf(f.disk, f.inodes[dp])))[Dirs.Cut(name) := inum]
    ensures !ok ==> File(f.disk, f.inodes[dp]) == old(File(f.disk, f.inodes[dp]))
  {
    hide StoreOk, SizesOk, NoneHeld, Whole, Behind, Slots, File, OthersSame, NoNewHoles, NoneFree, Logs, Mountable, OneEntry, OpFits;
    hide Dirs.DirMap, Dirs.Cut, Dirs.Unique;
    ghost var s0 := f.Now();
    NewTransaction(f.disk, f.nmeta, f.bmapstart, f.g);
    f.g := f.g.(logged := {});
    f.outstanding := f.outstanding + 1;
    done, ok := Dirlink(f, dp, name, inum);
    f.outstanding := f.outstanding - 1;
    op := Op(s0, f.Now(), f.g.logged);
    FromNothing(f.g.logged, f.inodestart + dp / IPB, f.bmapstart, |f.disk|);
  }

  /** One transaction that removes a name: begin_op, the clearing of its slot, end_op. */
  method UnlinkOp(f: Files, dp: nat, k: nat) returns (done: bool, ghost op: Op)
    requires f.Valid() && dp < |f.inodes| && f.inodes[dp].size % DIRENT == 0 && Dirs.Unique(SlotsOf(f.disk, f.inodes[dp]))
    requires k < |SlotsOf(f.disk, f.inodes[dp])| && Dirs.Used(SlotsOf(f.disk, f.inodes[dp])[k])
    modifies f
    ensures f.Valid() && f.outstanding == old(f.outstanding)
    ensures op.before == old(f.Now()) && op.after == f.Now() && Logs(op.before, op.after, op.logged, f.inodestart)
    ensures OpFits(op.logged, f.inodestart + dp / IPB, f.bmapstart, |f.disk|)
    ensures (old(Whole(f.disk, f.inodes[dp])) ==> done) && (old(f.DiskOk()) ==> f.DiskOk())
    ensures |f.inodes| == |old(f.inodes)| && OthersSame(old(f.disk), old(f.inodes), f.disk, f.inodes, dp)
    ensures done ==>
      var slots := old(SlotsOf(f.disk, f.inodes[dp]));
      Dirs.DirMap(SlotsOf(f.disk, f.inodes[dp])) == Dirs.DirMap(slots) - {Dirs.Cut(slots[k].name)}
  {
    hide StoreOk, SizesOk, NoneHeld, Whole, Behind, Slots, File, OthersSame, NoNewHoles, NoneFree, Logs, Mountable, OneEntry, OpFits;
    hide Dirs.DirMap, Dirs.Cut, Dirs.Unique;
    ghost var s0 := f.Now();
    NewTransaction(f.disk, f.nmeta, f.bmapstart, f.g);
    f.g := f.g.(logged := {});
    f.outstanding := f.outstanding + 1;
    done := ClearEntry(f, dp, k);
    f.outstanding := f.outstanding - 1;
    op := Op(s0, f.Now(), f.g.logged);
    FromNothing(f.g.logged, f.inodestart + dp / IPB, f.bmapstart, |f.disk|);
  }

  /** The blocks one change to a directory logs. */
  ghost predicate OpFits(l: set<nat>, ib: nat, start: nat, size: nat) {
    InPlace(l, ib, start, size) && (size <= BPB ==> |l| <= 4)
  }

  lemma FromNothing(l: set<nat>, ib: nat, start: nat, size: nat)
    ensures OneEntry({}, l, ib, start, size) ==> OpFits(l, ib, start, size)
  {
    assert l - {} == l;
  }

  /** isdirempty: nothing is used behind the first two slots. */
  method Isdirempty(f: Files, dp: nat) returns (done: bool, empty: bool)
    requires f.Valid() && dp < |f.inodes| && f.inodes[dp].size % DIRENT == 0
    modifies f`disk, f`inodes, f`g
    ensures f.Valid() && Scanned(old(f.disk), old(f.inodes), old(f.g), f.disk, f.inodes, f.g, dp)
    ensures old(Whole(f.disk, f.inodes[dp])) ==> done
    ensures done ==>
      var slots := SlotsOf(old(f.disk), old(f.inodes[dp]));
      (empty <==> forall k :: 2 <= k < |slots| ==> !Dirs.Used(slots[k]))
  {
    hide StoreOk, SizesOk, NoneHeld, Scanned, Whole, Behind, Slots, File;
    ghost var d0, n0, g0 := f.disk, f.inodes, f.g;
    ghost var slots := SlotsOf(d0, n0[dp]);
    SameSize(d0, f.nmeta, f.bmapstart, g0);
    ScannedNothing(d0, n0, g0, dp);
    SlotCount(d0, n0[dp]);
    var off := 2;
    done, empty := true, true;
    while off * DIRENT < f.inodes[dp].size
      invariant 2 <= off && done && empty && f.Valid() && dp < |f.inodes| && f.inodes[dp].size == n0[dp].size
      invariant Scanned(d0, n0, g0, f.disk, f.inodes, f.g, dp)
      invariant forall k :: 2 <= k < off && k < |slots| ==> !Dirs.Used(slots[k])
      decreases |slots| - off
    {
      ghost var d1, n1, g1 := f.disk, f.inodes, f.g;
      ScannedFile(d0, n0, g0, d1, n1, g1, dp);
      WholeStays(d0, n0, g0, d1, n1, g1, dp);
      var e;
      done, e := ReadEntry(f, dp, off);
      ScannedMore(d0, n0, g0, d1, n1, g1, f.disk, f.inodes, f.g, dp);
      ScannedFile(d0, n0, g0, f.disk, f.inodes, f.g, dp);
      if !done {
        return;
      }
      if e.inum != 0 {
        empty := false;
        return;
      }
      off := off + 1;
    }
  }
}
