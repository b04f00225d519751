/** Reading and writing the bytes of a file (kernel/fs.c, kernel/file.c). */
module FileIo {
  import opened InodeMap
  import opened Bitmap
  import opened Inodes
  import opened Counting
  import opened Params

  /** A file after the bytes of `src` are written at off. */
  function Overwrite(file: seq<nat>, off: nat, src: seq<nat>): seq<nat>
    requires off <= |file|
  {
    file[..off] + src + if off + |src| < |file| then file[off + |src|..] else []
  }

  // ----- Effects -----

  /** The first t bytes of `src` are at off; every other byte is as before. */
  ghost predicate Wrote(d0: seq<Block>, ino0: Inode, d: seq<Block>, ino: Inode, off: nat, t: nat, src: seq<nat>)
    requires t <= |src|
  {
    forall k: nat :: Byte(d, ino, k) == if off <= k < off + t then src[k - off] else Byte(d0, ino0, k)
  }

  /** A write of file i in progress: t bytes are down, blocks lo .. hi-1 may have been touched. */
  ghost predicate Writing(d0: seq<Block>, n0: seq<Inode>, g0: Ghosts, d: seq<Block>, n: seq<Inode>, g: Ghosts,
                          i: nat, off: nat, t: nat, src: seq<nat>, start: nat, lo: nat, hi: nat)
    requires t <= |src|
  {
    && i < |n0| == |n| && |d| == |d0| && OthersSame(d0, n0, d, n, i)
    && Wrote(d0, n0[i], d, n[i], off, t, src)
    && NewlyLogged(g0.logged, g.logged, d, n[i], start, lo, hi) && ChangesIn(d0, d, g.logged)
    && PtrsStay(d0, n0[i], d, n[i]) && HoleFree(d, n[i], off, off + t)
  }

  lemma WritingNothing(d: seq<Block>, n: seq<Inode>, g: Ghosts, i: nat, off: nat, src: seq<nat>, start: nat, lo: nat, hi: nat)
    requires i < |n|
    ensures Writing(d, n, g, d, n, g, i, off, 0, src, start, lo, hi)
  {
  }

  lemma OthersSameTrans(d0: seq<Block>, n0: seq<Inode>, d1: seq<Block>, n1: seq<Inode>, d2: seq<Block>, n2: seq<Inode>, i: nat)
    requires OthersSame(d0, n0, d1, n1, i) && OthersSame(d1, n1, d2, n2, i)
    ensures OthersSame(d0, n0, d2, n2, i)
  {
    forall j | 0 <= j < |n0| && j != i
      ensures FileStays(d0, n0[j], d2, n2[j])
    {
      StaysTrans(d0, n0[j], d1, n1[j], d2, n2[j]);
    }
  }

  lemma LoggedAfter(l0: set<nat>, l1: set<nat>, l2: set<nat>, d1: seq<Block>, ino1: Inode, d2: seq<Block>, ino2: Inode,
                    start: nat, lo: nat, hi: nat, bn: nat)
    requires NewlyLogged(l0, l1, d1, ino1, start, lo, hi) && NewlyLogged(l1, l2, d2, ino2, start, bn, bn + 1)
    requires lo <= bn < hi && |d1| == |d2| && |ino1.addrs| == |ino2.addrs| == NDIRECT + 1
    requires ino1.addrs[NDIRECT] != 0 ==> ino2.addrs[NDIRECT] == ino1.addrs[NDIRECT]
    requires forall k: nat :: Ptr(d1, ino1, k) != 0 ==> Ptr(d2, ino2, k) == Ptr(d1, ino1, k)
    ensures NewlyLogged(l0, l2, d2, ino2, start, lo, hi)
  {
    hide Ptr;
    forall b | b in l2 && b !in l0
      ensures MayLog(d2, ino2, start, lo, hi, b)
    {
      if b in l1 {
        assert MayLog(d1, ino1, start, lo, hi, b);
      } else {
        assert MayLog(d2, ino2, start, bn, bn + 1, b);
      }
    }
  }

  lemma LogGrows(l0: set<nat>, l: set<nat>, d: seq<Block>, ino: Inode, start: nat, lo: nat, hi: nat)
    requires NewlyLogged(l0, l, d, ino, start, lo, hi)
    ensures l0 <= l
  {
  }

  lemma WritingMapped(d0: seq<Block>, n0: seq<Inode>, g0: Ghosts, d1: seq<Block>, n1: seq<Inode>, g1: Ghosts,
                      d2: seq<Block>, n2: seq<Inode>, g2: Ghosts,
                      i: nat, off: nat, t: nat, src: seq<nat>, start: nat, lo: nat, hi: nat, bn: nat, addr: nat)
    requires t <= |src| && Writing(d0, n0, g0, d1, n1, g1, i, off, t, src, start, lo, hi)
    requires Mapped(d1, n1, g1, d2, n2, g2, i, bn, addr, start) && lo <= bn < hi
    ensures Writing(d0, n0, g0, d2, n2, g2, i, off, t, src, start, lo, hi)
  {
    hide Ptr, Byte, NewlyLogged, ChangesIn;
    assert g1.logged <= g2.logged by {
      LogGrows(g1.logged, g2.logged, d2, n2[i], start, bn, bn + 1);
    }
    assert FileStays(d1, n1[i], d2, n2[i]);
    OthersSameTrans(d0, n0, d1, n1, d2, n2, i);
    ChangesTrans(d0, d1, d2, g1.logged, g2.logged);
    LoggedAfter(g0.logged, g1.logged, g2.logged, d1, n1[i], d2, n2[i], start, lo, hi, bn);
  }

  /** A block with `data` copied into it from offset o on. */
  function Patch(b: Block, o: nat, data: seq<nat>): (r: Block)
    requires o + |data| <= |b|
    ensures |r| == |b|
    ensures forall k :: 0 <= k < |b| ==> r[k] == if o <= k < o + |data| then data[k - o] else b[k]
  {
    b[..o] + data + b[o + |data|..]
  }

  /** The bytes of one block after it is patched, seen as bytes of the file. */
  lemma WroteBlock(d0: seq<Block>, ino0: Inode, d: seq<Block>, ino: Inode, d': seq<Block>, page: Block,
                   off: nat, t: nat, m: nat, src: seq<nat>, addr: nat)
    requires t + m <= |src| && (off + t) % BSIZE + m <= BSIZE && Wrote(d0, ino0, d, ino, off, t, src)
    requires addr == Ptr(d, ino, (off + t) / BSIZE) && 0 < addr < |d| && |d[addr]| == BSIZE
    requires page == Patch(d[addr], (off + t) % BSIZE, src[t..t + m])
    requires forall k: nat :: Byte(d', ino, k) == if k / BSIZE == (off + t) / BSIZE then page[k % BSIZE] else Byte(d, ino, k)
    ensures Wrote(d0, ino0, d', ino, off, t + m, src)
  {
    var pos, bn, o := off + t, (off + t) / BSIZE, (off + t) % BSIZE;
    hide Ptr;
    forall k: nat
      ensures Byte(d', ino, k) == if off <= k < off + t + m then src[k - off] else Byte(d0, ino0, k)
    {
      if k / BSIZE == bn {
        assert Byte(d, ino, k) == d[addr][k % BSIZE];
        assert k - pos == k % BSIZE - o;
      } else {
        InBlock(pos, m, k);
      }
    }
  }

  lemma InBlock(pos: nat, m: nat, k: nat)
    requires pos % BSIZE + m <= BSIZE && k / BSIZE != pos / BSIZE
    ensures !(pos <= k < pos + m)
  {
  }

  lemma WritingWritten(d0: seq<Block>, n0: seq<Inode>, g0: Ghosts, d: seq<Block>, n: seq<Inode>, g: Ghosts, nmeta: nat,
                       i: nat, off: nat, t: nat, m: nat, src: seq<nat>, start: nat, lo: nat, hi: nat, addr: nat)
    requires t + m <= |src| && Writing(d0, n0, g0, d, n, g, i, off, t, src, start, lo, hi)
    requires StoreOk(d, nmeta, start, g) && g.view == n && (off + t) % BSIZE + m <= BSIZE
    requires addr == Ptr(d, n[i], (off + t) / BSIZE) && addr != 0 && lo <= (off + t) / BSIZE < hi
    ensures 0 < addr < |d| && |d[addr]| == BSIZE
    ensures
      var d' := d[addr := Patch(d[addr], (off + t) % BSIZE, src[t..t + m])];
      var g' := g.(logged := g.logged + {addr});
      && StoreOk(d', nmeta, start, g')
      && Writing(d0, n0, g0, d', n, g', i, off, t + m, src, start, lo, hi)
  {
    hide StoreOk, Ptr, Byte, Patch, OthersSame, NewlyLogged, Wrote, ChangesIn;
    var bn := (off + t) / BSIZE;
    DataBlock(d, nmeta, start, g, i, bn);
    var page := Patch(d[addr], (off + t) % BSIZE, src[t..t + m]);
    PatchLength(d[addr], (off + t) % BSIZE, src[t..t + m]);
    var d' := d[addr := page];
    StorePatched(d, nmeta, start, g, i, bn, page, addr);
    WroteBlock(d0, n0[i], d, n[i], d', page, off, t, m, src, addr);
    OthersSameTrans(d0, n0, d, n, d', n, i);
    LoggedToo(g0.logged, g.logged, d, d', n[i], start, lo, hi, bn, addr);
    ChangedOne(d0, d, g.logged, addr, page);
    forall k: nat | off <= k < off + t + m
      ensures Ptr(d', n[i], k / BSIZE) != 0
    {
      if k >= off + t {
        PlaceInBlock(off + t, m, k - off - t);
      }
    }
  }

  lemma ChangedOne(d0: seq<Block>, d: seq<Block>, l: set<nat>, addr: nat, page: Block)
    requires ChangesIn(d0, d, l) && addr < |d|
    ensures ChangesIn(d0, d[addr := page], l + {addr})
  {
  }

  lemma PatchLength(b: Block, o: nat, data: seq<nat>)
    requires o + |data| <= |b|
    ensures |Patch(b, o, data)| == |b|
  {
  }

  lemma DataBlock(d: seq<Block>, nmeta: nat, start: nat, g: Ghosts, i: nat, bn: nat)
    requires StoreOk(d, nmeta, start, g) && i < |g.view| && Ptr(d, g.view[i], bn) != 0
    ensures nmeta <= Ptr(d, g.view[i], bn) < |d| && 0 < Ptr(d, g.view[i], bn) && |d[Ptr(d, g.view[i], bn)]| == BSIZE
  {
    assert Shape(d, nmeta, g.role);
    assert InodeOk(d, g.role, i, g.view[i]);
    assert PtrOk(d, g.role, i, g.view[i], bn);
    hide Ptr;
  }

  lemma StorePatched(d: seq<Block>, nmeta: nat, start: nat, g: Ghosts, i: nat, bn: nat, page: Block, addr: nat)
    requires StoreOk(d, nmeta, start, g) && i < |g.view| && addr == Ptr(d, g.view[i], bn) && nmeta <= addr < |d| && addr != 0
    requires |page| == BSIZE
    ensures
      var d', ino := d[addr := page], g.view[i];
      && StoreOk(d', nmeta, start, g.(logged := g.logged + {addr})) && OthersSame(d, g.view, d', g.view, i)
      && (forall n: nat :: Ptr(d', ino, n) == Ptr(d, ino, n))
      && forall k: nat :: Byte(d', ino, k) == if k / BSIZE == bn then page[k % BSIZE] else Byte(d, ino, k)
  {
    assert Shape(d, nmeta, g.role);
    WriteData(d, nmeta, g.view, g.role, i, bn, page);
    SameMarks(d, d[addr := page], start, nmeta);
    hide Marked, TreeOk, Ptr, Byte, OthersSame;
  }

  lemma LoggedToo(l0: set<nat>, l: set<nat>, d: seq<Block>, d': seq<Block>, ino: Inode, start: nat, lo: nat, hi: nat, bn: nat, addr: nat)
    requires NewlyLogged(l0, l, d, ino, start, lo, hi) && |d'| == |d| && lo <= bn < hi
    requires forall k: nat :: Ptr(d', ino, k) == Ptr(d, ino, k)
    requires addr == Ptr(d, ino, bn) != 0
    ensures NewlyLogged(l0, l + {addr}, d', ino, start, lo, hi)
  {
    hide Ptr;
    forall b | b in l + {addr} && b !in l0
      ensures MayLog(d', ino, start, lo, hi, b)
    {
      if b in l {
        assert MayLog(d, ino, start, lo, hi, b);
      } else {
        assert Ptr(d', ino, bn) == b;
      }
    }
  }

  // ----- writei -----

  /** The loop of writei: bytes go to the file block by block until all are there or the disk is full. */
  method WriteBlocks(f: Files, i: nat, src: seq<nat>, offset: nat) returns (t: nat)
    requires f.Valid() && i < |f.inodes| && offset + |src| <= MAXFILE * BSIZE && f.outstanding > 0
    modifies f`disk, f`inodes, f`g
    ensures f.Valid() && |f.inodes| == |old(f.inodes)| && f.inodes[i].size == old(f.inodes[i].size) && t <= |src|
    ensures t < |src| ==> NoneFree(f.g.role) && (t == 0 || (offset + t) % BSIZE == 0)
    ensures t < |src| ==> !HoleFree(old(f.disk), old(f.inodes[i]), offset, offset + |src|)
    ensures Writing(old(f.disk), old(f.inodes), old(f.g), f.disk, f.inodes, f.g, i, offset, t, src, f.bmapstart,
                    offset / BSIZE, (offset + |src| + BSIZE - 1) / BSIZE)
  {
    hide StoreOk, Writing, Mapped, SizesOk, NoneFree, NoneHeld, Ptr, Patch, Behind, MustPanic;
    var off, n := offset, |src|;
    ghost var d0, n0, g0, start := f.disk, f.inodes, f.g, f.bmapstart;
    ghost var lo, hi := off / BSIZE, (off + n + BSIZE - 1) / BSIZE;
    WritingNothing(d0, n0, g0, i, off, src, start, lo, hi);
    t := 0;
    while t < n
      invariant t <= n && off == offset + t && (t == 0 || t == n || off % BSIZE == 0)
      invariant f.Valid() && |f.inodes| == |n0| && f.inodes[i].size == n0[i].size
      invariant Writing(d0, n0, g0, f.disk, f.inodes, f.g, i, offset, t, src, start, lo, hi)
    {
      BlockRange(offset, n, t);
      ghost var d1, n1, g1 := f.disk, f.inodes, f.g;
      var addr, panic := f.Bmap(i, off / BSIZE);
      NoPanic(d1, n1[i], g1, f.outstanding, off / BSIZE);
      MappedHas(d1, n1, g1, f.disk, f.inodes, f.g, i, off / BSIZE, addr, start);
      WritingMapped(d0, n0, g0, d1, n1, g1, f.disk, f.inodes, f.g, i, offset, t, src, start, lo, hi, off / BSIZE, addr);
      if addr == 0 {
        NotMapped(d0, n0, g0, f.disk, f.inodes, f.g, i, offset, t, src, start, lo, hi);
        break;
      }
      var m := if n - t < BSIZE - off % BSIZE then n - t else BSIZE - off % BSIZE;
      WritingWritten(d0, n0, g0, f.disk, f.inodes, f.g, f.nmeta, i, offset, t, m, src, start, lo, hi, addr);
      f.disk := f.disk[addr := Patch(f.disk[addr], off % BSIZE, src[t..t + m])];
      f.g := f.g.(logged := f.g.logged + {addr});
      t := t + m;
      off := off + m;
    }
  }

  /** A block that cannot be had was not there before. */
  lemma NotMapped(d0: seq<Block>, n0: seq<Inode>, g0: Ghosts, d: seq<Block>, n: seq<Inode>, g: Ghosts,
                  i: nat, off: nat, t: nat, src: seq<nat>, start: nat, lo: nat, hi: nat)
    requires t < |src| && Writing(d0, n0, g0, d, n, g, i, off, t, src, start, lo, hi) && Ptr(d, n[i], (off + t) / BSIZE) == 0
    ensures !HoleFree(d0, n0[i], off, off + |src|)
  {
    hide Ptr;
    assert Ptr(d0, n0[i], (off + t) / BSIZE) == 0;
    HoleAt(d0, n0[i], off, t, |src|);
  }

  /** writei when the copies from the source succeed. */
  method Writei(f: Files, i: nat, src: seq<nat>, offset: nat) returns (tot: int)
    requires f.Valid() && i < |f.inodes| && offset < UINTS && |src| < UINTS && f.outstanding > 0
    modifies f`disk, f`inodes, f`dinodes, f`g
    ensures f.Valid() && |f.inodes| == |old(f.inodes)| && |f.disk| == |old(f.disk)|
    ensures Logs(old(f.Now()), f.Now(), f.g.logged, f.inodestart) && (old(f.DiskOk()) ==> f.DiskOk())
    ensures NoNewHoles(old(f.disk), old(f.inodes), f.disk, f.inodes)
    ensures tot == -1 <==> offset > old(f.inodes[i].size) || offset + |src| > MAXFILE * BSIZE
    ensures tot == -1 ==> f.disk == old(f.disk) && f.inodes == old(f.inodes) && f.dinodes == old(f.dinodes) && f.g == old(f.g)
    ensures tot != -1 ==>
      && 0 <= tot <= |src| && (tot < |src| ==> NoneFree(f.g.role) && (tot == 0 || (offset + tot) % BSIZE == 0))
      && (HoleFree(old(f.disk), old(f.inodes[i]), offset, offset + |src|) ==> tot == |src|)
      && OthersSame(old(f.disk), old(f.inodes), f.disk, f.inodes, i)
      && Wrote(old(f.disk), old(f.inodes[i]), f.disk, f.inodes[i], offset, tot, src)
      && HoleFree(f.disk, f.inodes[i], offset, offset + tot) && PtrsStay(old(f.disk), old(f.inodes[i]), f.disk, f.inodes[i])
      && f.inodes[i].size == (if offset + tot > old(f.inodes[i].size) then offset + tot else old(f.inodes[i].size))
      && f.dinodes == old(f.dinodes)[i := f.inodes[i]]
      && f.inodestart + i / IPB in f.g.logged
      && NewlyLogged(old(f.g.logged) + {f.inodestart + i / IPB}, f.g.logged, f.disk, f.inodes[i], f.bmapstart,
                     offset / BSIZE, (offset + |src| + BSIZE - 1) / BSIZE)
  {
    hide StoreOk, Writing, SizesOk, NewlyLogged, Wrote, OthersSame, NoneFree, NoneHeld, Ptr;
    hide Behind, BehindAt, Mountable, ChangesIn, HoleFree, NoNewHoles, PtrsStay;
    var off, n := offset, |src|;
    UnchangedSnap(f.disk, f.inodes, f.dinodes, f.g.logged, f.inodestart);
    DiskOkIff(f.disk, f.nmeta, f.bmapstart, f.g, f.dinodes);
    if off > f.inodes[i].size || Add32(off, n) < off {
      return -1;
    }
    if Add32(off, n) > MAXFILE * BSIZE {
      return -1;
    }
    ghost var d0, n0, g0, start := f.disk, f.inodes, f.g, f.bmapstart;
    ghost var lo, hi := off / BSIZE, (off + n + BSIZE - 1) / BSIZE;
    var t := WriteBlocks(f, i, src, off);
    off := off + t;
    BehindOthers(f.inodes, f.inodes, f.dinodes, i);
    if off > f.inodes[i].size {
      Resized(d0, n0, g0, f.disk, f.inodes, f.g, f.nmeta, i, offset, t, src, start, lo, hi, off);
      f.inodes := f.inodes[i := f.inodes[i].(size := off)];
      f.g := f.g.(view := f.inodes);
    }
    Finished(d0, n0, g0, f.disk, f.inodes, f.g, i, offset, t, src, start, lo, hi, f.inodestart + i / IPB);
    WriteHoles(d0, n0, g0, f.disk, f.inodes, f.g, i, offset, t, src, start, lo, hi, f.inodestart + i / IPB);
    f.Iupdate(i);
    SyncedBy(n0, f.inodes, old(f.dinodes), f.dinodes, d0, f.disk, i);
    DiskOkIff(f.disk, f.nmeta, f.bmapstart, f.g, f.dinodes);
    tot := t;
  }

  lemma UnchangedSnap(d: seq<Block>, n: seq<Inode>, dn: seq<Inode>, l: set<nat>, inodestart: nat)
    ensures Logs(Snap(d, dn), Snap(d, dn), l, inodestart) && NoNewHoles(d, n, d, n)
  {
  }

  lemma NoPanic(d: seq<Block>, ino: Inode, g: Ghosts, outstanding: nat, bn: nat)
    requires outstanding > 0
    ensures !MustPanic(d, ino, g, outstanding, bn)
  {
  }

  /** The write brings the inode on disk up to date and leaves the others. */
  lemma SyncedBy(n0: seq<Inode>, n: seq<Inode>, dn0: seq<Inode>, dn: seq<Inode>, d0: seq<Block>, d: seq<Block>, i: nat)
    requires i < |n0| == |n| == |dn0| && OthersSame(d0, n0, d, n, i) && dn == dn0[i := n[i]]
    ensures dn0 == n0 ==> dn == n
  {
  }

  /** Written bytes are in blocks, and so is everything that was. */
  lemma WriteHoles(d0: seq<Block>, n0: seq<Inode>, g0: Ghosts, d: seq<Block>, n: seq<Inode>, g: Ghosts,
                   i: nat, off: nat, t: nat, src: seq<nat>, start: nat, lo: nat, hi: nat, ib: nat)
    requires t <= |src| && Writing(d0, n0, g0, d, n, g, i, off, t, src, start, lo, hi) && off <= n0[i].size
    requires n[i].size == if off + t > n0[i].size then off + t else n0[i].size
    ensures NoNewHoles(d0, n0, d, n) && HoleFree(d, n[i], off, off + t) && ChangesIn(d0, d, g.logged + {ib})
    ensures PtrsStay(d0, n0[i], d, n[i])
  {
    hide Ptr, Byte, NewlyLogged;
    if HoleFree(d0, n0[i], 0, n0[i].size) {
      forall k: nat | k < n[i].size
        ensures Ptr(d, n[i], k / BSIZE) != 0
      {
        if k < n0[i].size {
          assert Ptr(d0, n0[i], k / BSIZE) != 0;
        }
      }
    }
    OthersNoHoles(d0, n0, d, n, i);
  }

  lemma BlockRange(offset: nat, n: nat, t: nat)
    requires t < n && offset + n <= MAXFILE * BSIZE
    ensures offset / BSIZE <= (offset + t) / BSIZE < (offset + n + BSIZE - 1) / BSIZE
    ensures (offset + t) / BSIZE < MAXFILE
  {
  }

  lemma MappedHas(d0: seq<Block>, n0: seq<Inode>, g0: Ghosts, d: seq<Block>, n: seq<Inode>, g: Ghosts,
                  i: nat, bn: nat, addr: nat, start: nat)
    requires Mapped(d0, n0, g0, d, n, g, i, bn, addr, start)
    ensures |n| == |n0| && i < |n| && n[i].size == n0[i].size && addr == Ptr(d, n[i], bn) && (addr == 0 ==> NoneFree(g.role))
  {
  }

  lemma Resized(d0: seq<Block>, n0: seq<Inode>, g0: Ghosts, d: seq<Block>, n: seq<Inode>, g: Ghosts, nmeta: nat,
                i: nat, off: nat, t: nat, src: seq<nat>, start: nat, lo: nat, hi: nat, size: nat)
    requires t <= |src| && Writing(d0, n0, g0, d, n, g, i, off, t, src, start, lo, hi) && |n| == |n0|
    requires StoreOk(d, nmeta, start, g) && g.view == n && SizesOk(n) && size <= MAXFILE * BSIZE
    ensures
      var n' := n[i := n[i].(size := size)];
      && StoreOk(d, nmeta, start, g.(view := n')) && SizesOk(n')
      && Writing(d0, n0, g0, d, n', g.(view := n'), i, off, t, src, start, lo, hi)
  {
    var n' := n[i := n[i].(size := size)];
    Resize(d, nmeta, n, g.role, i, size);
    assert forall bn: nat :: Ptr(d, n'[i], bn) == Ptr(d, n[i], bn);
    hide TreeOk, Marked, Ptr, Byte, SameBytes, ChangesIn;
    assert PtrsStay(d0, n0[i], d, n'[i]) && HoleFree(d, n'[i], off, off + t) && OthersSame(d0, n0, d, n', i);
    hide PtrsStay, HoleFree, OthersSame;
    assert Wrote(d0, n0[i], d, n'[i], off, t, src) by {
      SameByte(d, n[i], size);
    }
    assert NewlyLogged(g0.logged, g.logged, d, n'[i], start, lo, hi) by {
      hide Wrote;
      forall b | b in g.logged && b !in g0.logged
        ensures MayLog(d, n'[i], start, lo, hi, b)
      {
        assert MayLog(d, n[i], start, lo, hi, b);
      }
    }
  }

  lemma SameByte(d: seq<Block>, ino: Inode, size: nat)
    ensures forall k: nat :: Byte(d, ino.(size := size), k) == Byte(d, ino, k)
  {
  }

  lemma Finished(d0: seq<Block>, n0: seq<Inode>, g0: Ghosts, d: seq<Block>, n: seq<Inode>, g: Ghosts,
                 i: nat, off: nat, t: nat, src: seq<nat>, start: nat, lo: nat, hi: nat, ib: nat)
    requires t <= |src| && Writing(d0, n0, g0, d, n, g, i, off, t, src, start, lo, hi)
    ensures OthersSame(d0, n0, d, n, i) && i < |n0| && |n| == |n0| && |d| == |d0|
    ensures Wrote(d0, n0[i], d, n[i], off, t, src)
    ensures NewlyLogged(g0.logged + {ib}, g.logged + {ib}, d, n[i], start, lo, hi)
  {
  }

  /** The file after a write is the file overwritten. */
  lemma FileAfterWrite(d0: seq<Block>, ino0: Inode, d: seq<Block>, ino: Inode, off: nat, t: nat, src: seq<nat>)
    requires t <= |src| && off <= ino0.size && Wrote(d0, ino0, d, ino, off, t, src)
    requires ino.size == if off + t > ino0.size then off + t else ino0.size
    ensures File(d, ino) == Overwrite(File(d0, ino0), off, src[..t])
  {
    hide Byte;
    var a, b := File(d, ino), Overwrite(File(d0, ino0), off, src[..t]);
    assert |a| == |b|;
    forall k | 0 <= k < |a|
      ensures a[k] == b[k]
    {
      assert a[k] == Byte(d, ino, k);
    }
  }

  // ----- readi -----

  /** How much of n bytes at off lies within the file. */
  function Clip(size: nat, off: nat, n: nat): nat {
    if off > size || off + n >= UINTS then 0 else if off + n > size then size - off else n
  }

  /** Reading the bytes from lo to hi meets a hole whose block would go into the inode itself. */
  ghost predicate LostIn(ino: Inode, lo: nat, hi: nat) {
    exists k: nat :: lo <= k < hi && LostAt(ino, k / BSIZE)
  }

  /** A free block was given to file i. */
  ghost predicate Took(role0: seq<Owner>, role: seq<Owner>, i: nat) {
    |role| == |role0| && exists p :: 0 <= p < |role| && role0[p] == Unused && Owns(role[p], i)
  }

  /** A read in progress: `out` holds the bytes from off on; a block was taken if and only if a hole was met, and
      the inode changed if and only if the block went into the inode itself. */
  ghost predicate Reading(d0: seq<Block>, n0: seq<Inode>, g0: Ghosts, d: seq<Block>, n: seq<Inode>, g: Ghosts,
                          i: nat, off: nat, out: seq<nat>) {
    && Grown(d0, n0, g0, d, n, g, i)
    && (forall k :: 0 <= k < |out| ==> out[k] == Byte(d0, n0[i], off + k))
    && (if HoleFree(d0, n0[i], off, off + |out|) then d == d0 && n == n0 && g == g0 else Took(g0.role, g.role, i))
    && (n == n0 <==> !LostIn(n0[i], off, off + |out|))
    && g0.logged <= g.logged && ChangesIn(d0, d, g.logged)
  }

  lemma ReadingMore(d0: seq<Block>, n0: seq<Inode>, g0: Ghosts, d1: seq<Block>, n1: seq<Inode>, g1: Ghosts,
                    d2: seq<Block>, n2: seq<Inode>, g2: Ghosts, nmeta: nat, i: nat, off: nat, out: seq<nat>, m: nat, addr: nat, start: nat)
    requires Reading(d0, n0, g0, d1, n1, g1, i, off, out) && StoreOk(d2, nmeta, start, g2) && g2.view == n2
    requires Mapped(d1, n1, g1, d2, n2, g2, i, (off + |out|) / BSIZE, addr, start) && addr != 0
    requires (off + |out|) % BSIZE + m <= BSIZE && m > 0
    requires StoreOk(d0, nmeta, start, g0) && g0.view == n0
    ensures addr < |d2| && |d2[addr]| == BSIZE
    ensures
      var o := (off + |out|) % BSIZE;
      Reading(d0, n0, g0, d2, n2, g2, i, off, out + d2[addr][o..o + m])
  {
    hide StoreOk, Mapped, Byte, Ptr, HoleFree, Took, Grown, LostIn, ChangesIn;
    var pos := off + |out|;
    var bn, o := pos / BSIZE, pos % BSIZE;
    MappedParts(d1, n1, g1, d2, n2, g2, i, bn, addr, start);
    GrownTrans(d0, n0, g0, d1, n1, g1, d2, n2, g2, i);
    GrownBytes(d0, n0, g0, d2, n2, g2, i);
    DataBlock(d2, nmeta, start, g2, i, bn);
    var out' := out + d2[addr][o..o + m];
    forall k | 0 <= k < |out'|
      ensures out'[k] == Byte(d0, n0[i], off + k)
    {
      if k >= |out| {
        PlaceInBlock(pos, m, k - |out|);
        ByteOf(d2, n2[i], off + k, addr);
      }
    }
    HolesMore(d0, n0, g0, d1, n1, g1, d2, n2, g2, nmeta, i, off, |out|, m, addr, start);
    LostMore(d0, n0, g0, d1, n1, g1, d2, n2, g2, i, off, |out|, m, addr, start);
    ChangesTrans(d0, d1, d2, g1.logged, g2.logged);
  }

  lemma MappedParts(d0: seq<Block>, n0: seq<Inode>, g0: Ghosts, d: seq<Block>, n: seq<Inode>, g: Ghosts,
                    i: nat, bn: nat, addr: nat, start: nat)
    requires Mapped(d0, n0, g0, d, n, g, i, bn, addr, start)
    ensures Grown(d0, n0, g0, d, n, g, i) && i < |n| == |n0| && addr == Ptr(d, n[i], bn)
    ensures Ptr(d0, n0[i], bn) != 0 ==> d == d0 && n == n0 && g == g0
    ensures g0.logged <= g.logged && ChangesIn(d0, d, g.logged)
  {
  }

  lemma GrownBytes(d0: seq<Block>, n0: seq<Inode>, g0: Ghosts, d: seq<Block>, n: seq<Inode>, g: Ghosts, i: nat)
    requires Grown(d0, n0, g0, d, n, g, i)
    ensures i < |n0| == |n| && forall k: nat :: Byte(d, n[i], k) == Byte(d0, n0[i], k)
  {
    assert FileStays(d0, n0[i], d, n[i]);
  }

  lemma PlaceInBlock(pos: nat, m: nat, j: nat)
    requires pos % BSIZE + m <= BSIZE && j < m
    ensures (pos + j) / BSIZE == pos / BSIZE && (pos + j) % BSIZE == pos % BSIZE + j
  {
  }

  lemma ByteOf(d: seq<Block>, ino: Inode, k: nat, addr: nat)
    requires addr == Ptr(d, ino, k / BSIZE) && 0 < addr < |d| && |d[addr]| == BSIZE
    ensures Byte(d, ino, k) == d[addr][k % BSIZE]
  {
  }

  /** Mapping one more block takes a free block exactly when that block was missing. */
  lemma HolesMore(d0: seq<Block>, n0: seq<Inode>, g0: Ghosts, d1: seq<Block>, n1: seq<Inode>, g1: Ghosts,
                  d2: seq<Block>, n2: seq<Inode>, g2: Ghosts, nmeta: nat, i: nat, off: nat, t: nat, m: nat, addr: nat, start: nat)
    requires Grown(d0, n0, g0, d1, n1, g1, i) && Grown(d1, n1, g1, d2, n2, g2, i) && Grown(d0, n0, g0, d2, n2, g2, i)
    requires addr == Ptr(d2, n2[i], (off + t) / BSIZE) != 0 && (off + t) % BSIZE + m <= BSIZE && m > 0
    requires Ptr(d1, n1[i], (off + t) / BSIZE) != 0 ==> d2 == d1 && n2 == n1 && g2 == g1
    requires if HoleFree(d0, n0[i], off, off + t) then d1 == d0 && n1 == n0 && g1 == g0 else Took(g0.role, g1.role, i)
    requires StoreOk(d2, nmeta, start, g2) && g2.view == n2 && StoreOk(d0, nmeta, start, g0) && g0.view == n0
    ensures if HoleFree(d0, n0[i], off, off + t + m) then d2 == d0 && n2 == n0 && g2 == g0 else Took(g0.role, g2.role, i)
  {
    hide Ptr, AllSame, StoreOk;
    var pos := off + t;
    if HoleFree(d0, n0[i], off, off + t + m) {
      assert Ptr(d0, n0[i], pos / BSIZE) != 0;
    } else if !HoleFree(d0, n0[i], off, off + t) {
      var p :| 0 <= p < |g1.role| && g0.role[p] == Unused && Owns(g1.role[p], i);
      assert Owns(g2.role[p], i);
    } else {
      var k: nat :| off <= k < off + t + m && Ptr(d0, n0[i], k / BSIZE) == 0;
      PlaceInBlock(pos, m, k - pos);
      FilledHole(d0, g0, d2, g2, nmeta, i, pos / BSIZE, addr, start);
    }
  }

  /** An inode that grew does not shrink back. */
  lemma GrownDiffers(d0: seq<Block>, n0: seq<Inode>, g0: Ghosts, d1: seq<Block>, n1: seq<Inode>, g1: Ghosts,
                     d2: seq<Block>, n2: seq<Inode>, g2: Ghosts, i: nat)
    requires Grown(d0, n0, g0, d1, n1, g1, i) && Grown(d1, n1, g1, d2, n2, g2, i) && n1 != n0
    ensures n2 != n0
  {
    forall k: nat | k < NDIRECT
      ensures n0[i].addrs[k] != 0 ==> n1[i].addrs[k] == n0[i].addrs[k]
      ensures n1[i].addrs[k] != 0 ==> n2[i].addrs[k] == n1[i].addrs[k]
    {
      DirectPtr(d0, n0[i], k);
      DirectPtr(d1, n1[i], k);
      DirectPtr(d2, n2[i], k);
    }
    hide Ptr;
    assert n0[i].size == n1[i].size;
    hide AllSame;
    assert n1[i].addrs != n0[i].addrs;
    var k :| 0 <= k <= NDIRECT && n1[i].addrs[k] != n0[i].addrs[k];
  }

  lemma LostIsHole(d: seq<Block>, ino: Inode, bn: nat)
    requires LostAt(ino, bn)
    ensures Ptr(d, ino, bn) == 0
  {
  }

  /** Mapping one more block changes the inode exactly when the block goes into the inode. */
  lemma LostMore(d0: seq<Block>, n0: seq<Inode>, g0: Ghosts, d1: seq<Block>, n1: seq<Inode>, g1: Ghosts,
                 d2: seq<Block>, n2: seq<Inode>, g2: Ghosts, i: nat, off: nat, t: nat, m: nat, addr: nat, start: nat)
    requires Grown(d0, n0, g0, d1, n1, g1, i) && Mapped(d1, n1, g1, d2, n2, g2, i, (off + t) / BSIZE, addr, start)
    requires addr != 0 && (off + t) % BSIZE + m <= BSIZE && m > 0 && (n1 == n0 <==> !LostIn(n0[i], off, off + t))
    ensures n2 == n0 <==> !LostIn(n0[i], off, off + t + m)
  {
    GrownAddrs(d0, n0, g0, d1, n1, g1, i);
    MappedParts(d1, n1, g1, d2, n2, g2, i, (off + t) / BSIZE, addr, start);
    hide Ptr, Grown, NewlyLogged, ChangesIn, LostAt;
    var bn := (off + t) / BSIZE;
    if LostIn(n0[i], off, off + t) {
      var k: nat :| off <= k < off + t && LostAt(n0[i], k / BSIZE);
      GrownDiffers(d0, n0, g0, d1, n1, g1, d2, n2, g2, i);
    } else if LostAt(n0[i], bn) {
      LostIsHole(d1, n1[i], bn);
      assert off <= off + t < off + t + m;
    } else {
      forall k: nat | off <= k < off + t + m
        ensures !LostAt(n0[i], k / BSIZE)
      {
        if k >= off + t {
          PlaceInBlock(off + t, m, k - off - t);
        }
      }
    }
  }

  lemma FilledHole(d0: seq<Block>, g0: Ghosts, d: seq<Block>, g: Ghosts, nmeta: nat, i: nat, bn: nat, addr: nat, start: nat)
    requires StoreOk(d, nmeta, start, g) && StoreOk(d0, nmeta, start, g0)
    requires Grown(d0, g0.view, g0, d, g.view, g, i) && Ptr(d0, g0.view[i], bn) == 0 && addr == Ptr(d, g.view[i], bn) != 0
    ensures Took(g0.role, g.role, i)
  {
    assert InodeOk(d, g.role, i, g.view[i]);
    assert PtrOk(d, g.role, i, g.view[i], bn);
    assert OwnerOk(d0, g0.view, g0.role[addr], addr);
    hide Ptr;
    assert g0.role[addr] == Unused && Owns(g.role[addr], i);
  }

  lemma ReadingNothing(d: seq<Block>, n: seq<Inode>, g: Ghosts, i: nat, off: nat)
    requires i < |n| && |n[i].addrs| == NDIRECT + 1 && |g.role| == |d|
    ensures Reading(d, n, g, d, n, g, i, off, [])
  {
    NothingGrown(d, n, g, i, 0, 0);
    hide Grown;
    assert !LostIn(n[i], off, off);
  }

  /** readi: the clipped slice of the file. Inside an operation holes are filled on the way; outside, the first
      hole panics in log_write if a block is free and cuts the read short if none is. */
  method Readi(f: Files, i: nat, offset: nat, count: nat) returns (out: seq<nat>, panic: bool)
    requires f.Valid() && i < |f.inodes| && offset < UINTS && count < UINTS
    modifies f`disk, f`inodes, f`g
    ensures f.Valid() && NoNewHoles(old(f.disk), old(f.inodes), f.disk, f.inodes)
    ensures Logs(old(f.Now()), f.Now(), f.g.logged, f.inodestart) && old(f.g.logged) <= f.g.logged
    ensures panic <==>
      && f.outstanding == 0 && !NoneFree(old(f.g.role))
      && !HoleFree(old(f.disk), old(f.inodes[i]), offset, offset + Clip(old(f.inodes[i].size), offset, count))
    ensures f.outstanding == 0 ==> f.disk == old(f.disk) && f.inodes == old(f.inodes) && f.g == old(f.g)
    ensures |out| <= Clip(old(f.inodes[i].size), offset, count)
    ensures offset <= old(f.inodes[i].size) ==>
      offset + |out| <= old(f.inodes[i].size) && out == File(old(f.disk), old(f.inodes[i]))[offset..offset + |out|]
    ensures Grown(old(f.disk), old(f.inodes), old(f.g), f.disk, f.inodes, f.g, i)
    ensures |out| == Clip(old(f.inodes[i].size), offset, count) ==>
      Reading(old(f.disk), old(f.inodes), old(f.g), f.disk, f.inodes, f.g, i, offset, out)
    ensures !panic && |out| < Clip(old(f.inodes[i].size), offset, count) ==> NoneFree(f.g.role)
    ensures !panic && !NoneFree(f.g.role) && offset <= old(f.inodes[i].size) && offset + count < UINTS ==>
      |out| == if offset + count <= old(f.inodes[i].size) then count else old(f.inodes[i].size) - offset
    ensures HoleFree(old(f.disk), old(f.inodes[i]), offset, offset + Clip(old(f.inodes[i].size), offset, count)) ==>
      && |out| == Clip(old(f.inodes[i].size), offset, count)
      && f.disk == old(f.disk) && f.inodes == old(f.inodes) && f.g == old(f.g)
    ensures f.inodes == old(f.inodes) <==>
      !Loses(f.outstanding, old(f.g.role), old(f.inodes[i]), offset, Clip(old(f.inodes[i].size), offset, count))
    ensures old(f.DiskOk()) ==>
      (f.DiskOk() <==> !Loses(f.outstanding, old(f.g.role), old(f.inodes[i]), offset, Clip(old(f.inodes[i].size), offset, count)))
  {
    hide StoreOk, Reading, SizesOk, NoneFree, NoneHeld, Ptr, Byte, HoleFree, Grown, LostIn;
    hide Behind, BehindAt, Mountable, ChangesIn, NoNewHoles, Loses;
    var off, n := offset, count;
    ghost var d0, n0, g0 := f.disk, f.inodes, f.g;
    SameSize(d0, f.nmeta, f.bmapstart, g0);
    DiskOkIff(f.disk, f.nmeta, f.bmapstart, f.g, f.dinodes);
    ReadingNothing(d0, n0, g0, i, offset);
    ReadDone(d0, n0, g0, d0, n0, g0, i, offset, [], f.outstanding);
    out, panic := [], false;
    if off > f.inodes[i].size || Add32(off, n) < off {
      return;
    }
    if Add32(off, n) > f.inodes[i].size {
      n := f.inodes[i].size - off;
    }
    out, panic := ReadBlocks(f, i, off, n);
    SliceOfFile(d0, n0[i], offset, out);
    DiskOkIff(f.disk, f.nmeta, f.bmapstart, f.g, f.dinodes);
  }

  /** The loop of readi. */
  method ReadBlocks(f: Files, i: nat, offset: nat, n: nat) returns (out: seq<nat>, panic: bool)
    requires f.Valid() && i < |f.inodes| && offset + n <= f.inodes[i].size
    modifies f`disk, f`inodes, f`g
    ensures f.Valid() && ReadEnd(old(f.disk), old(f.inodes), old(f.g), f.disk, f.inodes, f.g, i, offset, n, out, panic, f.outstanding)
  {
    hide StoreOk, Reading, ReadEnd, Mapped, SizesOk, NoneFree, NoneHeld, Ptr, MustPanic, Behind;
    var off := offset;
    ghost var d0, n0, g0 := f.disk, f.inodes, f.g;
    SameSize(d0, f.nmeta, f.bmapstart, g0);
    ReadingNothing(d0, n0, g0, i, offset);
    out, panic := [], false;
    ReadBound(n0, i, offset, n);
    while |out| < n
      invariant |out| <= n && off == offset + |out| && !panic
      invariant f.Valid() && |f.inodes| == |n0|
      invariant f.outstanding == 0 ==> f.disk == d0 && f.inodes == n0 && f.g == g0
      invariant Reading(d0, n0, g0, f.disk, f.inodes, f.g, i, offset, out)
      decreases n - |out|
    {
      BlockRange(offset, n, |out|);
      ghost var d1, n1, g1 := f.disk, f.inodes, f.g;
      var addr;
      addr, panic := f.Bmap(i, off / BSIZE);
      if panic {
        ReadPanics(d0, n0, g0, d1, n1, g1, i, offset, out, n, f.outstanding);
        return;
      }
      MappedHas(d1, n1, g1, f.disk, f.inodes, f.g, i, off / BSIZE, addr, f.bmapstart);
      if addr == 0 {
        ReadShort(d0, n0, g0, d1, n1, g1, f.disk, f.inodes, f.g, i, offset, out, n, f.bmapstart, f.outstanding);
        return;
      }
      OutsideMapped(d1, n1, g1, f.disk, f.inodes, f.g, i, off / BSIZE, addr, f.bmapstart, f.outstanding);
      var m := if n - |out| < BSIZE - off % BSIZE then n - |out| else BSIZE - off % BSIZE;
      ReadingMore(d0, n0, g0, d1, n1, g1, f.disk, f.inodes, f.g, f.nmeta, i, offset, out, m, addr, f.bmapstart);
      out := out + f.disk[addr][off % BSIZE..off % BSIZE + m];
      off := off + m;
    }
    ReadDone(d0, n0, g0, f.disk, f.inodes, f.g, i, offset, out, f.outstanding);
  }

  /** The outcome of a read of n bytes that lie within the file. */
  ghost predicate ReadEnd(d0: seq<Block>, n0: seq<Inode>, g0: Ghosts, d: seq<Block>, n: seq<Inode>, g: Ghosts, i: nat, off: nat,
                          count: nat, out: seq<nat>, panic: bool, outstanding: nat) {
    && Grown(d0, n0, g0, d, n, g, i) && i < |n0| && NoNewHoles(d0, n0, d, n)
    && g0.logged <= g.logged && ChangesIn(d0, d, g.logged)
    && |out| <= count && (forall k :: 0 <= k < |out| ==> out[k] == Byte(d0, n0[i], off + k))
    && (panic <==> outstanding == 0 && !NoneFree(g0.role) && !HoleFree(d0, n0[i], off, off + count))
    && (outstanding == 0 ==> d == d0 && n == n0 && g == g0)
    && (|out| == count ==> Reading(d0, n0, g0, d, n, g, i, off, out))
    && (!panic && |out| < count ==> NoneFree(g.role))
    && (HoleFree(d0, n0[i], off, off + count) ==> |out| == count && d == d0 && n == n0 && g == g0)
    && (n == n0 <==> !Loses(outstanding, g0.role, n0[i], off, count))
  }

  /** The read gives the file a block that the inode on disk will not have: inside an operation, with a block free,
      it meets a direct hole, or an indirect one without an indirect block. */
  ghost predicate Loses(outstanding: nat, role: seq<Owner>, ino: Inode, off: nat, n: nat) {
    outstanding > 0 && !NoneFree(role) && LostIn(ino, off, off + n)
  }

  lemma OutsideMapped(d0: seq<Block>, n0: seq<Inode>, g0: Ghosts, d: seq<Block>, n: seq<Inode>, g: Ghosts,
                      i: nat, bn: nat, addr: nat, start: nat, outstanding: nat)
    requires Mapped(d0, n0, g0, d, n, g, i, bn, addr, start) && !MustPanic(d0, n0[i], g0, outstanding, bn)
    ensures outstanding == 0 ==> d == d0 && n == n0 && g == g0
  {
  }

  lemma ReadPanics(d0: seq<Block>, n0: seq<Inode>, g0: Ghosts, d: seq<Block>, n: seq<Inode>, g: Ghosts, i: nat, off: nat, out: seq<nat>,
                   count: nat, outstanding: nat)
    requires Reading(d0, n0, g0, d, n, g, i, off, out) && |out| < count
    requires MustPanic(d, n[i], g, outstanding, (off + |out|) / BSIZE) && (outstanding == 0 ==> d == d0 && n == n0 && g == g0)
    ensures ReadEnd(d0, n0, g0, d, n, g, i, off, count, out, true, outstanding)
  {
    hide Ptr;
    HoleAt(d, n[i], off, |out|, count);
  }

  lemma SliceOfFile(d: seq<Block>, ino: Inode, off: nat, out: seq<nat>)
    requires off + |out| <= ino.size && forall k :: 0 <= k < |out| ==> out[k] == Byte(d, ino, off + k)
    ensures out == File(d, ino)[off..off + |out|]
  {
    hide Byte;
    forall k | 0 <= k < |out|
      ensures out[k] == File(d, ino)[off..off + |out|][k]
    {
      assert File(d, ino)[off + k] == Byte(d, ino, off + k);
    }
  }

  lemma ReadBound(n0: seq<Inode>, i: nat, off: nat, n: nat)
    requires SizesOk(n0) && i < |n0| && off + n <= n0[i].size
    ensures off + n <= MAXFILE * BSIZE
  {
  }

  lemma ReadDone(d0: seq<Block>, n0: seq<Inode>, g0: Ghosts, d: seq<Block>, n: seq<Inode>, g: Ghosts, i: nat, off: nat, out: seq<nat>,
                 outstanding: nat)
    requires Reading(d0, n0, g0, d, n, g, i, off, out) && (outstanding == 0 ==> d == d0 && n == n0 && g == g0)
    ensures ReadEnd(d0, n0, g0, d, n, g, i, off, |out|, out, false, outstanding)
  {
    AllSameNoHoles(d0, n0, d, n);
    hide AllSame, Ptr, LostIn, HoleFree;
    if LostIn(n0[i], off, off + |out|) {
      LostHoles(d0, n0[i], off, |out|);
    }
  }

  /** Only a hole on a full disk cuts a read short. */
  lemma ReadShort(d0: seq<Block>, n0: seq<Inode>, g0: Ghosts, d1: seq<Block>, n1: seq<Inode>, g1: Ghosts,
                  d2: seq<Block>, n2: seq<Inode>, g2: Ghosts, i: nat, off: nat, out: seq<nat>, n: nat, start: nat, outstanding: nat)
    requires Reading(d0, n0, g0, d1, n1, g1, i, off, out) && |out| < n
    requires outstanding == 0 ==> d1 == d0 && n1 == n0 && g1 == g0
    requires Mapped(d1, n1, g1, d2, n2, g2, i, (off + |out|) / BSIZE, 0, start)
    requires !MustPanic(d1, n1[i], g1, outstanding, (off + |out|) / BSIZE)
    ensures ReadEnd(d0, n0, g0, d2, n2, g2, i, off, n, out, false, outstanding)
  {
    hide Ptr, ChangesIn, NewlyLogged, LostIn, LostAt, NoneFree, HoleFree, Took;
    var bn := (off + |out|) / BSIZE;
    GrownTrans(d0, n0, g0, d1, n1, g1, d2, n2, g2, i);
    AllSameNoHoles(d0, n0, d2, n2);
    MappedParts(d1, n1, g1, d2, n2, g2, i, bn, 0, start);
    ChangesTrans(d0, d1, d2, g1.logged, g2.logged);
    assert Ptr(d0, n0[i], bn) == 0;
    HoleAt(d0, n0[i], off, |out|, n);
    ShortLoses(d0, n0, g0, d1, n1, g1, d2, n2, g2, i, off, |out|, n, start);
  }

  lemma HoleAt(d: seq<Block>, ino: Inode, off: nat, t: nat, n: nat)
    requires t < n && Ptr(d, ino, (off + t) / BSIZE) == 0
    ensures !HoleFree(d, ino, off, off + n)
  {
    hide Ptr;
    assert off <= off + t < off + n;
  }

  lemma LostHoles(d: seq<Block>, ino: Inode, off: nat, n: nat)
    requires LostIn(ino, off, off + n)
    ensures !HoleFree(d, ino, off, off + n)
  {
    hide Ptr;
    var k: nat :| off <= k < off + n && LostAt(ino, k / BSIZE);
    LostIsHole(d, ino, k / BSIZE);
  }

  /** The first hole of a range decides: if it does not go into the inode, none does. */
  lemma FirstHole(d: seq<Block>, ino: Inode, off: nat, t: nat, n: nat)
    requires t < n && Ptr(d, ino, (off + t) / BSIZE) == 0 && |ino.addrs| == NDIRECT + 1 && !LostIn(ino, off, off + t)
    ensures LostIn(ino, off, off + n) <==> LostAt(ino, (off + t) / BSIZE)
    ensures LostAt(ino, (off + t) / BSIZE) ==> HoleFree(d, ino, off, off + t)
  {
    var bn := (off + t) / BSIZE;
    if LostAt(ino, bn) {
      assert off <= off + t < off + n;
      forall k: nat | off <= k < off + t
        ensures Ptr(d, ino, k / BSIZE) != 0
      {
        assert !LostAt(ino, k / BSIZE);
        if k / BSIZE < NDIRECT {
          DirectPtr(d, ino, k / BSIZE);
        }
      }
    } else {
      forall k: nat | off <= k < off + n
        ensures !LostAt(ino, k / BSIZE)
      {
        if k >= off + t {
          assert bn <= k / BSIZE;
        }
      }
    }
  }

  lemma ShortLoses(d0: seq<Block>, n0: seq<Inode>, g0: Ghosts, d1: seq<Block>, n1: seq<Inode>, g1: Ghosts,
                   d2: seq<Block>, n2: seq<Inode>, g2: Ghosts, i: nat, off: nat, t: nat, n: nat, start: nat)
    requires Grown(d0, n0, g0, d1, n1, g1, i) && t < n && (n1 == n0 <==> !LostIn(n0[i], off, off + t))
    requires if HoleFree(d0, n0[i], off, off + t) then d1 == d0 && n1 == n0 && g1 == g0 else Took(g0.role, g1.role, i)
    requires Mapped(d1, n1, g1, d2, n2, g2, i, (off + t) / BSIZE, 0, start) && Ptr(d0, n0[i], (off + t) / BSIZE) == 0
    ensures n2 == n0 <==> !(!NoneFree(g0.role) && LostIn(n0[i], off, off + n))
  {
    GrownAddrs(d0, n0, g0, d1, n1, g1, i);
    MappedParts(d1, n1, g1, d2, n2, g2, i, (off + t) / BSIZE, 0, start);
    hide Ptr, Grown, NewlyLogged, ChangesIn, HoleFree;
    if LostIn(n0[i], off, off + t) {
      LostHoles(d0, n0[i], off, t);
      var k: nat :| off <= k < off + t && LostAt(n0[i], k / BSIZE);
      GrownDiffers(d0, n0, g0, d1, n1, g1, d2, n2, g2, i);
    } else {
      hide LostAt, LostIn;
      FirstHole(d0, n0[i], off, t, n);
    }
  }

  lemma GrownAddrs(d0: seq<Block>, n0: seq<Inode>, g0: Ghosts, d: seq<Block>, n: seq<Inode>, g: Ghosts, i: nat)
    requires Grown(d0, n0, g0, d, n, g, i)
    ensures i < |n0| == |n| && |n0[i].addrs| == NDIRECT + 1
  {
  }

  // ----- fileread and filewrite -----

  /** fileread of a file, which starts no operation of its own. */
  method Fileread(f: Files, i: nat, offset: nat, n: nat) returns (out: seq<nat>, off: nat, panic: bool)
    requires f.Valid() && i < |f.inodes| && offset < UINTS && n < 0x8000_0000
    modifies f`disk, f`inodes, f`g
    ensures f.Valid() && NoNewHoles(old(f.disk), old(f.inodes), f.disk, f.inodes)
    ensures panic <==>
      && f.outstanding == 0 && !NoneFree(old(f.g.role))
      && !HoleFree(old(f.disk), old(f.inodes[i]), offset, offset + Clip(old(f.inodes[i].size), offset, n))
    ensures off == offset + |out|
    ensures HoleFree(old(f.disk), old(f.inodes[i]), 0, old(f.inodes[i].size)) ==>
      && f.disk == old(f.disk) && f.inodes == old(f.inodes) && f.g == old(f.g)
      && out == var file := File(f.disk, f.inodes[i]);
                if offset >= |file| then [] else if offset + n >= |file| then file[offset..] else file[offset..offset + n]
  {
    hide StoreOk, SizesOk, NoneFree, NoneHeld, Ptr, Byte, Grown, Reading, NoNewHoles, Behind, File;
    ClipsWithin(f.disk, f.inodes[i], offset, n);
    SizeBounded(f.inodes, i);
    FileSize(f.disk, f.inodes[i]);
    hide HoleFree;
    out, panic := Readi(f, i, offset, n);
    off := offset + |out|;
  }

  lemma FileSize(d: seq<Block>, ino: Inode)
    ensures |File(d, ino)| == ino.size
  {
  }

  lemma SizeBounded(n: seq<Inode>, i: nat)
    requires SizesOk(n) && i < |n|
    ensures n[i].size <= MAXFILE * BSIZE
  {
  }

  lemma ClipsWithin(d: seq<Block>, ino: Inode, off: nat, n: nat)
    ensures HoleFree(d, ino, 0, ino.size) ==> HoleFree(d, ino, off, off + Clip(ino.size, off, n))
  {
    hide Ptr;
  }

  /** Bytes written in one transaction. */
  const CHUNK: nat := (MAXOPBLOCKS - 1 - 1 - 2) / 2 * BSIZE

  /** A chunk touches at most four blocks of the file, so with one bitmap block it logs at most seven blocks. */
  lemma ChunkLogs(l: set<nat>, d: seq<Block>, ino: Inode, start: nat, off: nat, n: nat, ib: nat)
    requires NewlyLogged({ib}, l, d, ino, start, off / BSIZE, (off + n + BSIZE - 1) / BSIZE)
    requires n <= CHUNK && |d| <= BPB && |ino.addrs| == NDIRECT + 1
    ensures |l| <= 7 <= MAXOPBLOCKS
  {
    hide Ptr;
    var lo := off / BSIZE;
    var all := {ib, start, ino.addrs[NDIRECT], Ptr(d, ino, lo), Ptr(d, ino, lo + 1), Ptr(d, ino, lo + 2), Ptr(d, ino, lo + 3)};
    forall b | b in l
      ensures b in all
    {
      if b != ib {
        assert MayLog(d, ino, start, lo, (off + n + BSIZE - 1) / BSIZE, b);
        if IsPtr(d, ino, lo, (off + n + BSIZE - 1) / BSIZE, b) {
          var bn: nat :| lo <= bn < (off + n + BSIZE - 1) / BSIZE && Ptr(d, ino, bn) == b;
          assert bn == lo || bn == lo + 1 || bn == lo + 2 || bn == lo + 3;
        }
      }
    }
    SubsetCount(l, all);
    SevenAtMost(ib, start, ino.addrs[NDIRECT], Ptr(d, ino, lo), Ptr(d, ino, lo + 1), Ptr(d, ino, lo + 2), Ptr(d, ino, lo + 3));
  }

  lemma SevenAtMost(a: nat, b: nat, c: nat, d: nat, e: nat, f: nat, g: nat)
    ensures |{a, b, c, d, e, f, g}| <= 7
  {
    var s := {a, b, c, d};
    assert {a, b, c, d, e, f, g} == s + {e} + {f} + {g};
  }

  lemma NewTransaction(d: seq<Block>, nmeta: nat, start: nat, g: Ghosts)
    requires StoreOk(d, nmeta, start, g)
    ensures StoreOk(d, nmeta, start, g.(logged := {}))
  {
  }

  lemma WroteTwice(d0: seq<Block>, ino0: Inode, d1: seq<Block>, ino1: Inode, d2: seq<Block>, ino2: Inode,
                   off: nat, t: nat, m: nat, data: seq<nat>, n: nat)
    requires t <= n <= |data| && m <= n - t
    requires Wrote(d0, ino0, d1, ino1, off, t, data) && Wrote(d1, ino1, d2, ino2, off + t, m, data[t..n])
    ensures Wrote(d0, ino0, d2, ino2, off, t + m, data)
  {
    hide Byte;
  }

  /** One transaction: the disk before and after, and the blocks it logged. */
  datatype Op = Op(before: Snap, after: Snap, logged: set<nat>)

  /** The transactions lead from a to b, and each logged every block it changed. */
  ghost predicate Transactions(ops: seq<Op>, a: Snap, b: Snap, inodestart: nat) {
    && (if ops == [] then a == b else ops[0].before == a && ops[|ops| - 1].after == b)
    && (forall k :: 0 < k < |ops| ==> ops[k - 1].after == ops[k].before)
    && forall k :: 0 <= k < |ops| ==> Logs(ops[k].before, ops[k].after, ops[k].logged, inodestart)
  }

  lemma OneMore(ops: seq<Op>, a: Snap, b: Snap, c: Snap, l: set<nat>, inodestart: nat)
    requires Transactions(ops, a, b, inodestart) && Logs(b, c, l, inodestart)
    ensures Transactions(ops + [Op(b, c, l)], a, c, inodestart)
  {
    hide Logs;
  }

  /** The blocks are the inode block, or bitmap and data blocks. */
  ghost predicate InPlace(l: set<nat>, ib: nat, start: nat, size: nat) {
    forall b :: b in l ==> b == ib || start <= b < size
  }

  lemma LoggedPlace(l: set<nat>, d: seq<Block>, nmeta: nat, start: nat, g: Ghosts, i: nat, lo: nat, hi: nat, ib: nat)
    requires StoreOk(d, nmeta, start, g) && i < |g.view| && NewlyLogged({} + {ib}, l, d, g.view[i], start, lo, hi)
    ensures InPlace(l, ib, start, |d|)
  {
    hide Ptr, StoreOk, IsMap, IsPtr;
    forall b | b in l && b != ib
      ensures start <= b < |d|
    {
      assert MayLog(d, g.view[i], start, lo, hi, b);
      MayLogPlace(d, nmeta, start, g, i, lo, hi, b);
    }
  }

  /** Bitmap blocks are metadata; a file's blocks are not. */
  lemma MayLogPlace(d: seq<Block>, nmeta: nat, start: nat, g: Ghosts, i: nat, lo: nat, hi: nat, b: nat)
    requires StoreOk(d, nmeta, start, g) && i < |g.view| && MayLog(d, g.view[i], start, lo, hi, b)
    ensures start <= b < |d|
  {
    SameSize(d, nmeta, start, g);
    assert start + 0 / BPB < nmeta;
    assert InodeOk(d, g.role, i, g.view[i]);
    hide Ptr, StoreOk, OwnerOk;
    if IsPtr(d, g.view[i], lo, hi, b) {
      var bn: nat :| lo <= bn < hi && Ptr(d, g.view[i], bn) == b;
      assert PtrOk(d, g.role, i, g.view[i], bn);
    } else if IsMap(b, start, |d|) {
      var p: nat :| p < |d| && b == start + p / BPB;
      assert start + p / BPB < nmeta;
    }
  }

  /** One transaction of filewrite: begin_op, writei, end_op. */
  method WriteChunk(f: Files, i: nat, src: seq<nat>, offset: nat) returns (r: int, ghost op: Op)
    requires f.Valid() && i < |f.inodes| && offset < UINTS && |src| <= CHUNK
    modifies f
    ensures f.Valid() && |f.inodes| == |old(f.inodes)| && |f.disk| == |old(f.disk)| && f.outstanding == old(f.outstanding)
    ensures op.before == old(f.Now()) && op.after == f.Now() && Logs(op.before, op.after, op.logged, f.inodestart)
    ensures |f.disk| <= BPB ==> |op.logged| <= 7
    ensures InPlace(op.logged, f.inodestart + i / IPB, f.bmapstart, |f.disk|)
    ensures NoNewHoles(old(f.disk), old(f.inodes), f.disk, f.inodes) && (old(f.DiskOk()) ==> f.DiskOk())
    ensures r == -1 <==> offset > old(f.inodes[i].size) || offset + |src| > MAXFILE * BSIZE
    ensures r == -1 ==> f.disk == old(f.disk) && f.inodes == old(f.inodes)
    ensures r != -1 ==>
      && 0 <= r <= |src| && (r < |src| ==> NoneFree(f.g.role))
      && OthersSame(old(f.disk), old(f.inodes), f.disk, f.inodes, i)
      && Wrote(old(f.disk), old(f.inodes[i]), f.disk, f.inodes[i], offset, r, src)
      && HoleFree(f.disk, f.inodes[i], offset, offset + r) && PtrsStay(old(f.disk), old(f.inodes[i]), f.disk, f.inodes[i])
      && f.inodes[i].size == if offset + r > old(f.inodes[i].size) then offset + r else old(f.inodes[i].size)
  {
    hide StoreOk, SizesOk, NewlyLogged, Wrote, OthersSame, NoneFree, NoneHeld, Ptr, Byte;
    hide Behind, BehindAt, Mountable, Logs, HoleFree, NoNewHoles, PtrsStay;
    ghost var s0 := f.Now();
    NewTransaction(f.disk, f.nmeta, f.bmapstart, f.g);
    f.g := f.g.(logged := {});
    f.outstanding := f.outstanding + 1;
    r := Writei(f, i, src, offset);
    f.outstanding := f.outstanding - 1;
    op := Op(s0, f.Now(), f.g.logged);
    if r != -1 {
      LoggedPlace(f.g.logged, f.disk, f.nmeta, f.bmapstart, f.g, i, offset / BSIZE, (offset + |src| + BSIZE - 1) / BSIZE,
                  f.inodestart + i / IPB);
    }
    if r != -1 && |f.disk| <= BPB {
      SameSize(f.disk, f.nmeta, f.bmapstart, f.g);
      assert {} + {f.inodestart + i / IPB} == {f.inodestart + i / IPB};
      ChunkLogs(f.g.logged, f.disk, f.inodes[i], f.bmapstart, offset, |src|, f.inodestart + i / IPB);
    }
  }

  /** One transaction that truncates a file: begin_op, itrunc, end_op. It logs the file's inode block and bitmap
      blocks. */
  method TruncOp(f: Files, i: nat) returns (ghost op: Op)
    requires f.Valid() && i < |f.inodes|
    modifies f
    ensures f.Valid() && |f.inodes| == |old(f.inodes)| && f.outstanding == old(f.outstanding)
    ensures op.before == old(f.Now()) && op.after == f.Now() && Logs(op.before, op.after, op.logged, f.inodestart)
    ensures InPlace(op.logged, f.inodestart + i / IPB, f.bmapstart, |f.disk|)
    ensures |f.disk| <= BPB ==> |op.logged| <= 2
    ensures f.inodes == old(f.inodes)[i := EMPTY] && f.dinodes == old(f.dinodes)[i := EMPTY]
    ensures OthersSame(old(f.disk), old(f.inodes), f.disk, f.inodes, i) && (old(f.DiskOk()) ==> f.DiskOk())
  {
    hide StoreOk, SizesOk, OthersSame, NoneHeld, Behind, Mountable, Logs, NoNewHoles, Truncated, FreeLogs, InPlace;
    ghost var s0 := f.Now();
    NewTransaction(f.disk, f.nmeta, f.bmapstart, f.g);
    f.g := f.g.(logged := {});
    f.outstanding := f.outstanding + 1;
    ghost var d0 := f.disk;
    f.Itrunc(i);
    f.outstanding := f.outstanding - 1;
    op := Op(s0, f.Now(), f.g.logged);
    FreedPlace(d0, f.g.logged, f.disk, f.nmeta, f.bmapstart, f.g, f.inodestart + i / IPB);
  }

  lemma FreedPlace(d0: seq<Block>, l: set<nat>, d: seq<Block>, nmeta: nat, start: nat, g: Ghosts, ib: nat)
    requires StoreOk(d, nmeta, start, g) && FreeLogs(d0, {} + {ib}, d, l, start)
    ensures InPlace(l, ib, start, |d|)
    ensures |d| <= BPB ==> |l| <= 2
  {
    SameSize(d, nmeta, start, g);
    assert MapInMeta(start, nmeta, |d|);
    hide StoreOk, ChangesIn;
    forall b | b in l && b != ib
      ensures start <= b < |d| && (|d| <= BPB ==> b == start)
    {
      assert IsMap(b, start, |d|);
      var p: nat :| p < |d| && b == start + p / BPB;
      assert start + p / BPB < nmeta;
    }
    if |d| <= BPB {
      SubsetCount(l, {ib, start});
    }
  }

  /** filewrite to a file: the offset advances by what was written, and every transaction fits its reservation. */
  method Filewrite(f: Files, i: nat, data: seq<nat>, offset: nat) returns (ret: int, off: nat, ghost ops: seq<Op>)
    requires f.Valid() && i < |f.inodes| && offset < UINTS && |data| < 0x8000_0000
    modifies f
    ensures f.outstanding == old(f.outstanding) && NoNewHoles(old(f.disk), old(f.inodes), f.disk, f.inodes)
    ensures HoleFree(f.disk, f.inodes[i], offset, off)
    ensures Transactions(ops, old(f.Now()), f.Now(), f.inodestart)
    ensures old(f.DiskOk()) ==> forall k :: 0 <= k < |ops| ==> Mountable(ops[k].after.disk, f.nmeta, f.bmapstart, ops[k].after.dinodes)
    ensures f.Valid() && |f.inodes| == |old(f.inodes)|
    ensures offset <= off <= offset + |data| && ret == if off - offset == |data| then |data| else -1
    ensures OthersSame(old(f.disk), old(f.inodes), f.disk, f.inodes, i)
    ensures Wrote(old(f.disk), old(f.inodes[i]), f.disk, f.inodes[i], offset, off - offset, data)
    ensures off > offset ==>
      f.inodes[i].size == if off > old(f.inodes[i].size) then off else old(f.inodes[i].size)
    ensures ret == -1 ==>
      || NoneFree(f.g.role) || offset > old(f.inodes[i].size)
      || off + (if |data| - (off - offset) < CHUNK then |data| - (off - offset) else CHUNK) > MAXFILE * BSIZE
    ensures |f.disk| <= BPB ==> forall k :: 0 <= k < |ops| ==> |ops[k].logged| <= 7
    ensures forall k :: 0 <= k < |ops| ==> InPlace(ops[k].logged, f.inodestart + i / IPB, f.bmapstart, |f.disk|)
  {
    hide StoreOk, SizesOk, NewlyLogged, Wrote, OthersSame, NoneFree, NoneHeld, Ptr, Byte;
    hide Behind, BehindAt, Mountable, Logs, HoleFree, NoNewHoles, PtrsStay, Transactions, InPlace;
    ghost var d0, n0, s0 := f.disk, f.inodes, f.Now();
    NothingWritten(d0, n0, i, offset, data, s0, f.inodestart);
    var n := |data|;
    var k := 0;
    off := offset;
    ops := [];
    while k < n
      invariant 0 <= k <= n && off == offset + k && f.Valid() && |f.inodes| == |n0| && f.outstanding == old(f.outstanding)
      invariant OthersSame(d0, n0, f.disk, f.inodes, i) && Wrote(d0, n0[i], f.disk, f.inodes[i], offset, k, data)
      invariant f.inodes[i].size == if k > 0 && off > n0[i].size then off else n0[i].size
      invariant k > 0 ==> offset <= n0[i].size && off < UINTS
      invariant |f.disk| == |d0| && (|d0| <= BPB ==> forall k :: 0 <= k < |ops| ==> |ops[k].logged| <= 7)
      invariant NoNewHoles(d0, n0, f.disk, f.inodes) && HoleFree(f.disk, f.inodes[i], offset, off)
      invariant Transactions(ops, s0, f.Now(), f.inodestart)
      invariant forall k :: 0 <= k < |ops| ==> InPlace(ops[k].logged, f.inodestart + i / IPB, f.bmapstart, |f.disk|)
      invariant old(f.DiskOk()) ==>
        f.DiskOk() && forall k :: 0 <= k < |ops| ==> Mountable(ops[k].after.disk, f.nmeta, f.bmapstart, ops[k].after.dinodes)
    {
      var n1 := if n - k > CHUNK then CHUNK else n - k;
      ghost var d1, n2, s1 := f.disk, f.inodes, f.Now();
      var r;
      ghost var op;
      r, op := WriteChunk(f, i, data[k..k + n1], off);
      OneMore(ops, s0, s1, f.Now(), op.logged, f.inodestart);
      ops := ops + [op];
      NoNewHolesTrans(d0, n0, d1, n2, f.disk, f.inodes);
      if r >= 0 {
        OthersSameTrans(d0, n0, d1, n2, f.disk, f.inodes, i);
        WroteTwice(d0, n0[i], d1, n2[i], f.disk, f.inodes[i], offset, k, r, data, k + n1);
        HoleFreeOn(d1, n2[i], f.disk, f.inodes[i], offset, off, r);
        off := off + r;
      }
      if r != n1 {
        break;
      }
      k := k + r;
    }
    ret := if k == n then n else -1;
  }

  lemma NothingWritten(d: seq<Block>, n: seq<Inode>, i: nat, off: nat, data: seq<nat>, s: Snap, inodestart: nat)
    requires i < |n|
    ensures OthersSame(d, n, d, n, i) && Wrote(d, n[i], d, n[i], off, 0, data) && HoleFree(d, n[i], off, off)
    ensures NoNewHoles(d, n, d, n) && Transactions([], s, s, inodestart)
  {
  }

  lemma NoNewHolesTrans(d0: seq<Block>, n0: seq<Inode>, d1: seq<Block>, n1: seq<Inode>, d2: seq<Block>, n2: seq<Inode>)
    requires NoNewHoles(d0, n0, d1, n1) && NoNewHoles(d1, n1, d2, n2)
    ensures NoNewHoles(d0, n0, d2, n2)
  {
    hide HoleFree;
  }

  lemma HoleFreeOn(d1: seq<Block>, ino1: Inode, d2: seq<Block>, ino2: Inode, lo: nat, hi: nat, t: nat)
    requires HoleFree(d1, ino1, lo, hi) && PtrsStay(d1, ino1, d2, ino2) && HoleFree(d2, ino2, hi, hi + t)
    ensures HoleFree(d2, ino2, lo, hi + t)
  {
    hide Ptr;
    forall k: nat | lo <= k < hi + t
      ensures Ptr(d2, ino2, k / BSIZE) != 0
    {
      if k < hi {
        assert Ptr(d1, ino1, k / BSIZE) != 0;
      }
    }
  }
}
