/** Block allocation and file contents of kernel/fs.c. */
module Inodes {
  import opened InodeMap
  import opened Bitmap

  /** Inodes per block. */
  const IPB := 16

  /** Owner of each block, the files the blocks are part of, and the blocks passed to log_write. */
  datatype Ghosts = Ghosts(role: seq<Owner>, view: seq<Inode>, logged: set<nat>)

  /** x + y in 32-bit unsigned arithmetic. */
  function Add32(x: nat, y: nat): nat {
    (x + y) % UINTS
  }

  // ----- The allocator -----

  ghost predicate StoreOk(disk: seq<Block>, nmeta: nat, start: nat, g: Ghosts) {
    TreeOk(disk, nmeta, g.view, g.role) && BitmapOk(disk, start, g.role) && MapInMeta(start, nmeta, |disk|)
  }

  ghost function WithRole(g: Ghosts, p: nat, o: Owner, logged: set<nat>): Ghosts
    requires p < |g.role|
  {
    Ghosts(g.role[p := o], g.view, g.logged + logged)
  }

  ghost predicate NoneFree(role: seq<Owner>) {
    forall p :: 0 <= p < |role| ==> role[p] != Unused
  }

  /** Every block that differs is in l. */
  ghost predicate ChangesIn(d0: seq<Block>, d: seq<Block>, l: set<nat>) {
    |d| == |d0| && forall p :: 0 <= p < |d| && d[p] != d0[p] ==> p in l
  }

  lemma ChangesTrans(d0: seq<Block>, d1: seq<Block>, d2: seq<Block>, l1: set<nat>, l2: set<nat>)
    requires ChangesIn(d0, d1, l1) && ChangesIn(d1, d2, l2) && l1 <= l2
    ensures ChangesIn(d0, d2, l2)
  {
  }

  /** Block r is now zeroed and held; only it and its bitmap block changed, and both are logged. */
  ghost predicate Allocated(disk: seq<Block>, g: Ghosts, disk': seq<Block>, g': Ghosts, r: nat, start: nat) {
    && r < |g.role| == |disk| == |disk'| && g.role[r] == Unused && (forall p :: 0 <= p < r ==> g.role[p] != Unused)
    && g' == WithRole(g, r, Held, {start + r / BPB, r})
    && IsZero(disk'[r])
    && (forall p :: 0 <= p < |disk| && p != r && p != start + r / BPB ==> disk'[p] == disk[p])
    && forall p :: 0 <= p < |disk| && p != r && g.role[p] != Meta ==> disk'[p] == disk[p]
  }

  lemma AllocKeeps(disk: seq<Block>, nmeta: nat, start: nat, g: Ghosts, p: nat)
    requires StoreOk(disk, nmeta, start, g) && p < |g.role| && g.role[p] == Unused
    ensures p < |disk| && start + p / BPB < |disk| && |disk[start + p / BPB]| == BSIZE && p % BPB / 8 < BSIZE
    ensures
      var t, k := start + p / BPB, p % BPB / 8;
      var disk' := PutByte(disk, t, k, SetBit(disk[t][k], p % BPB % 8))[p := ZEROBLOCK];
      && StoreOk(disk', nmeta, start, WithRole(g, p, Held, {t, p}))
      && AllSame(disk, g.view, disk', g.view)
      && (forall q :: 0 <= q < |disk| && q != p && g.role[q] != Meta ==> disk'[q] == disk[q])
  {
    var t, k := start + p / BPB, p % BPB / 8;
    assert Shape(disk, nmeta, g.role);
    var disk1 := PutByte(disk, t, k, SetBit(disk[t][k], p % BPB % 8));
    var disk' := disk1[p := ZEROBLOCK];
    MarkOne(disk, start, p);
    hide SetBit, Bit, Marked;
    SameMarks(disk1, disk', start, nmeta);
    OutsideChange(disk, nmeta, g.view, g.role, disk', g.role[p := Held]);
  }

  lemma SameMarks(disk: seq<Block>, disk': seq<Block>, start: nat, nmeta: nat)
    requires MapInMeta(start, nmeta, |disk|) && nmeta <= |disk| == |disk'|
    requires forall q :: 0 <= q < nmeta ==> disk'[q] == disk[q]
    ensures forall q: nat :: q < |disk| ==> (Marked(disk', start, q) <==> Marked(disk, start, q))
  {
    hide Bit;
  }

  lemma FreeKeeps(disk: seq<Block>, nmeta: nat, start: nat, g: Ghosts, p: nat)
    requires StoreOk(disk, nmeta, start, g) && p < |g.role| && g.role[p] == Held
    ensures p < |disk| && start + p / BPB < |disk| && |disk[start + p / BPB]| == BSIZE && p % BPB / 8 < BSIZE
    ensures Bit(disk[start + p / BPB][p % BPB / 8], p % BPB % 8)
    ensures
      var t, k := start + p / BPB, p % BPB / 8;
      var disk' := PutByte(disk, t, k, ClearBit(disk[t][k], p % BPB % 8));
      && StoreOk(disk', nmeta, start, WithRole(g, p, Unused, {t}))
      && AllSame(disk, g.view, disk', g.view)
      && (forall q :: 0 <= q < |disk| && g.role[q] != Meta ==> disk'[q] == disk[q])
  {
    var t, k := start + p / BPB, p % BPB / 8;
    assert Shape(disk, nmeta, g.role);
    var disk' := PutByte(disk, t, k, ClearBit(disk[t][k], p % BPB % 8));
    ClearOne(disk, start, p);
    assert Marked(disk, start, p);
    hide ClearBit;
    OutsideChange(disk, nmeta, g.view, g.role, disk', g.role[p := Unused]);
  }

  /** The bit the scan looks at is the bit of the block it stands for. */
  lemma ScanPlace(b: nat, bi: nat)
    requires b % BPB == 0 && bi < BPB
    ensures (b + bi) / BPB == b / BPB && (b + bi) % BPB == bi
  {
  }

  lemma BitTells(disk: seq<Block>, nmeta: nat, start: nat, g: Ghosts, p: nat)
    requires StoreOk(disk, nmeta, start, g) && p < |disk|
    ensures start + p / BPB < |disk| && |disk[start + p / BPB]| == BSIZE && p % BPB / 8 < BSIZE && |g.role| == |disk|
    ensures Bit(disk[start + p / BPB][p % BPB / 8], p % BPB % 8) <==> g.role[p] != Unused
    ensures g.role[p] == Unused ==> p != 0
  {
    assert Shape(disk, nmeta, g.role);
    assert Marked(disk, start, p) <==> Bit(disk[start + p / BPB][p % BPB / 8], p % BPB % 8);
  }

  /** Between operations every block in use is metadata or part of a file. */
  ghost predicate NoneHeld(role: seq<Owner>) {
    forall p :: 0 <= p < |role| ==> role[p] != Held
  }

  /** No file is longer than its inode can map. */
  ghost predicate SizesOk(inodes: seq<Inode>) {
    forall i :: 0 <= i < |inodes| ==> inodes[i].size <= MAXFILE * BSIZE
  }

  /** An inode block's copy of an inode; blocks the file got since may be missing in it. */
  ghost predicate BehindAt(dino: Inode, ino: Inode) {
    && dino.size == ino.size && |dino.addrs| == |ino.addrs| == NDIRECT + 1
    && forall k :: 0 <= k <= NDIRECT && dino.addrs[k] != 0 ==> ino.addrs[k] == dino.addrs[k]
  }

  ghost predicate Behind(dinodes: seq<Inode>, inodes: seq<Inode>) {
    |dinodes| == |inodes| && forall j :: 0 <= j < |inodes| ==> BehindAt(dinodes[j], inodes[j])
  }

  /** What is on disk, as the log presents it: the blocks, and the inodes in the inode blocks. */
  datatype Snap = Snap(disk: seq<Block>, dinodes: seq<Inode>)

  /** Every block in which the two differ was logged. */
  ghost predicate Logs(a: Snap, b: Snap, l: set<nat>, inodestart: nat) {
    && ChangesIn(a.disk, b.disk, l) && |b.dinodes| == |a.dinodes|
    && forall j :: 0 <= j < |a.dinodes| && b.dinodes[j] != a.dinodes[j] ==> inodestart + j / IPB in l
  }

  /** The disk by itself, with the inodes in its inode blocks, is a consistent file system. */
  ghost predicate Mountable(disk: seq<Block>, nmeta: nat, start: nat, dinodes: seq<Inode>) {
    SizesOk(dinodes) && exists role :: StoreOk(disk, nmeta, start, Ghosts(role, dinodes, {})) && NoneHeld(role)
  }

  // ----- The file layer -----

  class Files {
    const nmeta: nat
    const bmapstart: nat
    const inodestart: nat
    var disk: seq<Block>
    /** In-memory inodes. */
    var inodes: seq<Inode>
    /** Their copies in the inode blocks. */
    var dinodes: seq<Inode>
    /** Operations between begin_op and end_op; log_write panics when there are none. */
    var outstanding: nat
    ghost var g: Ghosts

    /** The block store is consistent; while a file is being taken apart, `g.view` no longer has its blocks. */
    ghost predicate Core()
      reads this
    {
      StoreOk(disk, nmeta, bmapstart, g)
    }

    ghost predicate Valid()
      reads this
    {
      Core() && g.view == inodes && Behind(dinodes, inodes) && SizesOk(inodes) && NoneHeld(g.role)
    }

    /** Valid but for the inode block of file i. */
    ghost predicate ValidBut(i: nat)
      reads this
    {
      && Core() && g.view == inodes && |dinodes| == |inodes| && SizesOk(inodes) && NoneHeld(g.role)
      && forall j :: 0 <= j < |inodes| && j != i ==> BehindAt(dinodes[j], inodes[j])
    }

    ghost function Now(): Snap
      reads this
    {
      Snap(disk, dinodes)
    }

    /** What a crash would leave, once the log is installed, is consistent. */
    ghost predicate DiskOk()
      reads this
    {
      Mountable(disk, nmeta, bmapstart, dinodes)
    }

    /** Mounting a consistent disk. */
    constructor (nmeta: nat, bmapstart: nat, inodestart: nat, disk: seq<Block>, inodes: seq<Inode>, ghost role: seq<Owner>)
      requires StoreOk(disk, nmeta, bmapstart, Ghosts(role, inodes, {})) && SizesOk(inodes) && NoneHeld(role)
      ensures Valid() && this.nmeta == nmeta && this.bmapstart == bmapstart && this.inodestart == inodestart
      ensures this.disk == disk && this.inodes == inodes && dinodes == inodes && g == Ghosts(role, inodes, {}) && outstanding == 0
      ensures DiskOk()
    {
      SameSize(disk, nmeta, bmapstart, Ghosts(role, inodes, {}));
      hide StoreOk;
      this.nmeta, this.bmapstart, this.inodestart := nmeta, bmapstart, inodestart;
      this.disk, this.inodes, this.dinodes, outstanding := disk, inodes, inodes, 0;
      g := Ghosts(role, inodes, {});
    }

    /** The bit of a free block is set and the block is zeroed. */
    method MarkAndZero(t: nat, k: nat, bit: nat, b: nat)
      requires Core() && b < |g.role| && g.role[b] == Unused && t == bmapstart + b / BPB && k == b % BPB / 8 && bit == b % BPB % 8
      requires outstanding > 0 && forall p :: 0 <= p < b ==> g.role[p] != Unused
      modifies this`disk, this`g
      ensures Core() && AllSame(old(disk), g.view, disk, g.view) && Allocated(old(disk), old(g), disk, g, b, bmapstart)
      ensures ChangesIn(old(disk), disk, g.logged)
    {
      hide StoreOk, AllSame, SetBit, Bit;
      SameSize(disk, nmeta, bmapstart, g);
      AllocKeeps(disk, nmeta, bmapstart, g, b);
      disk := PutByte(disk, t, k, SetBit(disk[t][k], bit))[b := ZEROBLOCK];
      g := WithRole(g, b, Held, {t, b});
    }

    /** balloc: the first free block, marked and zeroed; 0 if there is none. With no operation active, logging the
        bitmap block panics. */
    method Balloc() returns (r: nat, panic: bool)
      requires Core()
      modifies this`disk, this`g
      ensures Core() && AllSame(old(disk), g.view, disk, g.view) && ChangesIn(old(disk), disk, g.logged)
      ensures panic <==> outstanding == 0 && !NoneFree(old(g.role))
      ensures panic || r == 0 ==> disk == old(disk) && g == old(g)
      ensures !panic && r == 0 ==> NoneFree(g.role)
      ensures !panic && r != 0 ==> Allocated(old(disk), old(g), disk, g, r, bmapstart)
    {
      hide StoreOk, AllSame, SetBit, Bit, Allocated;
      AllSameRefl(disk, g.view);
      SameSize(disk, nmeta, bmapstart, g);
      var b := 0;
      while b < |disk|
        invariant b % BPB == 0 && disk == old(disk) && g == old(g)
        invariant forall p :: 0 <= p < |disk| && p < b ==> g.role[p] != Unused
      {
        var bi := 0;
        while bi < BPB && b + bi < |disk|
          invariant 0 <= bi <= BPB && disk == old(disk) && g == old(g)
          invariant forall p :: 0 <= p < |disk| && p < b + bi ==> g.role[p] != Unused
        {
          ScanPlace(b, bi);
          BitTells(disk, nmeta, bmapstart, g, b + bi);
          var t, k := bmapstart + b / BPB, bi / 8;
          if !Bit(disk[t][k], bi % 8) {
            if outstanding == 0 {
              return 0, true;
            }
            MarkAndZero(t, k, bi % 8, b + bi);
            return b + bi, false;
          }
          bi := bi + 1;
        }
        b := b + BPB;
      }
      r, panic := 0, false;
    }

    /** bfree; a block whose bit is clear would panic. */
    method Bfree(b: nat)
      requires Core() && b < |g.role| && g.role[b] == Held && outstanding > 0
      modifies this`disk, this`g
      ensures Core() && AllSame(old(disk), g.view, disk, g.view)
      ensures g == WithRole(old(g), b, Unused, {bmapstart + b / BPB})
      ensures |disk| == |old(disk)| == |g.role|
      ensures forall q :: 0 <= q < |disk| && g.role[q] != Meta ==> disk[q] == old(disk)[q]
      ensures ChangesIn(old(disk), disk, g.logged)
    {
      hide StoreOk, AllSame, ClearBit;
      SameSize(disk, nmeta, bmapstart, g);
      FreeKeeps(disk, nmeta, bmapstart, g, b);
      var t, bi := bmapstart + b / BPB, b % BPB;
      if !Bit(disk[t][bi / 8], bi % 8) {
        assert false;
      }
      disk := PutByte(disk, t, bi / 8, ClearBit(disk[t][bi / 8], bi % 8));
      g := WithRole(g, b, Unused, {t});
    }

    /** bmap for a direct block. */
    method BmapDirect(i: nat, bn: nat) returns (addr: nat, panic: bool)
      requires Valid() && i < |inodes| && bn < NDIRECT
      modifies this`disk, this`inodes, this`g
      ensures Valid() && (panic <==> MustPanic(old(disk), old(inodes[i]), old(g), outstanding, bn))
      ensures panic ==> disk == old(disk) && inodes == old(inodes) && g == old(g)
      ensures !panic ==> Mapped(old(disk), old(inodes), old(g), disk, inodes, g, i, bn, addr, bmapstart)
    {
      hide StoreOk, Grown, AllSame, NewlyLogged, Ptr, Allocated, NoneFree, NoneHeld;
      SameSize(disk, nmeta, bmapstart, g);
      DirectPtr(disk, inodes[i], bn);
      NothingGrown(disk, inodes, g, i, bn, bmapstart);
      addr, panic := inodes[i].addrs[bn], false;
      if addr == 0 {
        addr, panic := Balloc();
        if panic || addr == 0 {
          return;
        }
        FillDirect(old(disk), old(g), disk, g, nmeta, bmapstart, i, bn, addr);
        inodes := SetAddr(inodes, i, bn, addr);
        g := Ghosts(g.role[addr := Data(i, bn)], inodes, g.logged);
        GrownRest(old(disk), old(inodes), old(g), disk, inodes, g, i, dinodes);
      }
    }

    /** bmap's indirect block, allocated if need be. */
    method IndirectBlock(i: nat, ghost bn: nat) returns (addr: nat, panic: bool)
      requires Valid() && i < |inodes|
      modifies this`disk, this`inodes, this`g
      ensures Valid() && Grown(old(disk), old(inodes), old(g), disk, inodes, g, i) && ChangesIn(old(disk), disk, g.logged)
      ensures NewlyLogged(old(g.logged), g.logged, disk, inodes[i], bmapstart, bn, bn)
      ensures |inodes| == |old(inodes)| && |old(inodes[i].addrs)| == |inodes[i].addrs| == NDIRECT + 1
      ensures panic <==> outstanding == 0 && old(inodes[i].addrs)[NDIRECT] == 0 && !NoneFree(old(g.role))
      ensures !panic ==> addr == inodes[i].addrs[NDIRECT]
      ensures !panic ==> (addr == 0 <==> old(inodes[i].addrs)[NDIRECT] == 0 && NoneFree(old(g.role)))
      ensures panic || addr == 0 || old(inodes[i].addrs)[NDIRECT] != 0 ==> disk == old(disk) && inodes == old(inodes) && g == old(g)
      ensures forall n: nat :: Ptr(disk, inodes[i], n) == Ptr(old(disk), old(inodes[i]), n)
    {
      hide StoreOk, Grown, AllSame, NewlyLogged, Ptr, Allocated, NoneFree, NoneHeld;
      SameSize(disk, nmeta, bmapstart, g);
      NothingGrown(disk, inodes, g, i, bn, bmapstart);
      addr, panic := inodes[i].addrs[NDIRECT], false;
      if addr == 0 {
        addr, panic := Balloc();
        if panic || addr == 0 {
          return;
        }
        FreeBefore(old(disk), old(g), disk, g, addr, bmapstart);
        FillIndirect(old(disk), old(g), disk, g, nmeta, bmapstart, i, bn, addr);
        inodes := SetAddr(inodes, i, NDIRECT, addr);
        g := Ghosts(g.role[addr := Indirect(i)], inodes, g.logged);
        GrownRest(old(disk), old(inodes), old(g), disk, inodes, g, i, dinodes);
      }
    }

    /** bmap for an entry of the indirect block t. */
    method BmapEntry(i: nat, j: nat, t: nat) returns (addr: nat, panic: bool)
      requires Valid() && i < |inodes| && j < NINDIRECT && |inodes[i].addrs| == NDIRECT + 1
      requires t == inodes[i].addrs[NDIRECT] != 0
      modifies this`disk, this`inodes, this`g
      ensures Valid() && (panic <==> MustPanic(old(disk), old(inodes[i]), old(g), outstanding, NDIRECT + j))
      ensures panic ==> disk == old(disk) && inodes == old(inodes) && g == old(g)
      ensures !panic ==> Mapped(old(disk), old(inodes), old(g), disk, inodes, g, i, NDIRECT + j, addr, bmapstart)
    {
      hide StoreOk, Grown, AllSame, NewlyLogged, Ptr, Allocated, NoneFree, NoneHeld, Word, PutWord;
      SameSize(disk, nmeta, bmapstart, g);
      EntryPtr(disk, nmeta, bmapstart, g, i, j);
      NothingGrown(disk, inodes, g, i, NDIRECT + j, bmapstart);
      addr, panic := Word(disk[t], j), false;
      if addr == 0 {
        addr, panic := Balloc();
        if panic || addr == 0 {
          return;
        }
        FillEntry(old(disk), old(g), disk, g, nmeta, bmapstart, i, j, addr);
        disk := disk[t := PutWord(disk[t], j, addr)];
        g := Ghosts(g.role[addr := Data(i, NDIRECT + j)], inodes, g.logged + {t});
        GrownRest(old(disk), old(inodes), old(g), disk, inodes, g, i, dinodes);
      }
    }

    /** bmap: the disk block of block bn, allocated if need be; 0 if the disk is full. No file's bytes change.
        It panics exactly when it has to allocate a block outside an operation and finds one. */
    method Bmap(i: nat, bn: nat) returns (addr: nat, panic: bool)
      requires Valid() && i < |inodes| && bn < MAXFILE
      modifies this`disk, this`inodes, this`g
      ensures Valid() && (panic <==> MustPanic(old(disk), old(inodes[i]), old(g), outstanding, bn))
      ensures panic ==> disk == old(disk) && inodes == old(inodes) && g == old(g)
      ensures !panic ==> Mapped(old(disk), old(inodes), old(g), disk, inodes, g, i, bn, addr, bmapstart)
    {
      hide StoreOk, Mapped, Grown, AllSame, NewlyLogged, Ptr, NoneFree, NoneHeld;
      SameSize(disk, nmeta, bmapstart, g);
      if bn < NDIRECT {
        addr, panic := BmapDirect(i, bn);
      } else {
        NoIndirectPtr(disk, inodes[i], bn);
        addr, panic := IndirectBlock(i, bn);
        if panic {
          return;
        }
        ghost var d1, n1, g1 := disk, inodes, g;
        if addr == 0 {
          NoIndirect(disk, inodes, g, i, bn, bmapstart);
          return;
        }
        addr, panic := BmapEntry(i, bn - NDIRECT, addr);
        if panic {
          return;
        }
        MappedAfter(old(disk), old(inodes), old(g), d1, n1, g1, disk, inodes, g, i, bn, addr, bmapstart);
      }
    }

    /** iupdate: the inode is copied to its inode block. */
    method Iupdate(i: nat)
      requires ValidBut(i) && i < |inodes| && outstanding > 0
      modifies this`dinodes, this`g
      ensures Valid() && dinodes == old(dinodes)[i := inodes[i]]
      ensures g == old(g).(logged := old(g).logged + {inodestart + i / IPB})
    {
      SameSize(disk, nmeta, bmapstart, g);
      hide StoreOk;
      dinodes := dinodes[i := inodes[i]];
      g := g.(logged := g.logged + {inodestart + i / IPB});
    }

    /** The direct blocks of itrunc. */
    method FreeDirect(i: nat, ghost d0: seq<Block>, ghost ino: Inode, ghost role0: seq<Owner>)
      requires Core() && outstanding > 0 && i < |inodes| && inodes[i] == ino && WasFile(d0, role0, i, ino, nmeta)
      requires FreedTo(role0, g.role, i, 0) && DataKept(d0, disk, nmeta)
      modifies this`disk, this`inodes, this`g
      ensures Core() && g.view == old(g.view) && FreedTo(role0, g.role, i, NDIRECT) && DataKept(d0, disk, nmeta)
      ensures FreeLogs(old(disk), old(g.logged), disk, g.logged, bmapstart)
      ensures OnlyInode(old(inodes), inodes, i) && inodes[i].size == ino.size && |inodes[i].addrs| == NDIRECT + 1
      ensures inodes[i].addrs[NDIRECT] == ino.addrs[NDIRECT]
      ensures forall k :: 0 <= k < NDIRECT ==> inodes[i].addrs[k] == 0
    {
      hide StoreOk, FreedTo, DataKept, WasFile, AllSame, ChangesIn, FreeLogs, Ptr;
      WasShape(d0, role0, i, ino, nmeta);
      NothingLogged(disk, g.logged, bmapstart);
      var j := 0;
      while j < NDIRECT
        invariant 0 <= j <= NDIRECT
        invariant Core() && g.view == old(g.view) && FreedTo(role0, g.role, i, j) && DataKept(d0, disk, nmeta)
        invariant FreeLogs(old(disk), old(g.logged), disk, g.logged, bmapstart)
        invariant OnlyInode(old(inodes), inodes, i) && inodes[i].size == ino.size && |inodes[i].addrs| == NDIRECT + 1
        invariant forall k :: 0 <= k <= NDIRECT ==> inodes[i].addrs[k] == if k < j then 0 else ino.addrs[k]
      {
        var addr := inodes[i].addrs[j];
        DirectPtr(d0, ino, j);
        ghost var role1 := g.role;
        OnePlace(d0, role0, role1, i, ino, nmeta, j);
        if addr != 0 {
          ghost var d1, l1 := disk, g.logged;
          Bfree(addr);
          StillKept(d0, d1, disk, g.role, nmeta, bmapstart, g);
          MapLogged(old(disk), old(g.logged), d1, l1, disk, g.logged, bmapstart, addr);
          inodes := SetAddr(inodes, i, j, 0);
        }
        j := j + 1;
      }
    }

    /** The entries of the indirect block t in itrunc. */
    method FreeEntries(i: nat, t: nat, ghost d0: seq<Block>, ghost ino: Inode, ghost role0: seq<Owner>)
      requires Core() && outstanding > 0 && WasFile(d0, role0, i, ino, nmeta) && |ino.addrs| == NDIRECT + 1 && t == ino.addrs[NDIRECT] != 0
      requires FreedTo(role0, g.role, i, NDIRECT) && DataKept(d0, disk, nmeta)
      modifies this`disk, this`g
      ensures Core() && g.view == old(g.view) && FreedTo(role0, g.role, i, MAXFILE) && DataKept(d0, disk, nmeta)
      ensures FreeLogs(old(disk), old(g.logged), disk, g.logged, bmapstart)
    {
      hide StoreOk, FreedTo, DataKept, WasFile, AllSame, ChangesIn, FreeLogs, Ptr, Word;
      WasShape(d0, role0, i, ino, nmeta);
      KeptBlock(d0, disk, role0, nmeta, i, ino);
      var a := disk[t];
      NothingLogged(disk, g.logged, bmapstart);
      var j := 0;
      while j < NINDIRECT
        invariant 0 <= j <= NINDIRECT
        invariant Core() && g.view == old(g.view) && FreedTo(role0, g.role, i, NDIRECT + j) && DataKept(d0, disk, nmeta)
        invariant FreeLogs(old(disk), old(g.logged), disk, g.logged, bmapstart)
      {
        var addr := Word(a, j);
        WasEntry(d0, role0, i, ino, nmeta, j);
        ghost var role1 := g.role;
        OnePlace(d0, role0, role1, i, ino, nmeta, NDIRECT + j);
        if addr != 0 {
          ghost var d1, l1 := disk, g.logged;
          Bfree(addr);
          StillKept(d0, d1, disk, g.role, nmeta, bmapstart, g);
          MapLogged(old(disk), old(g.logged), d1, l1, disk, g.logged, bmapstart, addr);
        }
        j := j + 1;
      }
    }

    /** itrunc: exactly the blocks of file i are freed, each once, and no other file changes. */
    method Itrunc(i: nat)
      requires Valid() && i < |inodes| && outstanding > 0
      modifies this`disk, this`inodes, this`dinodes, this`g
      ensures Valid() && inodes == old(inodes)[i := EMPTY] && dinodes == old(dinodes)[i := EMPTY]
      ensures Truncated(old(g.role), g.role, i)
      ensures OthersSame(old(disk), old(inodes), disk, inodes, i) && NoNewHoles(old(disk), old(inodes), disk, inodes)
      ensures FreeLogs(old(disk), old(g.logged) + {inodestart + i / IPB}, disk, g.logged, bmapstart)
      ensures Logs(old(Now()), Now(), g.logged, inodestart)
      ensures old(DiskOk()) ==> DiskOk()
    {
      hide StoreOk, FreedTo, DataKept, WasFile, AllSame, ChangesIn, FreeLogs, Ptr, OthersSame, Truncated, SizesOk, NoneHeld;
      hide NoNewHoles, Mountable, Behind, BehindAt, Logs;
      DiskOkIff(disk, nmeta, bmapstart, g, dinodes);
      ghost var d0, role0, ino := disk, g.role, inodes[i];
      TakeApart(disk, nmeta, bmapstart, g, i);
      g := Ghosts(Detach(g.role, i), inodes[i := EMPTY], g.logged);
      FreeDirect(i, d0, ino, role0);
      WasShape(d0, role0, i, ino, nmeta);
      var t := inodes[i].addrs[NDIRECT];
      if t != 0 {
        ghost var d2, l2 := disk, g.logged;
        FreeEntries(i, t, d0, ino, role0);
        IndirectLeft(d0, role0, g.role, i, ino, nmeta);
        ghost var d1, l1 := disk, g.logged;
        Bfree(t);
        StillKept(d0, d1, disk, g.role, nmeta, bmapstart, g);
        MapLogged(d2, l2, d1, l1, disk, g.logged, bmapstart, t);
        FreeLogsTrans(d0, old(g.logged), d2, l2, disk, g.logged, bmapstart);
        inodes := SetAddr(inodes, i, NDIRECT, 0);
      } else {
        NoEntries(d0, role0, g.role, i, ino, nmeta);
      }
      inodes := inodes[i := inodes[i].(size := 0)];
      assert inodes[i].addrs == EMPTY.addrs;
      assert inodes == old(inodes)[i := EMPTY];
      Emptied(old(inodes), i);
      OthersStand(d0, nmeta, bmapstart, old(g), disk, i);
      TruncatedNoneHeld(role0, g.role, i);
      OthersNoHoles(d0, old(inodes), disk, inodes, i);
      BehindOthers(old(inodes), inodes, dinodes, i);
      AlsoLogged(d0, old(g.logged), disk, g.logged, bmapstart, inodestart + i / IPB);
      Iupdate(i);
      LoggedSnap(d0, old(g.logged) + {inodestart + i / IPB}, disk, g.logged, bmapstart, inodestart, old(dinodes), i);
      DiskOkIff(disk, nmeta, bmapstart, g, dinodes);
    }
  }

  // ----- What bmap does -----

  /** File i may have got more blocks; no byte of any file changed and no block it had moved. */
  ghost predicate Grown(d0: seq<Block>, n0: seq<Inode>, g0: Ghosts, d: seq<Block>, n: seq<Inode>, g: Ghosts, i: nat) {
    && AllSame(d0, n0, d, n) && OnlyInode(n0, n, i) && i < |n| && |n0[i].addrs| == |n[i].addrs| == NDIRECT + 1
    && |d| == |d0| == |g0.role| == |g.role|
    && (n0[i].addrs[NDIRECT] != 0 ==> n[i].addrs[NDIRECT] == n0[i].addrs[NDIRECT])
    && (forall bn: nat :: Ptr(d0, n0[i], bn) != 0 ==> Ptr(d, n[i], bn) == Ptr(d0, n0[i], bn))
    && (forall p :: 0 <= p < |d| ==> g.role[p] == g0.role[p] || (g0.role[p] == Unused && Owns(g.role[p], i)))
  }

  lemma GrownTrans(d0: seq<Block>, n0: seq<Inode>, g0: Ghosts, d1: seq<Block>, n1: seq<Inode>, g1: Ghosts,
                   d2: seq<Block>, n2: seq<Inode>, g2: Ghosts, i: nat)
    requires Grown(d0, n0, g0, d1, n1, g1, i) && Grown(d1, n1, g1, d2, n2, g2, i)
    ensures Grown(d0, n0, g0, d2, n2, g2, i)
  {
    AllSameTrans(d0, n0, d1, n1, d2, n2);
    hide AllSame, Ptr;
  }

  lemma GrownRest(d0: seq<Block>, n0: seq<Inode>, g0: Ghosts, d: seq<Block>, n: seq<Inode>, g: Ghosts, i: nat, dinodes: seq<Inode>)
    requires Grown(d0, n0, g0, d, n, g, i) && NoneHeld(g0.role) && Behind(dinodes, n0)
    ensures NoneHeld(g.role) && Behind(dinodes, n)
  {
    forall k: nat | k < NDIRECT
      ensures n0[i].addrs[k] != 0 ==> n[i].addrs[k] == n0[i].addrs[k]
    {
      DirectPtr(d0, n0[i], k);
      DirectPtr(d, n[i], k);
    }
    hide Ptr;
    assert n[i].size == n0[i].size;
    hide AllSame;
    assert BehindAt(dinodes[i], n0[i]);
  }

  /** Mapping block bn puts a new block into the inode itself: a direct block, or the indirect block. */
  ghost predicate LostAt(ino: Inode, bn: nat) {
    |ino.addrs| == NDIRECT + 1 && ino.addrs[if bn < NDIRECT then bn else NDIRECT] == 0
  }

  /** Mapping block bn allocates outside an operation. */
  ghost predicate MustPanic(d: seq<Block>, ino: Inode, g: Ghosts, outstanding: nat, bn: nat) {
    outstanding == 0 && Ptr(d, ino, bn) == 0 && !NoneFree(g.role)
  }

  lemma FreeBefore(d0: seq<Block>, g0: Ghosts, d: seq<Block>, g: Ghosts, b: nat, start: nat)
    requires Allocated(d0, g0, d, g, b, start)
    ensures !NoneFree(g0.role)
  {
  }

  lemma NoIndirectPtr(d: seq<Block>, ino: Inode, bn: nat)
    requires |ino.addrs| == NDIRECT + 1 && NDIRECT <= bn
    ensures ino.addrs[NDIRECT] == 0 ==> Ptr(d, ino, bn) == 0
  {
  }

  /** A bitmap block. */
  ghost predicate IsMap(b: nat, start: nat, size: nat) {
    exists p :: 0 <= p < size && b == start + p / BPB
  }

  /** Block b may be logged by a write to blocks lo .. hi-1 of a file: bitmap, indirect block, or one of those blocks. */
  ghost predicate MayLog(d: seq<Block>, ino: Inode, start: nat, lo: nat, hi: nat, b: nat) {
    || IsMap(b, start, |d|)
    || (|ino.addrs| == NDIRECT + 1 && b == ino.addrs[NDIRECT] != 0)
    || IsPtr(d, ino, lo, hi, b)
  }

  ghost predicate IsPtr(d: seq<Block>, ino: Inode, lo: nat, hi: nat, b: nat) {
    b != 0 && exists bn: nat :: lo <= bn < hi && Ptr(d, ino, bn) == b
  }

  ghost predicate NewlyLogged(l0: set<nat>, l: set<nat>, d: seq<Block>, ino: Inode, start: nat, lo: nat, hi: nat) {
    l0 <= l && forall b :: b in l && b !in l0 ==> MayLog(d, ino, start, lo, hi, b)
  }

  /** The outcome of bmap for block bn of file i. */
  ghost predicate Mapped(d0: seq<Block>, n0: seq<Inode>, g0: Ghosts, d: seq<Block>, n: seq<Inode>, g: Ghosts,
                         i: nat, bn: nat, addr: nat, start: nat) {
    && Grown(d0, n0, g0, d, n, g, i)
    && NewlyLogged(g0.logged, g.logged, d, n[i], start, bn, bn + 1) && ChangesIn(d0, d, g.logged)
    && addr == Ptr(d, n[i], bn)
    && (addr == 0 ==> NoneFree(g.role))
    && (Ptr(d0, n0[i], bn) != 0 || NoneFree(g0.role) ==> d == d0 && n == n0 && g == g0)
    && (n == n0 <==> !LostAt(n0[i], bn) || NoneFree(g0.role))
  }

  function SetAddr(inodes: seq<Inode>, i: nat, k: nat, b: nat): (r: seq<Inode>)
    requires i < |inodes| && k < |inodes[i].addrs|
    ensures r == WithAddr(inodes, i, k, b)
  {
    inodes[i := inodes[i].(addrs := inodes[i].addrs[k := b])]
  }

  lemma NothingGrown(d: seq<Block>, n: seq<Inode>, g: Ghosts, i: nat, bn: nat, start: nat)
    requires i < |n| && |n[i].addrs| == NDIRECT + 1 && |g.role| == |d|
    ensures Grown(d, n, g, d, n, g, i)
    ensures forall lo: nat, hi: nat :: NewlyLogged(g.logged, g.logged, d, n[i], start, lo, hi)
  {
    AllSameRefl(d, n);
    hide AllSame;
  }

  lemma DirectPtr(d: seq<Block>, ino: Inode, bn: nat)
    requires |ino.addrs| == NDIRECT + 1 && bn < NDIRECT
    ensures Ptr(d, ino, bn) == ino.addrs[bn]
  {
  }

  lemma EntryPtr(d: seq<Block>, nmeta: nat, start: nat, g: Ghosts, i: nat, j: nat)
    requires StoreOk(d, nmeta, start, g) && i < |g.view| && j < NINDIRECT && |g.view[i].addrs| == NDIRECT + 1
    requires g.view[i].addrs[NDIRECT] != 0
    ensures g.view[i].addrs[NDIRECT] < |d| == |g.role| && g.role[g.view[i].addrs[NDIRECT]] == Indirect(i)
    ensures Ptr(d, g.view[i], NDIRECT + j) == Word(d[g.view[i].addrs[NDIRECT]], j)
  {
    assert InodeOk(d, g.role, i, g.view[i]);
  }

  /** Allocating a block moves no block of any file. */
  lemma AllocPtrs(d0: seq<Block>, g0: Ghosts, d: seq<Block>, g: Ghosts, nmeta: nat, start: nat, b: nat, i: nat)
    requires StoreOk(d0, nmeta, start, g0) && Allocated(d0, g0, d, g, b, start) && i < |g0.view|
    ensures forall n: nat :: Ptr(d, g0.view[i], n) == Ptr(d0, g0.view[i], n)
  {
    assert InodeOk(d0, g0.role, i, g0.view[i]);
    hide Word;
  }

  lemma StoreLinked(d: seq<Block>, nmeta: nat, start: nat, g: Ghosts, d': seq<Block>, view: seq<Inode>, b: nat, o: Owner, l: set<nat>)
    requires StoreOk(d, nmeta, start, g) && b < |g.role| && g.role[b] == Held && o != Unused && |d'| == |d|
    requires TreeOk(d', nmeta, view, g.role[b := o])
    requires forall q :: 0 <= q < |d| && q < nmeta ==> d'[q] == d[q]
    ensures StoreOk(d', nmeta, start, Ghosts(g.role[b := o], view, l))
  {
    assert Shape(d, nmeta, g.role);
    SameMarks(d, d', start, nmeta);
    hide Marked;
  }

  lemma FillDirect(d0: seq<Block>, g0: Ghosts, d: seq<Block>, g: Ghosts, nmeta: nat, start: nat, i: nat, bn: nat, b: nat)
    requires StoreOk(d0, nmeta, start, g0) && StoreOk(d, nmeta, start, g) && AllSame(d0, g.view, d, g.view)
    requires Allocated(d0, g0, d, g, b, start) && b != 0
    requires i < |g0.view| && bn < NDIRECT && |g0.view[i].addrs| == NDIRECT + 1 && g0.view[i].addrs[bn] == 0
    ensures g.view == g0.view && b < |g.role|
    ensures
      var n := WithAddr(g0.view, i, bn, b);
      var g' := Ghosts(g.role[b := Data(i, bn)], n, g.logged);
      && StoreOk(d, nmeta, start, g')
      && Mapped(d0, g0.view, g0, d, n, g', i, bn, b, start)
  {
    var n := WithAddr(g0.view, i, bn, b);
    AllocPtrs(d0, g0, d, g, nmeta, start, b, i);
    LinkDirect(d, nmeta, g.view, g.role, i, bn, b);
    StoreLinked(d, nmeta, start, g, d, n, b, Data(i, bn), g.logged);
    AllSameTrans(d0, g0.view, d, g.view, d, n);
    hide StoreOk, AllSame;
    assert Ptr(d, n[i], bn) == b;
    assert IsMap(start + b / BPB, start, |d|);
    assert forall k: nat :: k != bn ==> Ptr(d, n[i], k) == Ptr(d, g0.view[i], k);
    hide Ptr;
  }

  lemma FillIndirect(d0: seq<Block>, g0: Ghosts, d: seq<Block>, g: Ghosts, nmeta: nat, start: nat, i: nat, bn: nat, b: nat)
    requires StoreOk(d0, nmeta, start, g0) && StoreOk(d, nmeta, start, g) && AllSame(d0, g.view, d, g.view)
    requires Allocated(d0, g0, d, g, b, start) && b != 0
    requires i < |g0.view| && |g0.view[i].addrs| == NDIRECT + 1 && g0.view[i].addrs[NDIRECT] == 0
    ensures g.view == g0.view && b < |g.role|
    ensures
      var n := WithAddr(g0.view, i, NDIRECT, b);
      var g' := Ghosts(g.role[b := Indirect(i)], n, g.logged);
      && StoreOk(d, nmeta, start, g') && Grown(d0, g0.view, g0, d, n, g', i)
      && NewlyLogged(g0.logged, g.logged, d, n[i], start, bn, bn)
      && forall k: nat :: Ptr(d, n[i], k) == Ptr(d0, g0.view[i], k)
  {
    var n := WithAddr(g0.view, i, NDIRECT, b);
    AllocPtrs(d0, g0, d, g, nmeta, start, b, i);
    LinkIndirect(d, nmeta, g.view, g.role, i, b);
    StoreLinked(d, nmeta, start, g, d, n, b, Indirect(i), g.logged);
    AllSameTrans(d0, g0.view, d, g.view, d, n);
    hide StoreOk, AllSame;
    ZeroWords(d[b]);
    assert IsMap(start + b / BPB, start, |d|);
    hide Word;
    assert forall k: nat :: Ptr(d, n[i], k) == Ptr(d, g0.view[i], k);
    hide Ptr;
  }

  lemma FillEntry(d0: seq<Block>, g0: Ghosts, d: seq<Block>, g: Ghosts, nmeta: nat, start: nat, i: nat, j: nat, b: nat)
    requires StoreOk(d0, nmeta, start, g0) && StoreOk(d, nmeta, start, g) && AllSame(d0, g.view, d, g.view)
    requires Allocated(d0, g0, d, g, b, start) && b != 0
    requires i < |g0.view| && |g0.view[i].addrs| == NDIRECT + 1 && j < NINDIRECT && g0.view[i].addrs[NDIRECT] != 0
    requires Ptr(d0, g0.view[i], NDIRECT + j) == 0
    ensures g.view == g0.view && b < |g.role|
    ensures g0.view[i].addrs[NDIRECT] < |d| && |d[g0.view[i].addrs[NDIRECT]]| == BSIZE
    ensures
      var t := g0.view[i].addrs[NDIRECT];
      var d' := d[t := PutWord(d[t], j, b)];
      var g' := Ghosts(g.role[b := Data(i, NDIRECT + j)], g.view, g.logged + {t});
      && StoreOk(d', nmeta, start, g')
      && Mapped(d0, g0.view, g0, d', g.view, g', i, NDIRECT + j, b, start)
  {
    var t, bn := g0.view[i].addrs[NDIRECT], NDIRECT + j;
    AllocPtrs(d0, g0, d, g, nmeta, start, b, i);
    EntryPtr(d, nmeta, start, g, i, j);
    SameSize(d, nmeta, start, g);
    WordRoundTrip(d[t], j, b);
    hide Word, PutWord;
    LinkEntry(d, nmeta, g.view, g.role, i, j, b);
    var d' := d[t := PutWord(d[t], j, b)];
    StoreLinked(d, nmeta, start, g, d', g.view, b, Data(i, bn), g.logged + {t});
    AllSameTrans(d0, g0.view, d, g.view, d', g.view);
    hide StoreOk, AllSame;
    assert forall k: nat :: Ptr(d', g.view[i], k) == if k == bn then b else Ptr(d, g.view[i], k);
    assert IsMap(start + b / BPB, start, |d|);
    hide Ptr;
  }

  lemma NoIndirect(d: seq<Block>, n: seq<Inode>, g: Ghosts, i: nat, bn: nat, start: nat)
    requires i < |n| && |n[i].addrs| == NDIRECT + 1 && |g.role| == |d|
    requires n[i].addrs[NDIRECT] == 0 && NoneFree(g.role) && NDIRECT <= bn
    ensures Mapped(d, n, g, d, n, g, i, bn, 0, start)
  {
    NothingGrown(d, n, g, i, bn, start);
    NoIndirectPtr(d, n[i], bn);
    hide Grown, Ptr;
  }

  lemma MappedAfter(d0: seq<Block>, n0: seq<Inode>, g0: Ghosts, d1: seq<Block>, n1: seq<Inode>, g1: Ghosts,
                    d2: seq<Block>, n2: seq<Inode>, g2: Ghosts, i: nat, bn: nat, addr: nat, start: nat)
    requires Grown(d0, n0, g0, d1, n1, g1, i) && Mapped(d1, n1, g1, d2, n2, g2, i, bn, addr, start)
    requires NewlyLogged(g0.logged, g1.logged, d1, n1[i], start, bn, bn) && ChangesIn(d0, d1, g1.logged)
    requires n0[i].addrs[NDIRECT] != 0 ==> d1 == d0 && n1 == n0 && g1 == g0
    requires n1[i].addrs[NDIRECT] != 0 && (n0[i].addrs[NDIRECT] == 0 ==> !NoneFree(g0.role))
    requires NDIRECT <= bn
    ensures Mapped(d0, n0, g0, d2, n2, g2, i, bn, addr, start)
  {
    GrownTrans(d0, n0, g0, d1, n1, g1, d2, n2, g2, i);
    ChangesTrans(d0, d1, d2, g1.logged, g2.logged);
    assert n0[i].addrs[NDIRECT] == 0 ==> Ptr(d0, n0[i], bn) == 0;
    hide Ptr, AllSame;
  }

  // ----- What itrunc does -----

  /** Every block of file i is unused now; every other block is what it was. */
  ghost predicate Truncated(role0: seq<Owner>, role: seq<Owner>, i: nat) {
    |role| == |role0| && forall p :: 0 <= p < |role| ==> role[p] == if Owns(role0[p], i) then Unused else role0[p]
  }

  /** File i as it was before it was taken apart: its pointers and its blocks' roles agree both ways. */
  ghost predicate WasFile(d0: seq<Block>, role0: seq<Owner>, i: nat, ino: Inode, nmeta: nat) {
    && Shape(d0, nmeta, role0) && InodeOk(d0, role0, i, ino)
    && forall p :: 0 <= p < |role0| && Owns(role0[p], i) ==> Back(d0, role0[p], ino, p)
  }

  ghost predicate Back(d0: seq<Block>, o: Owner, ino: Inode, p: nat) {
    match o
    case Data(_, bn) => bn < MAXFILE && Ptr(d0, ino, bn) == p
    case Indirect(_) => |ino.addrs| == NDIRECT + 1 && ino.addrs[NDIRECT] == p
    case _ => false
  }

  /** The blocks of file i up to block n are unused, its other blocks held. */
  ghost predicate FreedTo(role0: seq<Owner>, role: seq<Owner>, i: nat, n: nat) {
    |role| == |role0| && forall p :: 0 <= p < |role| ==>
      role[p] == if role0[p].Data? && role0[p].i == i && role0[p].bn < n then Unused
                 else if Owns(role0[p], i) then Held else role0[p]
  }

  /** Only metadata may have changed. */
  ghost predicate DataKept(d0: seq<Block>, d: seq<Block>, nmeta: nat) {
    |d| == |d0| && forall p :: nmeta <= p < |d| ==> d[p] == d0[p]
  }

  /** Every changed block is logged, and what is newly logged are bitmap blocks. */
  ghost predicate FreeLogs(d0: seq<Block>, l0: set<nat>, d: seq<Block>, l: set<nat>, start: nat) {
    ChangesIn(d0, d, l) && l0 <= l && forall b :: b in l && b !in l0 ==> IsMap(b, start, |d|)
  }

  lemma NothingLogged(d: seq<Block>, l: set<nat>, start: nat)
    ensures FreeLogs(d, l, d, l, start)
  {
  }

  lemma AlsoLogged(d0: seq<Block>, l0: set<nat>, d: seq<Block>, l: set<nat>, start: nat, b: nat)
    requires FreeLogs(d0, l0, d, l, start)
    ensures FreeLogs(d0, l0 + {b}, d, l + {b}, start)
  {
  }

  lemma LoggedSnap(d0: seq<Block>, l0: set<nat>, d: seq<Block>, l: set<nat>, start: nat, inodestart: nat, dinodes: seq<Inode>, i: nat)
    requires FreeLogs(d0, l0, d, l, start) && i < |dinodes| && inodestart + i / IPB in l0
    ensures Logs(Snap(d0, dinodes), Snap(d, dinodes[i := EMPTY]), l, inodestart)
  {
  }

  lemma FreeLogsTrans(d0: seq<Block>, l0: set<nat>, d1: seq<Block>, l1: set<nat>, d2: seq<Block>, l2: set<nat>, start: nat)
    requires FreeLogs(d0, l0, d1, l1, start) && FreeLogs(d1, l1, d2, l2, start)
    ensures FreeLogs(d0, l0, d2, l2, start)
  {
    ChangesTrans(d0, d1, d2, l1, l2);
    hide ChangesIn, IsMap;
  }

  lemma MapLogged(d0: seq<Block>, l0: set<nat>, d1: seq<Block>, l1: set<nat>, d2: seq<Block>, l2: set<nat>, start: nat, b: nat)
    requires FreeLogs(d0, l0, d1, l1, start) && ChangesIn(d1, d2, l2) && l2 == l1 + {start + b / BPB} && b < |d2| == |d1|
    ensures FreeLogs(d0, l0, d2, l2, start)
  {
    assert IsMap(start + b / BPB, start, |d2|);
    hide IsMap;
    assert FreeLogs(d1, l1, d2, l2, start);
    FreeLogsTrans(d0, l0, d1, l1, d2, l2, start);
  }

  lemma WasShape(d0: seq<Block>, role0: seq<Owner>, i: nat, ino: Inode, nmeta: nat)
    requires WasFile(d0, role0, i, ino, nmeta)
    ensures |d0| == |role0| && |ino.addrs| == NDIRECT + 1
    ensures ino.addrs[NDIRECT] != 0 ==> nmeta <= ino.addrs[NDIRECT] < |d0| && |d0[ino.addrs[NDIRECT]]| == BSIZE
  {
  }

  lemma KeptBlock(d0: seq<Block>, d: seq<Block>, role0: seq<Owner>, nmeta: nat, i: nat, ino: Inode)
    requires WasFile(d0, role0, i, ino, nmeta) && DataKept(d0, d, nmeta) && |ino.addrs| == NDIRECT + 1 && ino.addrs[NDIRECT] != 0
    ensures ino.addrs[NDIRECT] < |d| && d[ino.addrs[NDIRECT]] == d0[ino.addrs[NDIRECT]]
  {
  }

  lemma WasEntry(d0: seq<Block>, role0: seq<Owner>, i: nat, ino: Inode, nmeta: nat, j: nat)
    requires WasFile(d0, role0, i, ino, nmeta) && |ino.addrs| == NDIRECT + 1 && ino.addrs[NDIRECT] != 0 && j < NINDIRECT
    ensures ino.addrs[NDIRECT] < |d0| && Ptr(d0, ino, NDIRECT + j) == Word(d0[ino.addrs[NDIRECT]], j)
  {
  }

  /** The next block of the file is at its pointer and nowhere else, and is still held. */
  lemma OnePlace(d0: seq<Block>, role0: seq<Owner>, role: seq<Owner>, i: nat, ino: Inode, nmeta: nat, n: nat)
    requires WasFile(d0, role0, i, ino, nmeta) && FreedTo(role0, role, i, n) && n < MAXFILE
    ensures Ptr(d0, ino, n) == 0 ==> FreedTo(role0, role, i, n + 1)
    ensures Ptr(d0, ino, n) != 0 ==>
      && Ptr(d0, ino, n) < |role| && role[Ptr(d0, ino, n)] == Held
      && FreedTo(role0, role[Ptr(d0, ino, n) := Unused], i, n + 1)
  {
    hide Ptr;
    assert PtrOk(d0, role0, i, ino, n);
    forall p | 0 <= p < |role0| && role0[p] == Data(i, n)
      ensures Ptr(d0, ino, n) == p != 0
    {
      assert Owns(role0[p], i);
      assert Back(d0, role0[p], ino, p);
    }
  }

  lemma StillKept(d0: seq<Block>, d1: seq<Block>, d: seq<Block>, role: seq<Owner>, nmeta: nat, start: nat, g: Ghosts)
    requires DataKept(d0, d1, nmeta) && StoreOk(d, nmeta, start, g) && g.role == role && |d| == |d1| == |role|
    requires forall q :: 0 <= q < |d| && role[q] != Meta ==> d[q] == d1[q]
    ensures DataKept(d0, d, nmeta)
  {
    SameSize(d, nmeta, start, g);
  }

  lemma TakeApart(d: seq<Block>, nmeta: nat, start: nat, g: Ghosts, i: nat)
    requires StoreOk(d, nmeta, start, g) && i < |g.view|
    ensures StoreOk(d, nmeta, start, Ghosts(Detach(g.role, i), g.view[i := EMPTY], g.logged))
    ensures WasFile(d, g.role, i, g.view[i], nmeta)
    ensures FreedTo(g.role, Detach(g.role, i), i, 0) && DataKept(d, d, nmeta)
  {
    DetachKeeps(d, nmeta, g.view, g.role, i);
    hide Marked, Ptr, InodeOk;
    forall p | 0 <= p < |g.role| && Owns(g.role[p], i)
      ensures Back(d, g.role[p], g.view[i], p)
    {
      assert OwnerOk(d, g.view, g.role[p], p);
    }
  }

  /** With all data blocks freed, the indirect block is the last one. */
  lemma IndirectLeft(d0: seq<Block>, role0: seq<Owner>, role: seq<Owner>, i: nat, ino: Inode, nmeta: nat)
    requires WasFile(d0, role0, i, ino, nmeta) && FreedTo(role0, role, i, MAXFILE)
    requires |ino.addrs| == NDIRECT + 1 && ino.addrs[NDIRECT] != 0
    ensures ino.addrs[NDIRECT] < |role| && role[ino.addrs[NDIRECT]] == Held
    ensures Truncated(role0, role[ino.addrs[NDIRECT] := Unused], i)
  {
    hide Ptr;
    forall p | 0 <= p < |role0| && Owns(role0[p], i)
      ensures Back(d0, role0[p], ino, p)
    {
    }
  }

  /** Without an indirect block there are no further blocks. */
  lemma NoEntries(d0: seq<Block>, role0: seq<Owner>, role: seq<Owner>, i: nat, ino: Inode, nmeta: nat)
    requires WasFile(d0, role0, i, ino, nmeta) && FreedTo(role0, role, i, NDIRECT)
    requires |ino.addrs| == NDIRECT + 1 && ino.addrs[NDIRECT] == 0
    ensures Truncated(role0, role, i)
  {
    forall p | 0 <= p < |role0| && Owns(role0[p], i)
      ensures role0[p].Data? && role0[p].bn < NDIRECT
    {
      assert Back(d0, role0[p], ino, p);
    }
  }

  lemma TruncatedNoneHeld(role0: seq<Owner>, role: seq<Owner>, i: nat)
    requires Truncated(role0, role, i) && NoneHeld(role0)
    ensures NoneHeld(role)
  {
  }

  lemma Emptied(n0: seq<Inode>, i: nat)
    requires SizesOk(n0) && i < |n0|
    ensures SizesOk(n0[i := EMPTY])
  {
  }

  lemma OthersStand(d0: seq<Block>, nmeta: nat, start: nat, g0: Ghosts, d: seq<Block>, i: nat)
    requires StoreOk(d0, nmeta, start, g0) && DataKept(d0, d, nmeta) && i < |g0.view|
    ensures OthersSame(d0, g0.view, d, g0.view[i := EMPTY], i)
  {
    var n0, role0 := g0.view, g0.role;
    assert Shape(d0, nmeta, role0);
    assert OthersKept(d0, role0, d, role0, i);
    forall j | 0 <= j < |n0| && j != i
      ensures SameBytes(d0, n0[j], d, n0[j])
    {
      OtherInodeKept(d0, role0, d, role0, i, j, n0[j]);
    }
    hide SameBytes;
  }

  lemma SameSize(disk: seq<Block>, nmeta: nat, start: nat, g: Ghosts)
    requires StoreOk(disk, nmeta, start, g)
    ensures |g.role| == |disk| && forall p :: 0 <= p < |disk| ==> |disk[p]| == BSIZE && (g.role[p] == Meta <==> p < nmeta)
    ensures 0 < nmeta <= |disk| <= UINTS
    ensures forall i :: 0 <= i < |g.view| ==> |g.view[i].addrs| == NDIRECT + 1
  {
    assert forall i :: 0 <= i < |g.view| ==> InodeOk(disk, g.role, i, g.view[i]);
  }

  // ----- Accounting -----

  /** The disk block an inode has at a place: block bn of file i, or the indirect block of file i; 0 if none. */
  ghost function BlockAt(d: seq<Block>, inodes: seq<Inode>, place: Owner): nat {
    match place
    case Data(i, bn) => if i < |inodes| then Ptr(d, inodes[i], bn) else 0
    case Indirect(i) => if i < |inodes| && |inodes[i].addrs| == NDIRECT + 1 then inodes[i].addrs[NDIRECT] else 0
    case _ => 0
  }

  ghost predicate Reachable(d: seq<Block>, inodes: seq<Inode>, p: nat) {
    exists place :: BlockAt(d, inodes, place) == p
  }

  /** The marked bits are exactly the metadata and the blocks reachable from the inodes, and no block is reachable
      in two ways. */
  lemma BlockAccounting(d: seq<Block>, nmeta: nat, start: nat, g: Ghosts)
    requires StoreOk(d, nmeta, start, g) && NoneHeld(g.role)
    ensures forall p: nat :: 0 < p < |d| ==> (Marked(d, start, p) <==> p < nmeta || Reachable(d, g.view, p))
    ensures forall a, b :: BlockAt(d, g.view, a) == BlockAt(d, g.view, b) != 0 ==> a == b
  {
    hide BlockAt, StoreOk, Marked;
    forall a | BlockAt(d, g.view, a) != 0
      ensures (a.Data? || a.Indirect?) && BlockAt(d, g.view, a) < |g.role| && g.role[BlockAt(d, g.view, a)] == a
    {
      PlaceRole(d, nmeta, start, g, a);
    }
    forall p: nat | 0 < p < |d|
      ensures Marked(d, start, p) <==> p < nmeta || Reachable(d, g.view, p)
    {
      MarkedUse(d, nmeta, start, g, p);
    }
  }

  lemma PlaceRole(d: seq<Block>, nmeta: nat, start: nat, g: Ghosts, a: Owner)
    requires StoreOk(d, nmeta, start, g) && BlockAt(d, g.view, a) != 0
    ensures (a.Data? || a.Indirect?) && BlockAt(d, g.view, a) < |g.role| && g.role[BlockAt(d, g.view, a)] == a
  {
    hide Ptr;
    assert InodeOk(d, g.role, a.i, g.view[a.i]);
    if a.Data? {
      assert PtrOk(d, g.role, a.i, g.view[a.i], a.bn);
    }
  }

  lemma MarkedUse(d: seq<Block>, nmeta: nat, start: nat, g: Ghosts, p: nat)
    requires StoreOk(d, nmeta, start, g) && NoneHeld(g.role) && p < |d|
    ensures |g.role| == |d| && (Marked(d, start, p) <==> g.role[p] != Unused) && (g.role[p] == Meta <==> p < nmeta)
    ensures g.role[p].Data? || g.role[p].Indirect? ==> BlockAt(d, g.view, g.role[p]) == p
    ensures Marked(d, start, p) <==> p < nmeta || g.role[p].Data? || g.role[p].Indirect?
  {
    hide Ptr, Marked;
    assert OwnerOk(d, g.view, g.role[p], p) && Shape(d, nmeta, g.role);
  }

  // ----- The inodes on disk -----

  lemma BehindOthers(n0: seq<Inode>, n: seq<Inode>, dinodes: seq<Inode>, i: nat)
    requires Behind(dinodes, n0) && OnlyInode(n0, n, i)
    ensures |dinodes| == |n| && forall j :: 0 <= j < |n| && j != i ==> BehindAt(dinodes[j], n[j])
  {
    hide BehindAt;
  }

  /** A place that the inodes on disk know is the same place in memory. */
  lemma BehindPlace(d: seq<Block>, dinodes: seq<Inode>, inodes: seq<Inode>, place: Owner)
    requires Behind(dinodes, inodes) && BlockAt(d, dinodes, place) != 0
    ensures BlockAt(d, inodes, place) == BlockAt(d, dinodes, place)
  {
    assert BehindAt(dinodes[place.i], inodes[place.i]);
    hide Word;
  }

  /** A block that is in an inode in memory but not in its copy on disk would be lost by a crash: it is marked, and
      no inode on disk has it. */
  lemma LostBlock(d: seq<Block>, nmeta: nat, start: nat, g: Ghosts, dinodes: seq<Inode>, place: Owner)
    requires StoreOk(d, nmeta, start, g) && NoneHeld(g.role) && Behind(dinodes, g.view)
    requires BlockAt(d, g.view, place) != 0 && BlockAt(d, dinodes, place) == 0
    ensures Marked(d, start, BlockAt(d, g.view, place)) && !Reachable(d, dinodes, BlockAt(d, g.view, place))
  {
    hide BlockAt, StoreOk, Behind, Marked;
    var b := BlockAt(d, g.view, place);
    SameSize(d, nmeta, start, g);
    PlaceRole(d, nmeta, start, g, place);
    MarkedUse(d, nmeta, start, g, b);
    if Reachable(d, dinodes, b) {
      var other :| BlockAt(d, dinodes, other) == b;
      BehindPlace(d, dinodes, g.view, other);
      PlaceRole(d, nmeta, start, g, other);
    }
  }

  /** So on a consistent disk the two copies of an inode have the same blocks. */
  lemma CopiesAgree(d: seq<Block>, nmeta: nat, start: nat, g: Ghosts, dinodes: seq<Inode>, role: seq<Owner>, place: Owner)
    requires StoreOk(d, nmeta, start, g) && NoneHeld(g.role) && Behind(dinodes, g.view)
    requires StoreOk(d, nmeta, start, Ghosts(role, dinodes, {})) && NoneHeld(role)
    ensures BlockAt(d, dinodes, place) == BlockAt(d, g.view, place)
  {
    hide BlockAt, StoreOk, Behind, Marked;
    var h := Ghosts(role, dinodes, {});
    if BlockAt(d, dinodes, place) != 0 {
      BehindPlace(d, dinodes, g.view, place);
    } else if BlockAt(d, g.view, place) != 0 {
      var b := BlockAt(d, g.view, place);
      LostBlock(d, nmeta, start, g, dinodes, place);
      SameSize(d, nmeta, start, g);
      PlaceRole(d, nmeta, start, g, place);
      MarkedUse(d, nmeta, start, g, b);
      MarkedUse(d, nmeta, start, h, b);
    }
  }

  /** Between operations the disk by itself is consistent exactly when its inodes are those in memory. */
  lemma DiskOkIff(d: seq<Block>, nmeta: nat, start: nat, g: Ghosts, dinodes: seq<Inode>)
    requires StoreOk(d, nmeta, start, g) && NoneHeld(g.role) && SizesOk(g.view) && Behind(dinodes, g.view)
    ensures Mountable(d, nmeta, start, dinodes) <==> dinodes == g.view
  {
    if dinodes == g.view {
      assert StoreOk(d, nmeta, start, Ghosts(g.role, dinodes, {}));
    } else if Mountable(d, nmeta, start, dinodes) {
      var role :| StoreOk(d, nmeta, start, Ghosts(role, dinodes, {})) && NoneHeld(role);
      forall j | 0 <= j < |dinodes|
        ensures dinodes[j] == g.view[j]
      {
        SameAddrs(d, nmeta, start, g, dinodes, role, j);
      }
    }
  }

  lemma SameAddrs(d: seq<Block>, nmeta: nat, start: nat, g: Ghosts, dinodes: seq<Inode>, role: seq<Owner>, j: nat)
    requires StoreOk(d, nmeta, start, g) && NoneHeld(g.role) && Behind(dinodes, g.view) && j < |dinodes|
    requires StoreOk(d, nmeta, start, Ghosts(role, dinodes, {})) && NoneHeld(role)
    ensures dinodes[j] == g.view[j]
  {
    hide StoreOk, NoneHeld;
    var a, b := dinodes[j].addrs, g.view[j].addrs;
    assert BehindAt(dinodes[j], g.view[j]);
    forall k | 0 <= k <= NDIRECT
      ensures a[k] == b[k]
    {
      CopiesAgree(d, nmeta, start, g, dinodes, role, if k < NDIRECT then Data(j, k) else Indirect(j));
    }
    assert a == b;
  }
}
