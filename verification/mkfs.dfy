/** Building the initial file system (mkfs/mkfs.c). */
module MakeFs {
  import opened InodeMap
  import opened Bitmap
  import opened Inodes
  import opened FileIo

  const NINODES := 200
  const ROOTINO := 1
  const DIRENT := 16

  /** Block bn of a packed file of `size` bytes is there exactly when the file reaches into it. */
  ghost predicate Packed(d: seq<Block>, ino: Inode, size: nat) {
    && |ino.addrs| == NDIRECT + 1
    && (ino.addrs[NDIRECT] != 0 <==> size > NDIRECT * BSIZE)
    && forall bn: nat :: Ptr(d, ino, bn) != 0 <==> bn * BSIZE < size
  }

  /** Blocks are handed out in order; those not handed out are still zero. */
  ghost predicate ImageOk(disk: seq<Block>, nmeta: nat, inodes: seq<Inode>, role: seq<Owner>, freeblock: nat) {
    && TreeOk(disk, nmeta, inodes, role) && NoneHeld(role) && nmeta <= freeblock <= |disk|
    && (forall p :: 0 <= p < |role| ==> (role[p] == Unused <==> p >= freeblock))
    && (forall p :: 0 <= p < |disk| && p >= freeblock ==> IsZero(disk[p]))
  }

  ghost predicate MetaSame(d0: seq<Block>, d: seq<Block>, nmeta: nat) {
    |d| == |d0| && forall p :: 0 <= p < |d| && p < nmeta ==> d[p] == d0[p]
  }

  /** No bit of the bitmap is set yet. */
  ghost predicate MapZero(disk: seq<Block>, start: nat, nmeta: nat) {
    forall p :: start <= p < nmeta && p < |disk| ==> IsZero(disk[p])
  }

  const FSMAGIC := 0x1020_3040

  /** The superblock: eight words written over a zeroed buffer. */
  function SuperBlock(buf: Block, size: nat, nlog: nat, ninodeblocks: nat, nmeta: nat): (b: Block)
    requires |buf| == BSIZE && nmeta <= size
    ensures |b| == BSIZE
  {
    var b0 := PutWord(PutWord(buf, 0, FSMAGIC), 1, size);
    var b1 := PutWord(PutWord(b0, 2, size - nmeta), 3, NINODES);
    var b2 := PutWord(PutWord(b1, 4, nlog), 5, 2);
    PutWord(PutWord(b2, 6, 2 + nlog), 7, 2 + nlog + ninodeblocks)
  }

  /** The superblock tells the kernel where everything is. */
  ghost predicate Describes(b: Block, size: nat, nlog: nat, nmeta: nat, inodestart: nat, bmapstart: nat) {
    && nmeta <= size && Word(b, 0) == FSMAGIC && Word(b, 1) == size && Word(b, 2) == size - nmeta && Word(b, 3) == NINODES
    && Word(b, 4) == nlog && Word(b, 5) == 2 && Word(b, 6) == inodestart && Word(b, 7) == bmapstart
  }

  lemma SuperBlockWords(buf: Block, size: nat, nlog: nat, ninodeblocks: nat, nmeta: nat)
    requires |buf| == BSIZE && 2 + nlog + ninodeblocks <= nmeta <= size < UINTS
    ensures Describes(SuperBlock(buf, size, nlog, ninodeblocks, nmeta), size, nlog, nmeta, 2 + nlog, 2 + nlog + ninodeblocks)
  {
    hide Word;
    var b0 := PutWord(buf, 0, FSMAGIC);
    var b1 := PutWord(b0, 1, size);
    var b2 := PutWord(b1, 2, size - nmeta);
    var b3 := PutWord(b2, 3, NINODES);
    var b4 := PutWord(b3, 4, nlog);
    var b5 := PutWord(b4, 5, 2);
    var b6 := PutWord(b5, 6, 2 + nlog);
    WordRoundTrip(buf, 0, FSMAGIC);
    WordRoundTrip(b0, 1, size);
    WordRoundTrip(b1, 2, size - nmeta);
    WordRoundTrip(b2, 3, NINODES);
    WordRoundTrip(b3, 4, nlog);
    WordRoundTrip(b4, 5, 2);
    WordRoundTrip(b5, 6, 2 + nlog);
    WordRoundTrip(b6, 7, 2 + nlog + ninodeblocks);
    hide PutWord;
  }

  // ----- Room -----

  /** Blocks that appending n bytes may take: for each block touched, itself and an indirect block. */
  function Room(n: nat): nat {
    2 * (n / BSIZE + 2)
  }

  /** Blocks that appending the parts one by one may take. */
  function Rooms(parts: seq<seq<nat>>): nat {
    if parts == [] then 0 else Rooms(parts[..|parts| - 1]) + Room(|parts[|parts| - 1]|)
  }

  function FileRooms(files: seq<seq<seq<nat>>>): nat {
    if files == [] then 0 else FileRooms(files[..|files| - 1]) + Rooms(files[|files| - 1])
  }

  ghost predicate AllPacked(d: seq<Block>, inodes: seq<Inode>) {
    forall i :: 0 <= i < |inodes| ==> Packed(d, inodes[i], inodes[i].size)
  }

  /** Block fbn of file i is there now; no byte of any file and no other block changed. */
  ghost predicate GotBlock(d0: seq<Block>, n0: seq<Inode>, d: seq<Block>, n: seq<Inode>, i: nat, fbn: nat) {
    && AllSame(d0, n0, d, n) && OnlyInode(n0, n, i) && i < |n| && |n0[i].addrs| == |n[i].addrs| == NDIRECT + 1
    && |d| == |d0|
    && (n[i].addrs[NDIRECT] != 0 <==> n0[i].addrs[NDIRECT] != 0 || fbn >= NDIRECT)
    && (forall bn: nat :: bn != fbn ==> Ptr(d, n[i], bn) == Ptr(d0, n0[i], bn))
    && Ptr(d, n[i], fbn) != 0
  }

  lemma HandOut(d: seq<Block>, nmeta: nat, n: seq<Inode>, role: seq<Owner>, b: nat)
    requires ImageOk(d, nmeta, n, role, b) && b < |d|
    ensures b < |role| && 0 < b && IsZero(d[b]) && role[b] == Unused
    ensures TreeOk(d, nmeta, n, role[b := Held])
  {
    OutsideChange(d, nmeta, n, role, d, role[b := Held]);
  }

  lemma TookDirect(d: seq<Block>, nmeta: nat, n: seq<Inode>, role: seq<Owner>, i: nat, bn: nat, b: nat)
    requires ImageOk(d, nmeta, n, role, b) && b < |d| && i < |n| && bn < NDIRECT && |n[i].addrs| == NDIRECT + 1
    requires n[i].addrs[bn] == 0
    ensures ImageOk(d, nmeta, WithAddr(n, i, bn, b), role[b := Data(i, bn)], b + 1)
    ensures GotBlock(d, n, d, WithAddr(n, i, bn, b), i, bn) && Ptr(d, WithAddr(n, i, bn, b)[i], bn) == b
    ensures role[b] == Unused
  {
    HandOut(d, nmeta, n, role, b);
    LinkDirect(d, nmeta, n, role[b := Held], i, bn, b);
    assert role[b := Held][b := Data(i, bn)] == role[b := Data(i, bn)];
    hide TreeOk, AllSame, IsZero;
  }

  lemma TookIndirect(d: seq<Block>, nmeta: nat, n: seq<Inode>, role: seq<Owner>, i: nat, b: nat)
    requires ImageOk(d, nmeta, n, role, b) && b < |d| && i < |n| && |n[i].addrs| == NDIRECT + 1
    requires n[i].addrs[NDIRECT] == 0
    ensures ImageOk(d, nmeta, WithAddr(n, i, NDIRECT, b), role[b := Indirect(i)], b + 1)
    ensures AllSame(d, n, d, WithAddr(n, i, NDIRECT, b)) && 0 < b && role[b] == Unused
    ensures forall bn: nat :: Ptr(d, WithAddr(n, i, NDIRECT, b)[i], bn) == Ptr(d, n[i], bn)
  {
    HandOut(d, nmeta, n, role, b);
    LinkIndirect(d, nmeta, n, role[b := Held], i, b);
    assert role[b := Held][b := Indirect(i)] == role[b := Indirect(i)];
    ZeroWords(d[b]);
    hide TreeOk, AllSame, IsZero, Word;
  }

  lemma TookEntry(d: seq<Block>, nmeta: nat, n: seq<Inode>, role: seq<Owner>, i: nat, j: nat, b: nat)
    requires ImageOk(d, nmeta, n, role, b) && b < |d| && i < |n| && j < NINDIRECT && |n[i].addrs| == NDIRECT + 1
    requires 0 < n[i].addrs[NDIRECT] && Ptr(d, n[i], NDIRECT + j) == 0
    ensures n[i].addrs[NDIRECT] < |d| && |d[n[i].addrs[NDIRECT]]| == BSIZE && b < |role| && role[b] == Unused
    ensures
      var t := n[i].addrs[NDIRECT];
      var d' := d[t := PutWord(d[t], j, b)];
      && ImageOk(d', nmeta, n, role[b := Data(i, NDIRECT + j)], b + 1)
      && GotBlock(d, n, d', n, i, NDIRECT + j) && Ptr(d', n[i], NDIRECT + j) == b
  {
    var t := n[i].addrs[NDIRECT];
    assert InodeOk(d, role, i, n[i]) && Shape(d, nmeta, role);
    HandOut(d, nmeta, n, role, b);
    LinkEntry(d, nmeta, n, role[b := Held], i, j, b);
    assert role[b := Held][b := Data(i, NDIRECT + j)] == role[b := Data(i, NDIRECT + j)];
    WordRoundTrip(d[t], j, b);
    hide TreeOk, AllSame, IsZero, Word, PutWord;
  }

  /** Blocks were only added to file i. */
  ghost predicate OnlyGains(role0: seq<Owner>, role: seq<Owner>, i: nat) {
    |role| == |role0| && forall p :: 0 <= p < |role| ==> role[p] == role0[p] || (role0[p] == Unused && Owns(role[p], i))
  }

  class Image {
    const nmeta: nat
    const bmapstart: nat
    var disk: seq<Block>
    var inodes: seq<Inode>
    var freeblock: nat
    var freeinode: nat
    ghost var role: seq<Owner>

    ghost predicate Valid()
      reads this
    {
      ImageOk(disk, nmeta, inodes, role, freeblock)
    }

    /** The part of iappend's loop that finds or hands out block fbn; it fails when the image has no block left. */
    method BlockFor(i: nat, fbn: nat) returns (ok: bool, x: nat)
      requires Valid() && i < |inodes| && fbn < MAXFILE
      modifies this`disk, this`inodes, this`freeblock, this`role
      ensures ok ==> Valid() && GotBlock(old(disk), old(inodes), disk, inodes, i, fbn) && x == Ptr(disk, inodes[i], fbn)
      ensures ok ==> OnlyGains(old(role), role, i)
      ensures !ok ==> freeblock == |disk|
      ensures MetaSame(old(disk), disk, nmeta) && old(freeblock) <= freeblock <= old(freeblock) + 2
    {
      hide ImageOk, Ptr, GotBlock, AllSame, Word, PutWord;
      var d0, n0 := disk, inodes;
      Parts(disk, nmeta, inodes, role, freeblock, i);
      if fbn < NDIRECT {
        DirectPtr(disk, inodes[i], fbn);
        if inodes[i].addrs[fbn] == 0 {
          if freeblock == |disk| {
            return false, 0;
          }
          TookDirect(disk, nmeta, inodes, role, i, fbn, freeblock);
          inodes := SetAddr(inodes, i, fbn, freeblock);
          role := role[freeblock := Data(i, fbn)];
          freeblock := freeblock + 1;
        } else {
          HadBlock(disk, nmeta, inodes, role, freeblock, i, fbn);
        }
        return true, inodes[i].addrs[fbn];
      }
      if inodes[i].addrs[NDIRECT] == 0 {
        if freeblock == |disk| {
          return false, 0;
        }
        TookIndirect(disk, nmeta, inodes, role, i, freeblock);
        inodes := SetAddr(inodes, i, NDIRECT, freeblock);
        role := role[freeblock := Indirect(i)];
        freeblock := freeblock + 1;
      } else {
        AllSameRefl(disk, inodes);
      }
      ghost var d1, n1 := disk, inodes;
      var t, j := inodes[i].addrs[NDIRECT], fbn - NDIRECT;
      IndirectEntry(disk, nmeta, inodes, role, freeblock, i, j);
      if Word(disk[t], j) == 0 {
        if freeblock == |disk| {
          return false, 0;
        }
        TookEntry(disk, nmeta, inodes, role, i, j, freeblock);
        disk := disk[t := PutWord(disk[t], j, freeblock)];
        role := role[freeblock := Data(i, fbn)];
        x := freeblock;
        freeblock := freeblock + 1;
      } else {
        x := Word(disk[t], j);
        HadBlock(disk, nmeta, inodes, role, freeblock, i, fbn);
      }
      GotAfter(d0, n0, d1, n1, disk, inodes, i, fbn);
      ok := true;
    }

    /** iappend: the bytes go to the end of file i. It fails when the file would be too long or the image is full. */
    method Iappend(i: nat, p: seq<nat>) returns (ok: bool)
      requires Valid() && i < |inodes| && AllPacked(disk, inodes) && AllTailZero(disk, inodes)
      modifies this`disk, this`inodes, this`freeblock, this`role
      ensures ok ==> Valid() && AllPacked(disk, inodes) && AllTailZero(disk, inodes)
      ensures ok ==> Appended(old(disk), old(inodes), disk, inodes, i, p)
      ensures !ok ==> freeblock == |disk| || old(inodes[i].size) + |p| > MAXFILE * BSIZE
      ensures MetaSame(old(disk), disk, nmeta) && old(freeblock) <= freeblock <= old(freeblock) + Room(|p|)
    {
      hide ImageOk, AllPacked, AllTailZero, Packed, OthersSame, Wrote, GotBlock, OnlyGains, Ptr, Byte, Patch, MetaSame, Room, Touched;
      ghost var c := 0;
      NoneTouched(inodes[i].size);
      SameMeta(disk, nmeta);
      ghost var d0, n0, role0 := disk, inodes, role;
      PackedStart(disk, inodes, role, i, p);
      var off, n := inodes[i].size, |p|;
      var t := 0;
      while t < n
        invariant 0 <= t <= n && off == n0[i].size + t && |inodes| == |n0| && inodes[i].size == n0[i].size
        invariant t == 0 || t == n || off % BSIZE == 0
        invariant Valid() && OthersSame(d0, n0, disk, inodes, i) && OnlyGains(role0, role, i)
        invariant Wrote(d0, n0[i], disk, inodes[i], n0[i].size, t, p) && Packed(disk, inodes[i], off)
        invariant MetaSame(d0, disk, nmeta) && old(freeblock) <= freeblock <= old(freeblock) + 2 * c
        invariant Touched(n0[i].size, t, c)
      {
        BlocksTouched(n0[i].size, t, n, c);
        var fbn := off / BSIZE;
        if fbn >= MAXFILE {
          return false;
        }
        ghost var d1, n1, role1 := disk, inodes, role;
        var x;
        ok, x := BlockFor(i, fbn);
        if !ok {
          MetaTrans(d0, d1, disk, nmeta);
          return;
        }
        var m := if n - t < (fbn + 1) * BSIZE - off then n - t else (fbn + 1) * BSIZE - off;
        GotParts(d0, n0, role0, d1, n1, role1, disk, inodes, role, i, fbn, n0[i].size, t, p, off, m);
        CopiedIn(d0, n0, disk, nmeta, inodes, role, freeblock, i, n0[i].size, t, m, p, x);
        MetaTrans(d0, d1, disk, nmeta);
        MetaKept(d0, disk, nmeta, x, Patch(disk[x], off % BSIZE, p[t..t + m]));
        disk := disk[x := Patch(disk[x], off % BSIZE, p[t..t + m])];
        NextTouched(n0[i].size, t, m, c);
        t := t + m;
        off := off + m;
        c := c + 1;
      }
      BlocksTouched(n0[i].size, t, n, c);
      AppendDone(d0, n0, role0, old(freeblock), disk, nmeta, inodes, role, freeblock, i, p);
      inodes := inodes[i := inodes[i].(size := off)];
      ok := true;
    }

    /** A zeroed image with no inodes in use. */
    constructor (size: nat, nlog: nat)
      requires 2 + nlog + (NINODES / IPB + 1) + (size / BPB + 1) <= size < UINTS
      ensures Valid() && AllPacked(disk, inodes) && AllTailZero(disk, inodes) && |disk| == size
      ensures nmeta == 2 + nlog + (NINODES / IPB + 1) + (size / BPB + 1) && freeblock == nmeta
      ensures Describes(disk[1], size, nlog, nmeta, 2 + nlog, bmapstart) && MapZero(disk, bmapstart, nmeta)
      ensures freeinode == 1 && inodes == seq(NINODES, _ => EMPTY) && MapInMeta(bmapstart, nmeta, size)
      ensures forall i :: 0 <= i < |inodes| ==> File(disk, inodes[i]) == []
    {
      var ninodeblocks, nbitmap := NINODES / IPB + 1, size / BPB + 1;
      nmeta := 2 + nlog + ninodeblocks + nbitmap;
      bmapstart := 2 + nlog + ninodeblocks;
      disk := seq(size, _ => ZEROBLOCK);
      inodes := seq(NINODES, _ => EMPTY);
      freeblock := 2 + nlog + ninodeblocks + nbitmap;
      freeinode := 1;
      role := seq(size, p => if p < 2 + nlog + ninodeblocks + nbitmap then Meta else Unused);
      new;
      var buf := SuperBlock(ZEROBLOCK, size, nlog, ninodeblocks, nmeta);
      SuperBlockWords(ZEROBLOCK, size, nlog, ninodeblocks, nmeta);
      MapPlace(size, bmapstart, nmeta);
      hide SuperBlock, Describes, AllPacked, AllTailZero, ImageOk, File, MapInMeta;
      disk := disk[1 := buf];
      Blank(disk, nmeta, inodes, role);
    }

    /** ialloc; it fails when the inode table is full. */
    method Ialloc() returns (ok: bool, inum: nat)
      modifies this`freeinode
      ensures ok <==> old(freeinode) < |inodes|
      ensures ok ==> inum == old(freeinode) && freeinode == inum + 1
    {
      inum := freeinode;
      ok := inum < |inodes|;
      if ok {
        freeinode := freeinode + 1;
      }
    }

    /** The loop that copies one file: what each read returned is appended. */
    method CopyFile(i: nat, chunks: seq<seq<nat>>) returns (ok: bool)
      requires Valid() && i < |inodes| && AllPacked(disk, inodes) && AllTailZero(disk, inodes)
      modifies this`disk, this`inodes, this`freeblock, this`role
      ensures ok ==> Valid() && AllPacked(disk, inodes) && AllTailZero(disk, inodes)
      ensures ok ==> Appended(old(disk), old(inodes), disk, inodes, i, Concat(chunks))
      ensures !ok ==> freeblock == |disk| || old(inodes[i].size) + |Concat(chunks)| > MAXFILE * BSIZE
      ensures MetaSame(old(disk), disk, nmeta) && old(freeblock) <= freeblock <= old(freeblock) + Rooms(chunks)
    {
      hide ImageOk, AllPacked, AllTailZero, Appended;
      RoomsGrow(chunks);
      AppendedNothing(disk, inodes, i);
      var k := 0;
      while k < |chunks|
        invariant 0 <= k <= |chunks| && |inodes| == |old(inodes)|
        invariant Valid() && AllPacked(disk, inodes) && AllTailZero(disk, inodes)
        invariant Appended(old(disk), old(inodes), disk, inodes, i, Concat(chunks[..k]))
        invariant MetaSame(old(disk), disk, nmeta) && old(freeblock) <= freeblock <= old(freeblock) + Rooms(chunks[..k])
      {
        AppendedSize(old(disk), old(inodes), disk, inodes, i, Concat(chunks[..k]));
        assert chunks[..k + 1][..k] == chunks[..k];
        ghost var d1, n1 := disk, inodes;
        ok := Iappend(i, chunks[k]);
        if !ok {
          return;
        }
        AppendedMore(old(disk), old(inodes), d1, n1, disk, inodes, i, Concat(chunks[..k]), chunks[k]);
        k := k + 1;
      }
      assert chunks[..k] == chunks;
      ok := true;
    }

    /** One turn of main's loop: the next inode gets a directory entry and the file's contents. */
    method AddFile(entry: seq<nat>, chunks: seq<seq<nat>>) returns (ok: bool)
      requires Valid() && AllPacked(disk, inodes) && AllTailZero(disk, inodes) && ROOTINO < freeinode && ROOTINO < |inodes|
      requires freeinode < |inodes| ==> File(disk, inodes[freeinode]) == []
      modifies this
      ensures ok ==> Valid() && AllPacked(disk, inodes) && AllTailZero(disk, inodes)
      ensures ok ==> freeinode == old(freeinode) + 1 && |inodes| == |old(inodes)| && old(freeinode) < |inodes|
      ensures ok ==> File(disk, inodes[ROOTINO]) == old(File(disk, inodes[ROOTINO])) + entry
      ensures ok ==> File(disk, inodes[old(freeinode)]) == Concat(chunks)
      ensures ok ==> forall j :: 0 <= j < |inodes| && j != ROOTINO && j != old(freeinode) ==>
        File(disk, inodes[j]) == File(old(disk), old(inodes)[j])
      ensures !ok ==>
        || freeblock == |disk| || old(freeinode) >= |old(inodes)| || |old(File(disk, inodes[ROOTINO])) + entry| > MAXFILE * BSIZE
        || |Concat(chunks)| > MAXFILE * BSIZE
      ensures MetaSame(old(disk), disk, nmeta) && freeblock <= old(freeblock) + Room(|entry|) + Rooms(chunks)
    {
      hide ImageOk, AllPacked, AllTailZero, File, Rooms, Room, Concat;
      FileLength(disk, inodes[ROOTINO], File(disk, inodes[ROOTINO]));
      var inum;
      ok, inum := Ialloc();
      if !ok {
        return;
      }
      FileLength(disk, inodes[inum], []);
      ok := Iappend(ROOTINO, entry);
      if !ok {
        return;
      }
      ok := CopyFile(inum, chunks);
      assert [] + Concat(chunks) == Concat(chunks);
    }

    /** The files of main's loop, each with its directory entry. */
    method AddFiles(dots: seq<nat>, entries: seq<seq<nat>>, files: seq<seq<seq<nat>>>) returns (ok: bool)
      requires Valid() && AllPacked(disk, inodes) && AllTailZero(disk, inodes) && |entries| == |files|
      requires freeinode == 2 && |inodes| == NINODES && File(disk, inodes[ROOTINO]) == dots
      requires forall i :: 2 <= i < |inodes| ==> File(disk, inodes[i]) == []
      modifies this
      ensures ok ==> Valid() && AllPacked(disk, inodes) && AllTailZero(disk, inodes)
      ensures ok ==> |disk| == |old(disk)| && |inodes| == NINODES && |files| + 2 <= NINODES
      ensures ok ==> File(disk, inodes[ROOTINO]) == dots + Concat(entries)
      ensures ok ==> forall k :: 0 <= k < |files| ==> File(disk, inodes[k + 2]) == Concat(files[k])
      ensures !ok ==>
        || freeblock == |disk| || |files| + 2 > NINODES || |dots + Concat(entries)| > MAXFILE * BSIZE || TooLong(files)
      ensures MetaSame(old(disk), disk, nmeta) && freeblock <= old(freeblock) + Rooms(entries) + FileRooms(files)
    {
      hide ImageOk, AllPacked, AllTailZero, File, Rooms, FileRooms, Room, Concat;
      NoParts(entries, files, dots);
      var k := 0;
      while k < |files|
        invariant 0 <= k <= |files| && |inodes| == NINODES && freeinode == k + 2 <= NINODES
        invariant Valid() && AllPacked(disk, inodes) && AllTailZero(disk, inodes)
        invariant MetaSame(old(disk), disk, nmeta) && freeblock <= old(freeblock) + Rooms(entries[..k]) + FileRooms(files[..k])
        invariant File(disk, inodes[ROOTINO]) == dots + Concat(entries[..k])
        invariant forall i :: 0 <= i < k ==> File(disk, inodes[i + 2]) == Concat(files[i])
        invariant forall i :: k + 2 <= i < |inodes| ==> File(disk, inodes[i]) == []
      {
        OnePart(entries, files, dots, k);
        ok := AddFile(entries[k], files[k]);
        if !ok {
          return;
        }
        k := k + 1;
      }
      assert entries[..k] == entries && files[..k] == files;
      ok := true;
    }

    /** balloc: the bits of the blocks handed out are set. */
    method MarkUsed() returns (ok: bool)
      requires Valid() && MapInMeta(bmapstart, nmeta, |disk|) && MapZero(disk, bmapstart, nmeta)
      modifies this`disk
      ensures ok <==> freeblock < BPB
      ensures ok ==> StoreOk(disk, nmeta, bmapstart, Ghosts(role, inodes, {})) && |disk| == |old(disk)|
      ensures ok ==> AllSame(old(disk), inodes, disk, inodes)
      ensures ok ==> forall p :: 0 <= p < |disk| && p != bmapstart ==> disk[p] == old(disk)[p]
    {
      hide ImageOk, Bit, SetBit, StoreOk, AllSame, BitsTo;
      if freeblock >= BPB {
        return false;
      }
      MapStart(disk, nmeta, bmapstart, inodes, role, freeblock);
      var buf: Block := ZEROBLOCK;
      NoBits(buf);
      var i := 0;
      while i < freeblock
        invariant 0 <= i <= freeblock && disk == old(disk) && BitsTo(buf, i)
      {
        OneBit(buf, i);
        buf := buf[i / 8 := SetBit(buf[i / 8], i % 8)];
        i := i + 1;
      }
      Marking(disk, nmeta, bmapstart, inodes, role, freeblock, buf);
      disk := disk[bmapstart := buf];
      ok := true;
    }

    /** main: the root directory with its entries, one file per argument, the rounded root size, the bitmap. */
    method Build(dots: seq<nat>, entries: seq<seq<nat>>, files: seq<seq<seq<nat>>>) returns (ok: bool)
      requires Valid() && AllPacked(disk, inodes) && AllTailZero(disk, inodes) && MapInMeta(bmapstart, nmeta, |disk|)
      requires MapZero(disk, bmapstart, nmeta)
      requires freeinode == 1 && |inodes| == NINODES && (forall i :: 0 <= i < |inodes| ==> File(disk, inodes[i]) == [])
      requires |entries| == |files| && |dots| == 2 * DIRENT && forall k :: 0 <= k < |entries| ==> |entries[k]| == DIRENT
      modifies this
      ensures ok ==> StoreOk(disk, nmeta, bmapstart, Ghosts(role, inodes, {})) && SizesOk(inodes) && NoneHeld(role)
      ensures ok ==> |inodes| == NINODES && |files| + 2 <= NINODES
      ensures ok ==> forall k :: 0 <= k < |files| ==>
        File(disk, inodes[k + 2]) == Concat(files[k]) && HoleFree(disk, inodes[k + 2], 0, inodes[k + 2].size)
      ensures ok ==> RootBuilt(disk, inodes[ROOTINO], dots + Concat(entries))
      ensures ok ==> forall p :: 0 <= p < |role| ==> (role[p] == Unused <==> p >= freeblock)
      ensures ok ==> |disk| == |old(disk)| == |role| && forall p :: 0 <= p < |disk| && p < nmeta && p != bmapstart ==> disk[p] == old(disk)[p]
      ensures freeblock <= old(freeblock) + BuildRoom(entries, files)
      ensures HasRoom(old(freeblock), |old(disk)|, entries, files) ==> ok && freeblock < |disk|
    {
      hide ImageOk, AllPacked, AllTailZero, File, StoreOk, AllSame, HoleFree, SizesOk, Rooms, FileRooms, Room;
      EntryBytes(entries);
      FileLength(disk, inodes[ROOTINO], []);
      var rootino;
      ok, rootino := Ialloc();
      ok := Iappend(rootino, dots[..DIRENT]);
      if !ok {
        return;
      }
      FileLength(disk, inodes[ROOTINO], [] + dots[..DIRENT]);
      ok := Iappend(rootino, dots[DIRENT..]);
      if !ok {
        return;
      }
      assert [] + dots[..DIRENT] + dots[DIRENT..] == dots;
      assert |files| + 2 <= NINODES ==> |dots + Concat(entries)| <= MAXFILE * BSIZE;
      ok := AddFiles(dots, entries, files);
      if !ok {
        return;
      }
      ghost var d1, n1 := disk, inodes;
      ghost var content := dots + Concat(entries);
      FileLength(disk, inodes[ROOTINO], content);
      var off := inodes[ROOTINO].size;
      Rounding(disk, nmeta, inodes, role, freeblock, (off / BSIZE + 1) * BSIZE);
      inodes := inodes[ROOTINO := inodes[ROOTINO].(size := (off / BSIZE + 1) * BSIZE)];
      ok := MarkUsed();
      if ok {
        UsedBelow(d1, nmeta, n1, role, freeblock);
        Built(d1, n1, disk, inodes, role, nmeta, bmapstart, freeblock, content);
      }
    }
  }

  /** Blocks that building the image may take. */
  function BuildRoom(entries: seq<seq<nat>>, files: seq<seq<seq<nat>>>): nat {
    2 * Room(DIRENT) + Rooms(entries) + FileRooms(files)
  }

  /** There are enough blocks and inodes for everything, the bits fit one bitmap block, and no file is too long. */
  ghost predicate HasRoom(freeblock: nat, size: nat, entries: seq<seq<nat>>, files: seq<seq<seq<nat>>>) {
    && freeblock + BuildRoom(entries, files) < size && freeblock + BuildRoom(entries, files) < BPB
    && |files| + 2 <= NINODES && !TooLong(files)
  }

  lemma {:induction false} RoomsGrow(parts: seq<seq<nat>>)
    ensures forall k :: 0 <= k <= |parts| ==> Rooms(parts[..k]) <= Rooms(parts) && |Concat(parts[..k])| <= |Concat(parts)|
  {
    assert parts[..|parts|] == parts;
    if parts != [] {
      var front := parts[..|parts| - 1];
      RoomsGrow(front);
      assert forall k :: 0 <= k <= |front| ==> front[..k] == parts[..k];
    }
  }

  lemma {:induction false} FileRoomsGrow(files: seq<seq<seq<nat>>>)
    ensures forall k :: 0 <= k <= |files| ==> FileRooms(files[..k]) <= FileRooms(files)
  {
    assert files[..|files|] == files;
    if files != [] {
      var front := files[..|files| - 1];
      FileRoomsGrow(front);
      assert forall k :: 0 <= k <= |front| ==> front[..k] == files[..k];
    }
  }

  ghost predicate TooLong(files: seq<seq<seq<nat>>>) {
    exists k :: 0 <= k < |files| && |Concat(files[k])| > MAXFILE * BSIZE
  }

  lemma NoParts(entries: seq<seq<nat>>, files: seq<seq<seq<nat>>>, dots: seq<nat>)
    ensures Rooms(entries[..0]) == 0 && FileRooms(files[..0]) == 0 && dots + Concat(entries[..0]) == dots
  {
  }

  /** What the k-th file adds, and that it is no more than all files together. */
  lemma OnePart(entries: seq<seq<nat>>, files: seq<seq<seq<nat>>>, dots: seq<nat>, k: nat)
    requires k < |entries| == |files|
    ensures Rooms(entries[..k + 1]) == Rooms(entries[..k]) + Room(|entries[k]|) <= Rooms(entries)
    ensures FileRooms(files[..k + 1]) == FileRooms(files[..k]) + Rooms(files[k]) <= FileRooms(files)
    ensures dots + Concat(entries[..k]) + entries[k] == dots + Concat(entries[..k + 1])
    ensures |dots + Concat(entries[..k + 1])| <= |dots + Concat(entries)|
  {
    RoomsGrow(entries);
    FileRoomsGrow(files);
    assert entries[..k + 1][..k] == entries[..k] && files[..k + 1][..k] == files[..k];
  }

  lemma SameMeta(d: seq<Block>, nmeta: nat)
    ensures MetaSame(d, d, nmeta)
  {
  }

  lemma MetaKept(d0: seq<Block>, d: seq<Block>, nmeta: nat, x: nat, page: Block)
    requires MetaSame(d0, d, nmeta) && nmeta <= x < |d|
    ensures MetaSame(d0, d[x := page], nmeta)
  {
  }

  lemma MetaTrans(d0: seq<Block>, d1: seq<Block>, d2: seq<Block>, nmeta: nat)
    requires MetaSame(d0, d1, nmeta) && MetaSame(d1, d2, nmeta)
    ensures MetaSame(d0, d2, nmeta)
  {
  }

  lemma UsedBelow(d: seq<Block>, nmeta: nat, n: seq<Inode>, role: seq<Owner>, freeblock: nat)
    requires ImageOk(d, nmeta, n, role, freeblock)
    ensures |role| == |d| && forall p :: 0 <= p < |role| ==> (role[p] == Unused <==> p >= freeblock)
  {
  }

  // ----- iappend -----

  /** The t bytes from `at` on lie in c blocks. */
  ghost predicate Touched(at: nat, t: nat, c: nat) {
    c == if t == 0 then 0 else (at + t - 1) / BSIZE - at / BSIZE + 1
  }

  lemma NoneTouched(at: nat)
    ensures Touched(at, 0, 0)
  {
  }

  lemma BlocksTouched(at: nat, t: nat, n: nat, c: nat)
    requires t <= n && Touched(at, t, c)
    ensures 2 * c <= Room(n)
    ensures t < n && (t == 0 || (at + t) % BSIZE == 0) ==> 2 * c + 2 <= Room(n)
  {
  }

  lemma NextTouched(at: nat, t: nat, m: nat, c: nat)
    requires m > 0 && (at + t) % BSIZE + m <= BSIZE && (t == 0 || (at + t) % BSIZE == 0) && Touched(at, t, c)
    ensures Touched(at, t + m, c + 1)
  {
  }

  lemma AppendedSize(d0: seq<Block>, n0: seq<Inode>, d: seq<Block>, n: seq<Inode>, i: nat, p: seq<nat>)
    requires Appended(d0, n0, d, n, i, p)
    ensures i < |n| == |n0| && n[i].size == n0[i].size + |p|
  {
  }

  ghost predicate TailZero(d: seq<Block>, ino: Inode) {
    forall k: nat :: k >= ino.size ==> Byte(d, ino, k) == 0
  }

  ghost predicate AllTailZero(d: seq<Block>, inodes: seq<Inode>) {
    forall i :: 0 <= i < |inodes| ==> TailZero(d, inodes[i])
  }

  /** File i has the bytes p at its end; every other file is as before. */
  ghost predicate Appended(d0: seq<Block>, n0: seq<Inode>, d: seq<Block>, n: seq<Inode>, i: nat, p: seq<nat>) {
    && |d| == |d0| && |n| == |n0| && i < |n|
    && File(d, n[i]) == File(d0, n0[i]) + p
    && forall j :: 0 <= j < |n| && j != i ==> n[j] == n0[j] && File(d, n[j]) == File(d0, n0[j])
  }

  lemma PackedStart(d: seq<Block>, n: seq<Inode>, role: seq<Owner>, i: nat, p: seq<nat>)
    requires i < |n| && AllPacked(d, n)
    ensures OthersSame(d, n, d, n, i) && Wrote(d, n[i], d, n[i], n[i].size, 0, p) && Packed(d, n[i], n[i].size)
    ensures OnlyGains(role, role, i)
  {
    hide Packed;
  }

  lemma GotParts(d0: seq<Block>, n0: seq<Inode>, role0: seq<Owner>, d1: seq<Block>, n1: seq<Inode>, role1: seq<Owner>,
                 d: seq<Block>, n: seq<Inode>, role: seq<Owner>, i: nat, fbn: nat, at: nat, t: nat, p: seq<nat>, off: nat, m: nat)
    requires m > 0 && off % BSIZE + m <= BSIZE
    requires |n1| == |n0| && i < |n0| && OthersSame(d0, n0, d1, n1, i) && OnlyGains(role0, role1, i) && OnlyGains(role1, role, i)
    requires t <= |p| && Wrote(d0, n0[i], d1, n1[i], at, t, p) && GotBlock(d1, n1, d, n, i, fbn)
    requires Packed(d1, n1[i], off) && fbn == off / BSIZE
    ensures |n| == |n0| && n[i].size == n1[i].size && OthersSame(d0, n0, d, n, i) && OnlyGains(role0, role, i)
    ensures Wrote(d0, n0[i], d, n[i], at, t, p)
    ensures Packed(d, n[i], off + m) && Ptr(d, n[i], fbn) != 0
  {
    hide Ptr, Byte;
    assert FileStays(d1, n1[i], d, n[i]);
    OthersSameTrans(d0, n0, d1, n1, d, n, i);
    hide AllSame, OthersSame, FileStays;
    Reaches(off, m, NDIRECT);
    forall bn: nat
      ensures Ptr(d, n[i], bn) != 0 <==> bn * BSIZE < off + m
    {
      Reaches(off, m, bn);
      assert Ptr(d1, n1[i], bn) != 0 <==> bn * BSIZE < off;
    }
  }

  /** Bytes off .. off+m-1 of one block reach into that block and those before it. */
  lemma Reaches(off: nat, m: nat, bn: nat)
    requires m > 0 && off % BSIZE + m <= BSIZE
    ensures bn * BSIZE < off + m <==> bn == off / BSIZE || bn * BSIZE < off
  {
  }

  lemma CopiedIn(d0: seq<Block>, n0: seq<Inode>, d: seq<Block>, nmeta: nat, n: seq<Inode>, role: seq<Owner>, freeblock: nat,
                 i: nat, at: nat, t: nat, m: nat, p: seq<nat>, x: nat)
    requires ImageOk(d, nmeta, n, role, freeblock) && |n| == |n0| && i < |n| && OthersSame(d0, n0, d, n, i)
    requires t + m <= |p| && Wrote(d0, n0[i], d, n[i], at, t, p) && (at + t) % BSIZE + m <= BSIZE
    requires x == Ptr(d, n[i], (at + t) / BSIZE) != 0 && Packed(d, n[i], at + t + m)
    ensures nmeta <= x < |d| && |d[x]| == BSIZE
    ensures
      var d' := d[x := Patch(d[x], (at + t) % BSIZE, p[t..t + m])];
      && ImageOk(d', nmeta, n, role, freeblock) && OthersSame(d0, n0, d', n, i)
      && Wrote(d0, n0[i], d', n[i], at, t + m, p) && Packed(d', n[i], at + t + m)
  {
    assert Shape(d, nmeta, role) && InodeOk(d, role, i, n[i]) && PtrOk(d, role, i, n[i], (at + t) / BSIZE);
    hide Ptr, Byte, Patch, OthersSame, InodeOk;
    var page := Patch(d[x], (at + t) % BSIZE, p[t..t + m]);
    PatchLength(d[x], (at + t) % BSIZE, p[t..t + m]);
    WriteData(d, nmeta, n, role, i, (at + t) / BSIZE, page);
    hide TreeOk;
    WroteBlock(d0, n0[i], d, n[i], d[x := page], page, at, t, m, p, x);
    OthersSameTrans(d0, n0, d, n, d[x := page], n, i);
  }

  /** A block number is in use by block bn of file j exactly when the inode says so. */
  lemma PtrIffRole(d: seq<Block>, nmeta: nat, n: seq<Inode>, role: seq<Owner>, j: nat, bn: nat)
    requires TreeOk(d, nmeta, n, role) && j < |n|
    ensures Ptr(d, n[j], bn) != 0 <==> exists p :: 0 <= p < |role| && role[p] == Data(j, bn)
  {
    assert InodeOk(d, role, j, n[j]) && PtrOk(d, role, j, n[j], bn) && Shape(d, nmeta, role);
    hide Ptr, InodeOk;
    if p :| 0 <= p < |role| && role[p] == Data(j, bn) {
      assert OwnerOk(d, n, role[p], p);
    }
  }

  lemma Parts(d: seq<Block>, nmeta: nat, n: seq<Inode>, role: seq<Owner>, freeblock: nat, i: nat)
    requires ImageOk(d, nmeta, n, role, freeblock) && i < |n|
    ensures |role| == |d| && freeblock <= |d| && |n[i].addrs| == NDIRECT + 1
  {
    assert InodeOk(d, role, i, n[i]);
  }

  lemma HadBlock(d: seq<Block>, nmeta: nat, n: seq<Inode>, role: seq<Owner>, freeblock: nat, i: nat, fbn: nat)
    requires ImageOk(d, nmeta, n, role, freeblock) && i < |n| && Ptr(d, n[i], fbn) != 0
    ensures GotBlock(d, n, d, n, i, fbn)
  {
    AllSameRefl(d, n);
    assert InodeOk(d, role, i, n[i]);
    hide AllSame;
  }

  lemma IndirectEntry(d: seq<Block>, nmeta: nat, n: seq<Inode>, role: seq<Owner>, freeblock: nat, i: nat, j: nat)
    requires ImageOk(d, nmeta, n, role, freeblock) && i < |n| && |n[i].addrs| == NDIRECT + 1 && n[i].addrs[NDIRECT] != 0 && j < NINDIRECT
    ensures nmeta <= n[i].addrs[NDIRECT] < |d| && Ptr(d, n[i], NDIRECT + j) == Word(d[n[i].addrs[NDIRECT]], j)
  {
    assert InodeOk(d, role, i, n[i]) && Shape(d, nmeta, role);
  }

  lemma GotAfter(d0: seq<Block>, n0: seq<Inode>, d1: seq<Block>, n1: seq<Inode>, d2: seq<Block>, n2: seq<Inode>, i: nat, fbn: nat)
    requires AllSame(d0, n0, d1, n1) && OnlyInode(n0, n1, i) && |d1| == |d0| && i < |n0| && |n0[i].addrs| == NDIRECT + 1 && fbn >= NDIRECT
    requires forall bn: nat :: Ptr(d1, n1[i], bn) == Ptr(d0, n0[i], bn)
    requires GotBlock(d1, n1, d2, n2, i, fbn)
    ensures GotBlock(d0, n0, d2, n2, i, fbn)
  {
    AllSameTrans(d0, n0, d1, n1, d2, n2);
    hide AllSame, Ptr;
  }

  lemma StillPacked(d0: seq<Block>, nmeta: nat, n0: seq<Inode>, role0: seq<Owner>, d: seq<Block>, n: seq<Inode>, role: seq<Owner>,
                    i: nat, j: nat, size: nat)
    requires TreeOk(d0, nmeta, n0, role0) && TreeOk(d, nmeta, n, role) && OnlyGains(role0, role, i)
    requires j < |n| == |n0| && j != i && n[j] == n0[j] && Packed(d0, n0[j], size)
    ensures Packed(d, n[j], size)
  {
    hide Ptr, TreeOk;
    forall bn: nat
      ensures Ptr(d, n[j], bn) != 0 <==> bn * BSIZE < size
    {
      PtrIffRole(d0, nmeta, n0, role0, j, bn);
      PtrIffRole(d, nmeta, n, role, j, bn);
      assert Ptr(d0, n0[j], bn) != 0 <==> bn * BSIZE < size;
      if p :| 0 <= p < |role0| && role0[p] == Data(j, bn) {
        assert role[p] == Data(j, bn);
      }
      if p :| 0 <= p < |role| && role[p] == Data(j, bn) {
        assert role0[p] == Data(j, bn);
      }
    }
  }

  lemma AppendDone(d0: seq<Block>, n0: seq<Inode>, role0: seq<Owner>, freeblock0: nat, d: seq<Block>, nmeta: nat, n: seq<Inode>, role: seq<Owner>,
                   freeblock: nat, i: nat, p: seq<nat>)
    requires ImageOk(d0, nmeta, n0, role0, freeblock0) && AllPacked(d0, n0) && AllTailZero(d0, n0)
    requires ImageOk(d, nmeta, n, role, freeblock) && |n| == |n0| && i < |n| && n[i].size == n0[i].size
    requires OthersSame(d0, n0, d, n, i) && OnlyGains(role0, role, i)
    requires Wrote(d0, n0[i], d, n[i], n0[i].size, |p|, p) && Packed(d, n[i], n0[i].size + |p|)
    ensures
      var n' := n[i := n[i].(size := n0[i].size + |p|)];
      && ImageOk(d, nmeta, n', role, freeblock) && AllPacked(d, n') && AllTailZero(d, n')
      && Appended(d0, n0, d, n', i, p)
  {
    var size := n0[i].size + |p|;
    var n' := n[i := n[i].(size := size)];
    Resize(d, nmeta, n, role, i, size);
    SameByte(d, n[i], size);
    SizeIrrelevant(d, n[i], size, size);
    assert |d| == |role0| == |d0| by {
      assert Shape(d0, nmeta, role0) && Shape(d, nmeta, role);
    }
    hide TreeOk, Ptr, Byte;
    forall j | 0 <= j < |n'|
      ensures Packed(d, n'[j], n'[j].size) && TailZero(d, n'[j])
    {
      if j != i {
        hide Packed;
        StillPacked(d0, nmeta, n0, role0, d, n', role, i, j, n0[j].size);
        assert FileStays(d0, n0[j], d, n[j]);
        assert TailZero(d0, n0[j]);
      } else {
        assert TailZero(d0, n0[i]);
      }
    }
    hide Packed, ImageOk, TailZero;
    FileAfterAppend(d0, n0[i], d, n'[i], p);
    forall j | 0 <= j < |n'| && j != i
      ensures File(d, n'[j]) == File(d0, n0[j])
    {
      SameFile(d0, n0[j], d, n[j]);
    }
  }

  lemma SameFile(d0: seq<Block>, ino0: Inode, d: seq<Block>, ino: Inode)
    requires SameBytes(d0, ino0, d, ino) && ino.size == ino0.size
    ensures File(d, ino) == File(d0, ino0)
  {
    hide Byte;
    forall k | 0 <= k < ino.size
      ensures File(d, ino)[k] == File(d0, ino0)[k]
    {
      assert Byte(d, ino, k) == Byte(d0, ino0, k);
    }
  }

  lemma FileAfterAppend(d0: seq<Block>, ino0: Inode, d: seq<Block>, ino: Inode, p: seq<nat>)
    requires Wrote(d0, ino0, d, ino, ino0.size, |p|, p) && ino.size == ino0.size + |p|
    ensures File(d, ino) == File(d0, ino0) + p
  {
    FileAfterWrite(d0, ino0, d, ino, ino0.size, |p|, p);
    assert p[..|p|] == p && File(d0, ino0)[..ino0.size] == File(d0, ino0);
  }

  // ----- main -----

  ghost function Concat(parts: seq<seq<nat>>): seq<nat> {
    if parts == [] then [] else Concat(parts[..|parts| - 1]) + parts[|parts| - 1]
  }

  lemma Blank(d: seq<Block>, nmeta: nat, n: seq<Inode>, role: seq<Owner>)
    requires 0 < nmeta <= |d| == |role| && |d| <= UINTS
    requires forall p :: 0 <= p < |d| ==> |d[p]| == BSIZE && role[p] == if p < nmeta then Meta else Unused
    requires forall p :: nmeta <= p < |d| ==> d[p] == ZEROBLOCK
    requires forall i :: 0 <= i < |n| ==> n[i] == EMPTY
    ensures ImageOk(d, nmeta, n, role, nmeta) && AllPacked(d, n) && AllTailZero(d, n)
    ensures forall i :: 0 <= i < |n| ==> File(d, n[i]) == []
  {
    EmptyFile(d, role);
    hide Ptr, Byte, InodeOk, Packed, TailZero;
    forall i | 0 <= i < |n|
      ensures InodeOk(d, role, i, n[i])
    {
      EmptyInode(d, role, i);
    }
  }

  lemma EmptyInode(d: seq<Block>, role: seq<Owner>, i: nat)
    ensures InodeOk(d, role, i, EMPTY)
  {
    assert forall bn: nat :: Ptr(d, EMPTY, bn) == 0;
    hide Ptr;
  }

  lemma EmptyFile(d: seq<Block>, role: seq<Owner>)
    ensures Packed(d, EMPTY, 0) && TailZero(d, EMPTY) && EMPTY.size == 0
  {
    assert forall bn: nat :: Ptr(d, EMPTY, bn) == 0;
    hide Ptr;
  }

  lemma AppendedNothing(d: seq<Block>, n: seq<Inode>, i: nat)
    requires i < |n|
    ensures Appended(d, n, d, n, i, [])
  {
    hide File;
    assert File(d, n[i]) + [] == File(d, n[i]);
  }

  lemma AppendedMore(d0: seq<Block>, n0: seq<Inode>, d1: seq<Block>, n1: seq<Inode>, d2: seq<Block>, n2: seq<Inode>, i: nat,
                     p: seq<nat>, q: seq<nat>)
    requires Appended(d0, n0, d1, n1, i, p) && Appended(d1, n1, d2, n2, i, q)
    ensures |n2| == |n0| && Appended(d0, n0, d2, n2, i, p + q)
  {
    hide File;
    assert File(d0, n0[i]) + p + q == File(d0, n0[i]) + (p + q);
  }

  /** The first n bits of a bitmap block are set. */
  ghost predicate BitsTo(buf: Block, n: nat) {
    |buf| == BSIZE && forall q: nat :: q < BPB ==> (Bit(buf[q / 8], q % 8) <==> q < n)
  }

  lemma MapStart(d: seq<Block>, nmeta: nat, start: nat, n: seq<Inode>, role: seq<Owner>, freeblock: nat)
    requires ImageOk(d, nmeta, n, role, freeblock) && MapInMeta(start, nmeta, |d|)
    ensures start < nmeta <= |d|
  {
    assert start + 0 / BPB < nmeta;
  }

  lemma NoBits(buf: Block)
    requires IsZero(buf)
    ensures BitsTo(buf, 0)
  {
    forall q: nat | q < BPB
      ensures !Bit(buf[q / 8], q % 8)
    {
      ZeroBits(q % 8);
    }
  }

  lemma OneBit(buf: Block, i: nat)
    requires BitsTo(buf, i) && i < BPB
    ensures |buf| == BSIZE && i / 8 < BSIZE && BitsTo(buf[i / 8 := SetBit(buf[i / 8], i % 8)], i + 1)
  {
    var buf' := buf[i / 8 := SetBit(buf[i / 8], i % 8)];
    hide Bit, SetBit;
    forall q: nat | q < BPB
      ensures Bit(buf'[q / 8], q % 8) <==> q < i + 1
    {
      BitAfterSet(buf[i / 8], i % 8, q % 8);
    }
  }

  lemma Marking(d: seq<Block>, nmeta: nat, start: nat, n: seq<Inode>, role: seq<Owner>, used: nat, buf: Block)
    requires ImageOk(d, nmeta, n, role, used) && MapInMeta(start, nmeta, |d|) && used < BPB && BitsTo(buf, used)
    requires MapZero(d, start, nmeta)
    ensures start < nmeta <= |d| && StoreOk(d[start := buf], nmeta, start, Ghosts(role, n, {}))
    ensures AllSame(d, n, d[start := buf], n)
  {
    MapStart(d, nmeta, start, n, role, used);
    assert Shape(d, nmeta, role);
    var d' := d[start := buf];
    OutsideChange(d, nmeta, n, role, d', role);
    hide TreeOk, AllSame, Marked, BitsTo;
    forall p: nat | p < |role|
      ensures Marked(d', start, p) <==> role[p] != Unused
    {
      assert start + p / BPB < nmeta;
      OneMark(d', start, used, p);
    }
  }

  lemma OneMark(d: seq<Block>, start: nat, used: nat, p: nat)
    requires start + p / BPB < |d| && used < BPB && BitsTo(d[start], used)
    requires p >= BPB ==> IsZero(d[start + p / BPB])
    ensures Marked(d, start, p) <==> p < used
  {
    hide Bit;
    if p < BPB {
      assert p / BPB == 0 && p % BPB == p;
    } else {
      ZeroBits(p % BPB % 8);
    }
  }

  lemma {:induction false} EntryBytes(entries: seq<seq<nat>>)
    requires forall k :: 0 <= k < |entries| ==> |entries[k]| == DIRENT
    ensures |Concat(entries)| == DIRENT * |entries|
  {
    if entries != [] {
      EntryBytes(entries[..|entries| - 1]);
    }
  }

  /** The root directory holds `content` and zeros up to its rounded size; it has a hole exactly when the
      content ends on a block boundary. */
  ghost predicate RootBuilt(d: seq<Block>, ino: Inode, content: seq<nat>) {
    && ino.size == (|content| / BSIZE + 1) * BSIZE
    && (forall k: nat :: k < ino.size ==> Byte(d, ino, k) == if k < |content| then content[k] else 0)
    && (forall k: nat :: k < ino.size ==> (Ptr(d, ino, k / BSIZE) == 0 <==> |content| % BSIZE == 0 && k >= |content|))
    && (HoleFree(d, ino, 0, ino.size) <==> |content| % BSIZE != 0)
  }

  lemma PackedBound(d: seq<Block>, ino: Inode, size: nat)
    requires Packed(d, ino, size)
    ensures size <= MAXFILE * BSIZE
  {
    assert Ptr(d, ino, MAXFILE) == 0;
  }

  lemma PackedHoleFree(d: seq<Block>, ino: Inode, size: nat)
    requires Packed(d, ino, size)
    ensures HoleFree(d, ino, 0, size)
  {
    hide Ptr;
    forall k: nat | k < size
      ensures Ptr(d, ino, k / BSIZE) != 0
    {
      assert k / BSIZE * BSIZE < size;
    }
  }

  /** Rounding the size up past the last block makes a hole exactly when the old size was a whole number of blocks. */
  lemma RoundedHole(d: seq<Block>, ino: Inode, size: nat)
    requires Packed(d, ino, size)
    ensures HoleFree(d, ino, 0, (size / BSIZE + 1) * BSIZE) <==> size % BSIZE != 0
    ensures forall k: nat :: k < (size / BSIZE + 1) * BSIZE ==> (Ptr(d, ino, k / BSIZE) == 0 <==> size % BSIZE == 0 && k >= size)
  {
    hide Ptr;
    var rounded := (size / BSIZE + 1) * BSIZE;
    forall k: nat | k < rounded
      ensures Ptr(d, ino, k / BSIZE) == 0 <==> size % BSIZE == 0 && k >= size
    {
      assert k / BSIZE * BSIZE < size <==> size % BSIZE != 0 || k < size;
    }
    assert size < rounded && (size % BSIZE == 0 ==> Ptr(d, ino, size / BSIZE) == 0);
  }

  lemma MapPlace(size: nat, start: nat, nmeta: nat)
    requires nmeta == start + (size / BPB + 1)
    ensures MapInMeta(start, nmeta, size)
  {
    forall p: nat | p < size
      ensures start + p / BPB < nmeta
    {
      assert p / BPB <= size / BPB;
    }
  }

  lemma FileLength(d: seq<Block>, ino: Inode, content: seq<nat>)
    requires File(d, ino) == content
    ensures ino.size == |content|
  {
  }

  lemma Rounding(d: seq<Block>, nmeta: nat, n: seq<Inode>, role: seq<Owner>, freeblock: nat, size: nat)
    requires ImageOk(d, nmeta, n, role, freeblock) && ROOTINO < |n|
    ensures ImageOk(d, nmeta, n[ROOTINO := n[ROOTINO].(size := size)], role, freeblock)
  {
    Resize(d, nmeta, n, role, ROOTINO, size);
    hide TreeOk;
  }

  /** What mkfs leaves behind. */
  lemma Built(d1: seq<Block>, n1: seq<Inode>, d: seq<Block>, n: seq<Inode>, role: seq<Owner>, nmeta: nat, start: nat, freeblock: nat,
              content: seq<nat>)
    requires ImageOk(d1, nmeta, n1, role, freeblock) && AllPacked(d1, n1) && AllTailZero(d1, n1) && |n1| == NINODES
    requires File(d1, n1[ROOTINO]) == content && |content| <= DIRENT * NINODES
    requires n == n1[ROOTINO := n1[ROOTINO].(size := (|content| / BSIZE + 1) * BSIZE)]
    requires StoreOk(d, nmeta, start, Ghosts(role, n, {})) && AllSame(d1, n, d, n) && ImageOk(d1, nmeta, n, role, freeblock)
    ensures SizesOk(n) && NoneHeld(role) && RootBuilt(d, n[ROOTINO], content)
    ensures forall j :: 0 <= j < |n| && j != ROOTINO ==>
      File(d, n[j]) == File(d1, n1[j]) && HoleFree(d, n[j], 0, n[j].size)
  {
    forall j | 0 <= j < |n| && j != ROOTINO
      ensures File(d, n[j]) == File(d1, n1[j]) && HoleFree(d, n[j], 0, n[j].size) && n[j].size <= MAXFILE * BSIZE
    {
      FileStands(d1, d, n, role, nmeta, start, freeblock, j, n[j].size);
      SameFile(d1, n1[j], d, n[j]);
    }
    hide ImageOk, StoreOk, File, HoleFree, AllSame, Packed;
    assert Packed(d1, n1[ROOTINO], n1[ROOTINO].size);
    RootStands(d1, n1, d, n, role, nmeta, start, freeblock, content);
  }

  lemma FileStands(d1: seq<Block>, d: seq<Block>, n: seq<Inode>, role: seq<Owner>, nmeta: nat, start: nat, freeblock: nat, j: nat, size: nat)
    requires ImageOk(d1, nmeta, n, role, freeblock) && StoreOk(d, nmeta, start, Ghosts(role, n, {})) && AllSame(d1, n, d, n)
    requires j < |n| && Packed(d1, n[j], size)
    ensures Packed(d, n[j], size) && HoleFree(d, n[j], 0, size) && size <= MAXFILE * BSIZE
    ensures SameBytes(d1, n[j], d, n[j])
  {
    hide Packed, SameBytes, HoleFree, TreeOk;
    StillPacked(d1, nmeta, n, role, d, n, role, |n|, j, size);
    PackedHoleFree(d, n[j], size);
    PackedBound(d, n[j], size);
  }

  lemma RootStands(d1: seq<Block>, n1: seq<Inode>, d: seq<Block>, n: seq<Inode>, role: seq<Owner>, nmeta: nat, start: nat, freeblock: nat,
                   content: seq<nat>)
    requires |n1| == NINODES && File(d1, n1[ROOTINO]) == content && Packed(d1, n1[ROOTINO], n1[ROOTINO].size) && AllTailZero(d1, n1)
    requires n == n1[ROOTINO := n1[ROOTINO].(size := (|content| / BSIZE + 1) * BSIZE)]
    requires ImageOk(d1, nmeta, n, role, freeblock) && StoreOk(d, nmeta, start, Ghosts(role, n, {})) && AllSame(d1, n, d, n)
    ensures RootBuilt(d, n[ROOTINO], content)
  {
    hide ImageOk, StoreOk, AllSame, Packed, HoleFree, Byte;
    var ino, size := n[ROOTINO], (|content| / BSIZE + 1) * BSIZE;
    FileLength(d1, n1[ROOTINO], content);
    SizeIrrelevant(d1, n1[ROOTINO], |content|, size);
    FileStands(d1, d, n, role, nmeta, start, freeblock, ROOTINO, |content|);
    RoundedHole(d, ino, |content|);
    SameByte(d1, n1[ROOTINO], size);
    assert TailZero(d1, n1[ROOTINO]);
    forall k: nat | k < ino.size
      ensures Byte(d, ino, k) == if k < |content| then content[k] else 0
    {
      assert Byte(d, ino, k) == Byte(d1, n1[ROOTINO], k);
    }
  }

  lemma SizeIrrelevant(d: seq<Block>, ino: Inode, size: nat, other: nat)
    requires Packed(d, ino, size)
    ensures Packed(d, ino.(size := other), size)
  {
    assert forall bn: nat :: Ptr(d, ino.(size := other), bn) == Ptr(d, ino, bn);
    hide Ptr;
  }
}
