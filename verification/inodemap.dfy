/** On-disk layout of files (kernel/fs.h, kernel/fs.c): who owns each disk block, and what a file's bytes are.
    The disk here is the flat block map that the log and the buffer cache provide. */
module InodeMap {
  const BSIZE := 1024
  const NDIRECT := 12
  const NINDIRECT := 256
  const MAXFILE := NDIRECT + NINDIRECT
  /** One more than the largest unsigned 32-bit number. */
  const UINTS := 0x1_0000_0000

  type Block = seq<nat>

  const ZEROBLOCK: Block := seq(BSIZE, _ => 0)

  /** The block holds only zeros. */
  ghost predicate IsZero(b: Block) {
    |b| == BSIZE && forall j :: 0 <= j < |b| ==> b[j] == 0
  }

  /** The size and block addresses of a file; an address of 0 means no block. */
  datatype Inode = Inode(size: nat, addrs: seq<nat>)

  const EMPTY: Inode := Inode(0, seq(NDIRECT + 1, _ => 0))

  /** What a disk block is used for. */
  datatype Owner =
    | Unused
    | Meta                       // boot, super, log, inode and bitmap blocks
    | Held                       // allocated, not yet (or no longer) part of a file
    | Data(i: nat, bn: nat)      // block bn of file i
    | Indirect(i: nat)           // the indirect block of file i

  predicate Owns(o: Owner, i: nat) {
    match o
    case Data(j, _) => j == i
    case Indirect(j) => j == i
    case _ => false
  }

  // ----- Words of a block -----

  /** The j-th little-endian 32-bit word of a block. */
  function Word(b: Block, j: nat): nat {
    if 4 * j + 3 < |b| then b[4 * j] + 0x100 * b[4 * j + 1] + 0x1_0000 * b[4 * j + 2] + 0x100_0000 * b[4 * j + 3] else 0
  }

  function PutWord(b: Block, j: nat, x: nat): (r: Block)
    requires 4 * j + 3 < |b|
    ensures |r| == |b|
    ensures r[4 * j] == x % 256 && r[4 * j + 1] == x / 256 % 256 && r[4 * j + 2] == x / 65536 % 256 && r[4 * j + 3] == x / 16777216 % 256
  {
    var b1: Block := b[4 * j := x % 0x100];
    var b2: Block := b1[4 * j + 1 := x / 0x100 % 0x100];
    var b3: Block := b2[4 * j + 2 := x / 0x1_0000 % 0x100];
    b3[4 * j + 3 := x / 0x100_0000 % 0x100]
  }

  lemma Bytes4(x: nat)
    requires x < UINTS
    ensures x % 0x100 + 0x100 * (x / 0x100 % 0x100) + 0x1_0000 * (x / 0x1_0000 % 0x100) + 0x100_0000 * (x / 0x100_0000 % 0x100) == x
  {
    assert x / 0x100 / 0x100 == x / 0x1_0000;
    assert x / 0x1_0000 / 0x100 == x / 0x100_0000;
  }

  /** A word written is read back; the others are unchanged. */
  lemma WordRoundTrip(b: Block, j: nat, x: nat)
    requires 4 * j + 3 < |b| && x < UINTS
    ensures Word(PutWord(b, j, x), j) == x
    ensures forall k: nat :: k != j ==> Word(PutWord(b, j, x), k) == Word(b, k)
  {
    Bytes4(x);
  }

  lemma ZeroWords(b: Block)
    requires IsZero(b)
    ensures forall j: nat :: Word(b, j) == 0
  {
  }

  // ----- The map from file blocks to disk blocks -----

  /** The disk block holding block bn of a file, or 0. */
  function Ptr(disk: seq<Block>, ino: Inode, bn: nat): nat {
    if |ino.addrs| != NDIRECT + 1 then 0
    else if bn < NDIRECT then ino.addrs[bn]
    else if bn < MAXFILE && 0 < ino.addrs[NDIRECT] < |disk| then Word(disk[ino.addrs[NDIRECT]], bn - NDIRECT)
    else 0
  }

  /** Byte k of a file; a missing block reads as zeros. */
  function Byte(disk: seq<Block>, ino: Inode, k: nat): nat {
    var a := Ptr(disk, ino, k / BSIZE);
    if 0 < a < |disk| && k % BSIZE < |disk[a]| then disk[a][k % BSIZE] else 0
  }

  /** The contents of a file. */
  function File(disk: seq<Block>, ino: Inode): seq<nat> {
    seq(ino.size, k requires 0 <= k => Byte(disk, ino, k))
  }

  ghost predicate InodeOk(disk: seq<Block>, role: seq<Owner>, i: nat, ino: Inode) {
    && |ino.addrs| == NDIRECT + 1
    && (ino.addrs[NDIRECT] != 0 ==> ino.addrs[NDIRECT] < |role| && role[ino.addrs[NDIRECT]] == Indirect(i))
    && forall bn: nat :: PtrOk(disk, role, i, ino, bn)
  }

  ghost predicate PtrOk(disk: seq<Block>, role: seq<Owner>, i: nat, ino: Inode, bn: nat) {
    var a := Ptr(disk, ino, bn);
    a != 0 ==> bn < MAXFILE && a < |role| && role[a] == Data(i, bn)
  }

  /** A block's role is backed by the file it names. */
  ghost predicate OwnerOk(disk: seq<Block>, inodes: seq<Inode>, o: Owner, p: nat) {
    match o
    case Data(i, bn) => i < |inodes| && bn < MAXFILE && Ptr(disk, inodes[i], bn) == p
    case Indirect(i) => i < |inodes| && |inodes[i].addrs| == NDIRECT + 1 && inodes[i].addrs[NDIRECT] == p
    case _ => true
  }

  ghost predicate Shape(disk: seq<Block>, nmeta: nat, role: seq<Owner>) {
    && 0 < nmeta <= |disk| == |role| && |disk| <= UINTS
    && (forall p :: 0 <= p < |disk| ==> |disk[p]| == BSIZE)
    && (forall p :: 0 <= p < |role| ==> (role[p] == Meta <==> p < nmeta))
  }

  /** Every block is metadata, unused, or part of exactly one place in one file. */
  ghost predicate TreeOk(disk: seq<Block>, nmeta: nat, inodes: seq<Inode>, role: seq<Owner>) {
    && Shape(disk, nmeta, role)
    && (forall p :: 0 <= p < |role| ==> OwnerOk(disk, inodes, role[p], p))
    && (forall i :: 0 <= i < |inodes| ==> InodeOk(disk, role, i, inodes[i]))
  }

  // ----- Holes -----

  /** Every byte from lo to hi is in a block of the file. */
  ghost predicate HoleFree(disk: seq<Block>, ino: Inode, lo: nat, hi: nat) {
    forall k: nat :: lo <= k < hi ==> Ptr(disk, ino, k / BSIZE) != 0
  }

  /** Files without holes stay without holes. */
  ghost predicate NoNewHoles(disk: seq<Block>, inodes: seq<Inode>, disk': seq<Block>, inodes': seq<Inode>) {
    && |inodes'| == |inodes|
    && forall j :: 0 <= j < |inodes| && HoleFree(disk, inodes[j], 0, inodes[j].size) ==> HoleFree(disk', inodes'[j], 0, inodes'[j].size)
  }

  lemma OthersNoHoles(disk: seq<Block>, inodes: seq<Inode>, disk': seq<Block>, inodes': seq<Inode>, i: nat)
    requires OthersSame(disk, inodes, disk', inodes', i) && i < |inodes|
    requires HoleFree(disk, inodes[i], 0, inodes[i].size) ==> HoleFree(disk', inodes'[i], 0, inodes'[i].size)
    ensures NoNewHoles(disk, inodes, disk', inodes')
  {
    hide Ptr;
    forall j | 0 <= j < |inodes| && HoleFree(disk, inodes[j], 0, inodes[j].size)
      ensures HoleFree(disk', inodes'[j], 0, inodes'[j].size)
    {
      if j != i {
        assert FileStays(disk, inodes[j], disk', inodes'[j]);
      }
    }
  }

  lemma AllSameNoHoles(disk: seq<Block>, inodes: seq<Inode>, disk': seq<Block>, inodes': seq<Inode>)
    requires AllSame(disk, inodes, disk', inodes')
    ensures NoNewHoles(disk, inodes, disk', inodes')
  {
    hide Ptr;
    forall j | 0 <= j < |inodes| && HoleFree(disk, inodes[j], 0, inodes[j].size)
      ensures HoleFree(disk', inodes'[j], 0, inodes'[j].size)
    {
      assert FileStays(disk, inodes[j], disk', inodes'[j]);
    }
  }

  // ----- Framing -----

  ghost predicate OthersKept(disk: seq<Block>, role: seq<Owner>, disk': seq<Block>, role': seq<Owner>, i: nat) {
    && |disk'| == |disk| == |role| == |role'|
    && forall p, j :: 0 <= p < |disk| && j != i && (Owns(role[p], j) || Owns(role'[p], j)) ==>
         role'[p] == role[p] && disk'[p] == disk[p]
  }

  ghost predicate OnlyInode(a: seq<Inode>, b: seq<Inode>, i: nat) {
    |a| == |b| && forall j :: 0 <= j < |a| && j != i ==> b[j] == a[j]
  }

  ghost predicate SameBytes(disk: seq<Block>, ino: Inode, disk': seq<Block>, ino': Inode) {
    forall k: nat :: Byte(disk', ino', k) == Byte(disk, ino, k)
  }

  /** No block of the file has moved or gone. */
  ghost predicate PtrsStay(disk: seq<Block>, ino: Inode, disk': seq<Block>, ino': Inode) {
    forall bn: nat :: Ptr(disk, ino, bn) != 0 ==> Ptr(disk', ino', bn) == Ptr(disk, ino, bn)
  }

  ghost predicate FileStays(disk: seq<Block>, ino: Inode, disk': seq<Block>, ino': Inode) {
    SameBytes(disk, ino, disk', ino') && PtrsStay(disk, ino, disk', ino')
  }

  lemma SamePtrs(disk: seq<Block>, role: seq<Owner>, disk': seq<Block>, role': seq<Owner>, i: nat, j: nat, ino: Inode)
    requires InodeOk(disk, role, j, ino) && OthersKept(disk, role, disk', role', i) && j != i
    ensures forall bn: nat :: Ptr(disk', ino, bn) == Ptr(disk, ino, bn)
  {
    var a := ino.addrs[NDIRECT];
    if a != 0 {
      assert Owns(role[a], j);
    }
  }

  lemma OtherInodeKept(disk: seq<Block>, role: seq<Owner>, disk': seq<Block>, role': seq<Owner>, i: nat, j: nat, ino: Inode)
    requires InodeOk(disk, role, j, ino) && OthersKept(disk, role, disk', role', i) && j != i
    ensures InodeOk(disk', role', j, ino) && FileStays(disk, ino, disk', ino)
  {
    SamePtrs(disk, role, disk', role', i, j, ino);
    hide Ptr;
    var a := ino.addrs[NDIRECT];
    if a != 0 {
      assert Owns(role[a], j);
    }
    forall bn: nat
      ensures PtrOk(disk', role', j, ino, bn)
      ensures Ptr(disk, ino, bn) != 0 ==> Ptr(disk, ino, bn) < |disk| && disk'[Ptr(disk, ino, bn)] == disk[Ptr(disk, ino, bn)]
    {
      assert PtrOk(disk, role, j, ino, bn);
      if Ptr(disk, ino, bn) != 0 {
        assert Owns(role[Ptr(disk, ino, bn)], j);
      }
    }
  }

  /** A change confined to one file, and to metadata, unused and held blocks, keeps the invariant and every other file. */
  lemma LocalChange(disk: seq<Block>, nmeta: nat, inodes: seq<Inode>, role: seq<Owner>,
                    disk': seq<Block>, inodes': seq<Inode>, role': seq<Owner>, i: nat)
    requires TreeOk(disk, nmeta, inodes, role) && Shape(disk', nmeta, role')
    requires OthersKept(disk, role, disk', role', i) && OnlyInode(inodes, inodes', i)
    requires i < |inodes'| ==> InodeOk(disk', role', i, inodes'[i])
    requires forall p :: 0 <= p < |role'| && Owns(role'[p], i) ==> OwnerOk(disk', inodes', role'[p], p)
    ensures TreeOk(disk', nmeta, inodes', role')
    ensures OthersSame(disk, inodes, disk', inodes', i)
  {
    forall j | 0 <= j < |inodes'| && j != i
      ensures InodeOk(disk', role', j, inodes'[j]) && FileStays(disk, inodes[j], disk', inodes'[j])
    {
      OtherInodeKept(disk, role, disk', role', i, j, inodes[j]);
    }
    hide FileStays, InodeOk;
    forall p | 0 <= p < |role'|
      ensures OwnerOk(disk', inodes', role'[p], p)
    {
      OwnerKept(disk, inodes, role, disk', inodes', role', i, p);
    }
  }

  /** Every file other than i has the same inode, and the same bytes in the blocks it had. */
  ghost predicate OthersSame(disk: seq<Block>, inodes: seq<Inode>, disk': seq<Block>, inodes': seq<Inode>, i: nat) {
    && |inodes'| == |inodes|
    && forall j :: 0 <= j < |inodes| && j != i ==> inodes'[j] == inodes[j] && FileStays(disk, inodes[j], disk', inodes'[j])
  }

  lemma OwnerKept(disk: seq<Block>, inodes: seq<Inode>, role: seq<Owner>,
                  disk': seq<Block>, inodes': seq<Inode>, role': seq<Owner>, i: nat, p: nat)
    requires p < |role'| == |role| == |disk| && OwnerOk(disk, inodes, role[p], p)
    requires OthersKept(disk, role, disk', role', i) && OnlyInode(inodes, inodes', i)
    requires forall j :: 0 <= j < |inodes| ==> InodeOk(disk, role, j, inodes[j])
    requires Owns(role'[p], i) ==> OwnerOk(disk', inodes', role'[p], p)
    ensures OwnerOk(disk', inodes', role'[p], p)
  {
    hide Ptr;
    var o := role'[p];
    if o.Data? && o.i != i {
      assert Owns(o, o.i);
      SamePtrs(disk, role, disk', role', i, o.i, inodes[o.i]);
    } else if o.Indirect? && o.i != i {
      assert Owns(o, o.i);
    }
  }

  // ----- Changes outside files -----

  ghost predicate InFile(o: Owner) {
    o.Data? || o.Indirect?
  }

  /** Blocks of files keep their contents, and no block enters or leaves a file. */
  ghost predicate FilesKept(disk: seq<Block>, role: seq<Owner>, disk': seq<Block>, role': seq<Owner>) {
    && |disk'| == |disk| == |role| == |role'|
    && forall p :: 0 <= p < |disk| && (InFile(role[p]) || InFile(role'[p])) ==> role'[p] == role[p] && disk'[p] == disk[p]
  }

  ghost predicate AllSame(disk: seq<Block>, inodes: seq<Inode>, disk': seq<Block>, inodes': seq<Inode>) {
    && |inodes'| == |inodes|
    && forall j :: 0 <= j < |inodes| ==> inodes'[j].size == inodes[j].size && FileStays(disk, inodes[j], disk', inodes'[j])
  }

  lemma AllSameRefl(disk: seq<Block>, inodes: seq<Inode>)
    ensures AllSame(disk, inodes, disk, inodes)
  {
  }

  lemma StaysTrans(d0: seq<Block>, ino0: Inode, d1: seq<Block>, ino1: Inode, d2: seq<Block>, ino2: Inode)
    requires FileStays(d0, ino0, d1, ino1) && FileStays(d1, ino1, d2, ino2)
    ensures FileStays(d0, ino0, d2, ino2)
  {
    hide Byte, Ptr;
  }

  lemma AllSameTrans(d0: seq<Block>, n0: seq<Inode>, d1: seq<Block>, n1: seq<Inode>, d2: seq<Block>, n2: seq<Inode>)
    requires AllSame(d0, n0, d1, n1) && AllSame(d1, n1, d2, n2)
    ensures AllSame(d0, n0, d2, n2)
  {
    forall j | 0 <= j < |n0|
      ensures FileStays(d0, n0[j], d2, n2[j])
    {
      StaysTrans(d0, n0[j], d1, n1[j], d2, n2[j]);
    }
  }

  lemma OutsideChange(disk: seq<Block>, nmeta: nat, inodes: seq<Inode>, role: seq<Owner>, disk': seq<Block>, role': seq<Owner>)
    requires TreeOk(disk, nmeta, inodes, role) && Shape(disk', nmeta, role') && FilesKept(disk, role, disk', role')
    ensures TreeOk(disk', nmeta, inodes, role') && AllSame(disk, inodes, disk', inodes)
  {
    hide InodeOk, FileStays;
    var nobody := |inodes|;
    assert forall p :: 0 <= p < |role'| ==> !Owns(role'[p], nobody) by {
      forall p | 0 <= p < |role'|
        ensures !Owns(role'[p], nobody)
      {
        assert OwnerOk(disk, inodes, role[p], p);
      }
    }
    LocalChange(disk, nmeta, inodes, role, disk', inodes, role', nobody);
  }

  // ----- Changes to one file -----

  /** A held block joins file i at the place named by o; the places the file had are as before. */
  lemma Joins(disk: seq<Block>, nmeta: nat, inodes: seq<Inode>, role: seq<Owner>,
              disk': seq<Block>, inodes': seq<Inode>, i: nat, b: nat, o: Owner)
    requires TreeOk(disk, nmeta, inodes, role) && i < |inodes| && b < |role| && role[b] == Held && Owns(o, i)
    requires |disk'| == |disk| && OnlyInode(inodes, inodes', i) && InodeOk(disk', role[b := o], i, inodes'[i])
    requires forall p :: 0 <= p < |disk| ==> |disk'[p]| == BSIZE && (role[p] != Indirect(i) ==> disk'[p] == disk[p])
    requires OwnerOk(disk', inodes', o, b)
    requires inodes[i].addrs[NDIRECT] != 0 ==> inodes'[i].addrs[NDIRECT] == inodes[i].addrs[NDIRECT]
    requires forall bn: nat :: Ptr(disk, inodes[i], bn) != 0 ==> Ptr(disk', inodes'[i], bn) == Ptr(disk, inodes[i], bn)
    ensures TreeOk(disk', nmeta, inodes', role[b := o]) && OthersSame(disk, inodes, disk', inodes', i)
  {
    assert |inodes'[i].addrs| == NDIRECT + 1;
    hide InodeOk, FileStays, Ptr;
    var role' := role[b := o];
    assert Shape(disk, nmeta, role);
    forall p | 0 <= p < |role'| && Owns(role'[p], i)
      ensures OwnerOk(disk', inodes', role'[p], p)
    {
      if p != b {
        assert OwnerOk(disk, inodes, role[p], p);
        assert p != 0;
      }
    }
    LocalChange(disk, nmeta, inodes, role, disk', inodes', role', i);
  }

  ghost function WithAddr(inodes: seq<Inode>, i: nat, k: nat, b: nat): seq<Inode>
    requires i < |inodes| && k < |inodes[i].addrs|
  {
    inodes[i := inodes[i].(addrs := inodes[i].addrs[k := b])]
  }

  /** bmap, direct: a zeroed block fills a missing address. */
  lemma LinkDirect(disk: seq<Block>, nmeta: nat, inodes: seq<Inode>, role: seq<Owner>, i: nat, bn: nat, b: nat)
    requires TreeOk(disk, nmeta, inodes, role) && i < |inodes| && bn < NDIRECT && |inodes[i].addrs| == NDIRECT + 1
    requires inodes[i].addrs[bn] == 0 && b < |role| && role[b] == Held && IsZero(disk[b])
    ensures TreeOk(disk, nmeta, WithAddr(inodes, i, bn, b), role[b := Data(i, bn)])
    ensures AllSame(disk, inodes, disk, WithAddr(inodes, i, bn, b))
  {
    var ino, inodes', role' := inodes[i], WithAddr(inodes, i, bn, b), role[b := Data(i, bn)];
    var ino' := inodes'[i];
    assert b != 0 by {
      assert Shape(disk, nmeta, role);
    }
    assert InodeOk(disk, role, i, ino);
    forall k: nat
      ensures Ptr(disk, ino', k) == if k == bn then b else Ptr(disk, ino, k)
      ensures PtrOk(disk, role', i, ino', k)
    {
      assert PtrOk(disk, role, i, ino, k);
    }
    hide Ptr;
    Joins(disk, nmeta, inodes, role, disk, inodes', i, b, Data(i, bn));
    assert FileStays(disk, ino, disk, ino');
  }

  /** bmap, indirect block: a zeroed block maps nothing. */
  lemma LinkIndirect(disk: seq<Block>, nmeta: nat, inodes: seq<Inode>, role: seq<Owner>, i: nat, b: nat)
    requires TreeOk(disk, nmeta, inodes, role) && i < |inodes| && |inodes[i].addrs| == NDIRECT + 1
    requires inodes[i].addrs[NDIRECT] == 0 && b < |role| && role[b] == Held && IsZero(disk[b])
    ensures TreeOk(disk, nmeta, WithAddr(inodes, i, NDIRECT, b), role[b := Indirect(i)])
    ensures AllSame(disk, inodes, disk, WithAddr(inodes, i, NDIRECT, b))
  {
    var ino, inodes', role' := inodes[i], WithAddr(inodes, i, NDIRECT, b), role[b := Indirect(i)];
    var ino' := inodes'[i];
    assert InodeOk(disk, role, i, ino);
    ZeroWords(disk[b]);
    forall k: nat
      ensures Ptr(disk, ino', k) == Ptr(disk, ino, k)
      ensures PtrOk(disk, role', i, ino', k)
    {
      assert PtrOk(disk, role, i, ino, k);
    }
    hide Ptr;
    Joins(disk, nmeta, inodes, role, disk, inodes', i, b, Indirect(i));
    assert FileStays(disk, ino, disk, ino');
  }

  /** bmap, entry of the indirect block: a zeroed block fills a missing entry. */
  lemma LinkEntry(disk: seq<Block>, nmeta: nat, inodes: seq<Inode>, role: seq<Owner>, i: nat, j: nat, b: nat)
    requires TreeOk(disk, nmeta, inodes, role) && i < |inodes| && j < NINDIRECT && |inodes[i].addrs| == NDIRECT + 1
    requires 0 < inodes[i].addrs[NDIRECT] < |disk| && |disk[inodes[i].addrs[NDIRECT]]| == BSIZE
    requires Word(disk[inodes[i].addrs[NDIRECT]], j) == 0
    requires b < |role| && role[b] == Held && IsZero(disk[b])
    ensures
      var t := inodes[i].addrs[NDIRECT];
      var disk' := disk[t := PutWord(disk[t], j, b)];
      TreeOk(disk', nmeta, inodes, role[b := Data(i, NDIRECT + j)]) && AllSame(disk, inodes, disk', inodes)
  {
    var ino, t, bn := inodes[i], inodes[i].addrs[NDIRECT], NDIRECT + j;
    var page := PutWord(disk[t], j, b);
    var disk' := disk[t := page];
    var role' := role[b := Data(i, bn)];
    assert Shape(disk, nmeta, role) && InodeOk(disk, role, i, ino);
    WordRoundTrip(disk[t], j, b);
    hide Word, PutWord;
    forall k: nat
      ensures Ptr(disk', ino, k) == if k == bn then b else Ptr(disk, ino, k)
      ensures PtrOk(disk', role', i, ino, k)
    {
      assert PtrOk(disk, role, i, ino, k);
    }
    assert Ptr(disk, ino, bn) == 0;
    hide Ptr;
    Joins(disk, nmeta, inodes, role, disk', inodes, i, b, Data(i, bn));
    forall k: nat
      ensures Byte(disk', ino, k) == Byte(disk, ino, k)
    {
      assert PtrOk(disk, role, i, ino, k / BSIZE);
    }
    assert FileStays(disk, ino, disk', ino);
  }

  /** writei: overwriting a data block of file i changes those bytes of that file and nothing else. */
  lemma WriteData(disk: seq<Block>, nmeta: nat, inodes: seq<Inode>, role: seq<Owner>, i: nat, bn: nat, page: Block)
    requires TreeOk(disk, nmeta, inodes, role) && i < |inodes| && |page| == BSIZE
    requires Ptr(disk, inodes[i], bn) != 0
    ensures Ptr(disk, inodes[i], bn) < |disk|
    ensures
      var disk' := disk[Ptr(disk, inodes[i], bn) := page];
      && TreeOk(disk', nmeta, inodes, role) && OthersSame(disk, inodes, disk', inodes, i)
      && (forall n: nat :: Ptr(disk', inodes[i], n) == Ptr(disk, inodes[i], n))
      && forall k: nat :: Byte(disk', inodes[i], k) == if k / BSIZE == bn then page[k % BSIZE] else Byte(disk, inodes[i], k)
  {
    var ino := inodes[i];
    var a := Ptr(disk, ino, bn);
    assert Shape(disk, nmeta, role) && InodeOk(disk, role, i, ino) && PtrOk(disk, role, i, ino, bn);
    var disk' := disk[a := page];
    assert forall n: nat :: Ptr(disk', ino, n) == Ptr(disk, ino, n);
    hide Ptr;
    forall n: nat
      ensures PtrOk(disk', role, i, ino, n)
      ensures Ptr(disk, ino, n) == a ==> n == bn
    {
      assert PtrOk(disk, role, i, ino, n);
    }
    assert InodeOk(disk', role, i, ino);
    assert forall p :: 0 <= p < |role| && Owns(role[p], i) ==> OwnerOk(disk, inodes, role[p], p);
    hide InodeOk;
    LocalChange(disk, nmeta, inodes, role, disk', inodes, role, i);
  }

  lemma Resize(disk: seq<Block>, nmeta: nat, inodes: seq<Inode>, role: seq<Owner>, i: nat, size: nat)
    requires TreeOk(disk, nmeta, inodes, role) && i < |inodes|
    ensures TreeOk(disk, nmeta, inodes[i := inodes[i].(size := size)], role)
    ensures SameBytes(disk, inodes[i], disk, inodes[i].(size := size))
  {
    var ino' := inodes[i].(size := size);
    var inodes' := inodes[i := ino'];
    assert forall bn: nat :: Ptr(disk, ino', bn) == Ptr(disk, inodes[i], bn);
    hide Ptr;
    assert InodeOk(disk, role, i, inodes[i]);
    assert InodeOk(disk, role, i, ino') by {
      forall bn: nat
        ensures PtrOk(disk, role, i, ino', bn)
      {
        assert PtrOk(disk, role, i, inodes[i], bn);
      }
    }
    hide InodeOk;
    forall p | 0 <= p < |role| && Owns(role[p], i)
      ensures OwnerOk(disk, inodes', role[p], p)
    {
      assert OwnerOk(disk, inodes, role[p], p);
    }
    LocalChange(disk, nmeta, inodes, role, disk, inodes', role, i);
  }

  // ----- Taking a file apart -----

  ghost function Detach(role: seq<Owner>, i: nat): seq<Owner> {
    seq(|role|, p requires 0 <= p < |role| => if Owns(role[p], i) then Held else role[p])
  }

  /** itrunc: the file's blocks are held by the kernel from the start and freed one by one. */
  lemma DetachKeeps(disk: seq<Block>, nmeta: nat, inodes: seq<Inode>, role: seq<Owner>, i: nat)
    requires TreeOk(disk, nmeta, inodes, role) && i < |inodes|
    ensures TreeOk(disk, nmeta, inodes[i := EMPTY], Detach(role, i))
    ensures OthersSame(disk, inodes, disk, inodes[i := EMPTY], i)
  {
    var inodes', role' := inodes[i := EMPTY], Detach(role, i);
    assert InodeOk(disk, role', i, EMPTY) by {
      assert forall bn: nat :: Ptr(disk, EMPTY, bn) == 0;
    }
    hide InodeOk, Ptr;
    LocalChange(disk, nmeta, inodes, role, disk, inodes', role', i);
  }
}
