/** The file system over the log: whatever crashes happen, recovery finds a consistent file system, that of the last
    transaction whose commit became durable.
    The blocks of the file system are bytes here. The log looks into none of them: the one block it reads, its header, is
    outside the file system and is a sequence of words in both. */
module FsCrash {
  import opened InodeMap
  import opened Bitmap
  import opened Inodes
  import opened FileIo
  import opened Counting
  import Bio
  import Crash
  import RedoLog
  import DirFile
  import Dirs
  import Params

  // ----- Inodes as bytes -----

  /** Words of an inode on disk; the first two hold type, device numbers and link count. */
  const INODEWORDS := 16

  /** Word f of an inode: its size, then its block addresses. */
  function Field(ino: Inode, f: nat): nat
    requires |ino.addrs| == NDIRECT + 1 && 2 <= f < INODEWORDS
  {
    if f == 2 then ino.size else ino.addrs[f - 3]
  }

  /** Byte k of a little-endian word. */
  function ByteAt(x: nat, k: nat): nat {
    if k == 0 then x % 0x100 else if k == 1 then x / 0x100 % 0x100 else if k == 2 then x / 0x1_0000 % 0x100 else x / 0x100_0000 % 0x100
  }

  ghost predicate InodeFits(ino: Inode) {
    |ino.addrs| == NDIRECT + 1 && ino.size < UINTS && forall k :: 0 <= k <= NDIRECT ==> ino.addrs[k] < UINTS
  }

  ghost predicate AllFit(inodes: seq<Inode>) {
    forall i :: 0 <= i < |inodes| ==> InodeFits(inodes[i])
  }

  /** Byte q of an inode block that holds the inodes from number `first` on. */
  function InodeByte(b: Block, inodes: seq<Inode>, first: nat, q: nat): nat
    requires q < |b| == BSIZE && forall i :: 0 <= i < |inodes| ==> |inodes[i].addrs| == NDIRECT + 1
  {
    var w := q / 4;
    if w % INODEWORDS >= 2 && first + w / INODEWORDS < |inodes|
    then ByteAt(Field(inodes[first + w / INODEWORDS], w % INODEWORDS), q % 4) else b[q]
  }

  /** iupdate for all inodes of a block: sizes and addresses are written over what the block held. */
  function EncodeInodes(b: Block, inodes: seq<Inode>, first: nat): (r: Block)
    requires |b| == BSIZE && forall i :: 0 <= i < |inodes| ==> |inodes[i].addrs| == NDIRECT + 1
    ensures |r| == BSIZE
  {
    seq(BSIZE, q requires 0 <= q < BSIZE => InodeByte(b, inodes, first, q))
  }

  /** Slot `slot` of an inode block holds the inode. */
  ghost predicate HasInode(b: Block, slot: nat, ino: Inode) {
    |ino.addrs| == NDIRECT + 1 && forall f :: 2 <= f < INODEWORDS ==> HasField(b, slot, ino, f)
  }

  ghost predicate HasField(b: Block, slot: nat, ino: Inode, f: nat)
    requires |ino.addrs| == NDIRECT + 1 && 2 <= f < INODEWORDS
  {
    Word(b, INODEWORDS * slot + f) == Field(ino, f)
  }

  /** A slot holds one inode only. */
  lemma OneInode(b: Block, slot: nat, x: Inode, y: Inode)
    requires HasInode(b, slot, x) && HasInode(b, slot, y)
    ensures x == y
  {
    hide Word;
    assert HasField(b, slot, x, 2) && HasField(b, slot, y, 2);
    forall k | 0 <= k <= NDIRECT
      ensures x.addrs[k] == y.addrs[k]
    {
      assert HasField(b, slot, x, 3 + k) && HasField(b, slot, y, 3 + k);
    }
    assert x.addrs == y.addrs;
  }

  lemma FieldByte(b: Block, inodes: seq<Inode>, first: nat, slot: nat, f: nat, k: nat)
    requires |b| == BSIZE && AllFit(inodes) && slot < IPB && first + slot < |inodes| && 2 <= f < INODEWORDS && k < 4
    ensures 4 * (INODEWORDS * slot + f) + k < BSIZE && |inodes[first + slot].addrs| == NDIRECT + 1
    ensures EncodeInodes(b, inodes, first)[4 * (INODEWORDS * slot + f) + k] == ByteAt(Field(inodes[first + slot], f), k)
  {
    var q := 4 * (INODEWORDS * slot + f) + k;
    InWord(INODEWORDS * slot + f, k, slot, f);
    assert InodeFits(inodes[first + slot]);
    hide AllFit, ByteAt;
    assert EncodeInodes(b, inodes, first)[q] == InodeByte(b, inodes, first, q);
  }

  lemma FieldWord(b: Block, inodes: seq<Inode>, first: nat, slot: nat, f: nat)
    requires |b| == BSIZE && AllFit(inodes) && slot < IPB && first + slot < |inodes| && 2 <= f < INODEWORDS
    ensures |inodes[first + slot].addrs| == NDIRECT + 1
    ensures Word(EncodeInodes(b, inodes, first), INODEWORDS * slot + f) == Field(inodes[first + slot], f)
  {
    assert InodeFits(inodes[first + slot]);
    FieldByte(b, inodes, first, slot, f, 0);
    FieldByte(b, inodes, first, slot, f, 1);
    FieldByte(b, inodes, first, slot, f, 2);
    FieldByte(b, inodes, first, slot, f, 3);
    var r := EncodeInodes(b, inodes, first);
    assert |r| == BSIZE;
    hide EncodeInodes, Word, ByteAt, AllFit;
    WordOf(r, INODEWORDS * slot + f, Field(inodes[first + slot], f));
  }

  lemma WordOf(r: Block, j: nat, x: nat)
    requires 4 * j + 3 < |r| && x < UINTS
    requires r[4 * j] == ByteAt(x, 0) && r[4 * j + 1] == ByteAt(x, 1) && r[4 * j + 2] == ByteAt(x, 2) && r[4 * j + 3] == ByteAt(x, 3)
    ensures Word(r, j) == x
  {
    Bytes4(x);
  }

  lemma InWord(j: nat, k: nat, slot: nat, f: nat)
    requires j == INODEWORDS * slot + f && f < INODEWORDS && k < 4
    ensures (4 * j + k) / 4 == j && (4 * j + k) % 4 == k && j / INODEWORDS == slot && j % INODEWORDS == f
  {
  }

  /** An inode written into its block is there. */
  lemma InodeRoundTrip(b: Block, inodes: seq<Inode>, first: nat, slot: nat)
    requires |b| == BSIZE && AllFit(inodes) && slot < IPB && first + slot < |inodes|
    ensures HasInode(EncodeInodes(b, inodes, first), slot, inodes[first + slot])
  {
    var ino := inodes[first + slot];
    assert InodeFits(ino);
    hide EncodeInodes, Word, AllFit;
    forall f | 2 <= f < INODEWORDS
      ensures HasField(EncodeInodes(b, inodes, first), slot, ino, f)
    {
      FieldWord(b, inodes, first, slot, f);
    }
  }

  /** Where the fields of an inode are, in 32-bit words from the start of its 64 bytes: the size in word 2, the thirteen
      addresses from word 3 on. */
  lemma InodeLayout(b: Block, slot: nat, ino: Inode)
    requires HasInode(b, slot, ino)
    ensures Word(b, 16 * slot + 2) == ino.size && |ino.addrs| == 13
    ensures forall k :: 0 <= k < 13 ==> Word(b, 16 * slot + 3 + k) == ino.addrs[k]
  {
    hide Word;
    assert HasField(b, slot, ino, 2);
    forall k | 0 <= k < 13
      ensures Word(b, 16 * slot + 3 + k) == ino.addrs[k]
    {
      assert HasField(b, slot, ino, k + 3);
    }
  }

  // ----- A file system in an image of the disk -----

  predicate IsInodeBlock(p: nat, inodestart: nat, ninodes: nat) {
    inodestart <= p && (p - inodestart) * IPB < ninodes
  }

  /** The image holds the file system: its blocks, and its inodes in the inode blocks. */
  ghost predicate Holds(img: seq<Block>, s: Snap, inodestart: nat) {
    && |img| == |s.disk|
    && (forall p :: 0 <= p < |img| ==> |img[p]| == BSIZE && (!IsInodeBlock(p, inodestart, |s.dinodes|) ==> img[p] == s.disk[p]))
    && forall j :: 0 <= j < |s.dinodes| ==> InodeAt(img, j, inodestart, s.dinodes[j])
  }

  ghost predicate InodeAt(img: seq<Block>, j: nat, inodestart: nat, ino: Inode) {
    inodestart + j / IPB < |img| && HasInode(img[inodestart + j / IPB], j % IPB, ino)
  }

  ghost predicate SnapFits(s: Snap) {
    AllFit(s.dinodes) && forall p :: 0 <= p < |s.disk| ==> |s.disk[p]| == BSIZE
  }

  /** What block p holds for the file system s; b is what it held before. */
  ghost function Content(b: Block, s: Snap, p: nat, inodestart: nat): (r: Block)
    requires |b| == BSIZE && p < |s.disk| && SnapFits(s)
    ensures |r| == BSIZE
  {
    if IsInodeBlock(p, inodestart, |s.dinodes|) then EncodeInodes(b, s.dinodes, (p - inodestart) * IPB) else s.disk[p]
  }

  /** The image after the logged blocks are written. */
  ghost function Written(img: seq<Block>, s: Snap, l: set<nat>, inodestart: nat): (r: seq<Block>)
    requires SnapFits(s) && |img| == |s.disk| && forall p :: 0 <= p < |img| ==> |img[p]| == BSIZE
    ensures |r| == |img|
    ensures forall p :: 0 <= p < |r| ==> r[p] == if p in l then Content(img[p], s, p, inodestart) else img[p]
  {
    seq(|img|, p requires 0 <= p < |img| => if p in l then Content(img[p], s, p, inodestart) else img[p])
  }

  /** Writing the logged blocks of a transaction takes the image from the file system before to the one after. */
  lemma WrittenHolds(img: seq<Block>, a: Snap, b: Snap, l: set<nat>, inodestart: nat)
    requires Holds(img, a, inodestart) && Logs(a, b, l, inodestart) && SnapFits(b)
    requires forall j :: 0 <= j < |b.dinodes| ==> inodestart + j / IPB < |img|
    ensures Holds(Written(img, b, l, inodestart), b, inodestart)
  {
    var r := Written(img, b, l, inodestart);
    forall j | 0 <= j < |b.dinodes|
      ensures InodeAt(r, j, inodestart, b.dinodes[j])
    {
      InodeWritten(img, a, b, l, inodestart, j);
    }
    hide EncodeInodes, InodeAt, AllFit;
  }

  lemma WrittenAt(img: seq<Block>, s: Snap, l: set<nat>, inodestart: nat, p: nat)
    requires SnapFits(s) && |img| == |s.disk| && (forall p :: 0 <= p < |img| ==> |img[p]| == BSIZE) && p < |img|
    ensures |Written(img, s, l, inodestart)| == |img|
    ensures Written(img, s, l, inodestart)[p] == if p in l then Content(img[p], s, p, inodestart) else img[p]
  {
  }

  /** What the image and the log know about inode j. */
  lemma InodeKnown(img: seq<Block>, a: Snap, b: Snap, l: set<nat>, inodestart: nat, j: nat)
    requires Holds(img, a, inodestart) && Logs(a, b, l, inodestart) && j < |b.dinodes| && inodestart + j / IPB < |img|
    ensures HasInode(img[inodestart + j / IPB], j % IPB, a.dinodes[j])
    ensures inodestart + j / IPB !in l ==> b.dinodes[j] == a.dinodes[j]
  {
    hide HasInode;
    assert InodeAt(img, j, inodestart, a.dinodes[j]);
  }

  lemma InodeWritten(img: seq<Block>, a: Snap, b: Snap, l: set<nat>, inodestart: nat, j: nat)
    requires Holds(img, a, inodestart) && Logs(a, b, l, inodestart) && SnapFits(b)
    requires j < |b.dinodes| && inodestart + j / IPB < |img|
    ensures InodeAt(Written(img, b, l, inodestart), j, inodestart, b.dinodes[j])
  {
    hide HasInode, SnapFits, InodeAt, IsInodeBlock, Written, Content;
    var p := inodestart + j / IPB;
    InodeKnown(img, a, b, l, inodestart, j);
    WrittenAt(img, b, l, inodestart, p);
    hide Holds, Logs;
    if p in l {
      EncodedThere(img[p], b, p, inodestart, j);
    }
    PutThere(Written(img, b, l, inodestart), j, inodestart, b.dinodes[j]);
  }

  lemma PutThere(img: seq<Block>, j: nat, inodestart: nat, ino: Inode)
    requires inodestart + j / IPB < |img| && HasInode(img[inodestart + j / IPB], j % IPB, ino)
    ensures InodeAt(img, j, inodestart, ino)
  {
    hide HasInode;
  }

  lemma EncodedThere(b: Block, s: Snap, p: nat, inodestart: nat, j: nat)
    requires |b| == BSIZE && p < |s.disk| && SnapFits(s) && j < |s.dinodes| && p == inodestart + j / IPB
    ensures HasInode(Content(b, s, p, inodestart), j % IPB, s.dinodes[j])
  {
    hide HasInode, EncodeInodes, AllFit;
    InodePlace(j, inodestart);
    InodeRoundTrip(b, s.dinodes, j / IPB * IPB, j % IPB);
  }

  lemma InodePlace(j: nat, inodestart: nat)
    ensures j / IPB * IPB + j % IPB == j && (inodestart + j / IPB - inodestart) * IPB == j / IPB * IPB <= j
  {
  }

  /** A consistent file system fits its disk. */
  lemma MountableFits(s: Snap, nmeta: nat, start: nat)
    requires Mountable(s.disk, nmeta, start, s.dinodes)
    ensures SnapFits(s)
  {
    var role :| StoreOk(s.disk, nmeta, start, Ghosts(role, s.dinodes, {})) && NoneHeld(role);
    SameSize(s.disk, nmeta, start, Ghosts(role, s.dinodes, {}));
    forall i | 0 <= i < |s.dinodes|
      ensures InodeFits(s.dinodes[i])
    {
      AddrsFit(s.disk, nmeta, start, Ghosts(role, s.dinodes, {}), i);
    }
  }

  lemma AddrsFit(d: seq<Block>, nmeta: nat, start: nat, g: Ghosts, i: nat)
    requires StoreOk(d, nmeta, start, g) && SizesOk(g.view) && i < |g.view|
    ensures InodeFits(g.view[i])
  {
    assert InodeOk(d, g.role, i, g.view[i]) && Shape(d, nmeta, g.role);
    var ino := g.view[i];
    forall k: nat | k < NDIRECT
      ensures ino.addrs[k] < UINTS
    {
      DirectPtr(d, ino, k);
      assert PtrOk(d, g.role, i, ino, k);
    }
  }

  // ----- Runs -----

  /** A group of operations committed together: the file system after them and the blocks they logged. */
  datatype Txn = Txn(after: Snap, blocks: seq<nat>)

  /** A commit or a boot, stopped after k of its block writes. */
  datatype Event = Commit(txn: Txn, k: nat) | Boot(k: nat)

  /** Where everything is. */
  datatype Place = Place(lay: Crash.Layout, nmeta: nat, bmapstart: nat, inodestart: nat)

  /** The disk image of a file system. */
  datatype Fs = Fs(snap: Snap, img: seq<Block>)

  ghost predicate FsOk(pl: Place, fs: Fs) {
    && Holds(fs.img, fs.snap, pl.inodestart) && |fs.img| == pl.lay.size && pl.lay.Ok()
    && Mountable(fs.snap.disk, pl.nmeta, pl.bmapstart, fs.snap.dinodes)
    && forall j :: 0 <= j < |fs.snap.dinodes| ==> pl.inodestart + j / IPB < |fs.img|
  }

  /** The operations of the group logged every block they changed, all outside the log, and left a consistent file
      system. */
  ghost predicate TxnOk(pl: Place, fs: Fs, txn: Txn) {
    && Logs(fs.snap, txn.after, Elements(txn.blocks), pl.inodestart)
    && Mountable(txn.after.disk, pl.nmeta, pl.bmapstart, txn.after.dinodes)
    && |txn.blocks| <= pl.lay.logblocks && forall t :: 0 <= t < |txn.blocks| ==> pl.lay.Home(txn.blocks[t])
  }

  /** The file system after a transaction. */
  ghost function Apply(pl: Place, fs: Fs, txn: Txn): (r: Fs)
    requires FsOk(pl, fs) && TxnOk(pl, fs, txn)
    ensures FsOk(pl, r) && r.snap == txn.after
  {
    MountableFits(txn.after, pl.nmeta, pl.bmapstart);
    WrittenHolds(fs.img, fs.snap, txn.after, Elements(txn.blocks), pl.inodestart);
    Fs(txn.after, Written(fs.img, txn.after, Elements(txn.blocks), pl.inodestart))
  }

  /** The block updates the log is given for a transaction. */
  ghost function Updates(pl: Place, fs: Fs, txn: Txn): (tx: seq<Bio.Write>)
    requires FsOk(pl, fs) && TxnOk(pl, fs, txn)
    ensures |tx| == |txn.blocks| && Crash.TxOk(pl.lay, tx)
  {
    RedoLog.Group(Apply(pl, fs, txn).img, txn.blocks)
  }

  /** The event as the log sees it, and the file system that a recovery after it finds. */
  ghost predicate EventOk(pl: Place, fs: Fs, e: Event) {
    e.Commit? ==> TxnOk(pl, fs, e.txn)
  }

  ghost function LogEvent(pl: Place, fs: Fs, e: Event): Crash.Event
    requires FsOk(pl, fs) && EventOk(pl, fs, e)
  {
    match e
    case Commit(txn, k) => Crash.Commit(Updates(pl, fs, txn), k)
    case Boot(k) => Crash.Boot(k)
  }

  /** A commit counts from its header write on. */
  ghost function After(pl: Place, fs: Fs, e: Event): (r: Fs)
    requires FsOk(pl, fs) && EventOk(pl, fs, e)
    ensures FsOk(pl, r)
  {
    if e.Commit? && e.k > |e.txn.blocks| then Apply(pl, fs, e.txn) else fs
  }

  /** `fss[i]` is the file system that counts before event i, and `run[i]` the machine. */
  ghost predicate IsRun(pl: Place, fss: seq<Fs>, run: seq<Crash.Machine>, events: seq<Event>) {
    && |run| == |fss| == |events| + 1
    && FsOk(pl, fss[0]) && Crash.DiskOk(pl.lay, run[0].disk) && !run[0].up
    && Crash.SameHome(pl.lay, Crash.Recovered(pl.lay, run[0].disk), fss[0].img)
    && forall i :: 0 <= i < |events| ==> StepOk(pl, fss[i], fss[i + 1], run[i], run[i + 1], events[i])
  }

  ghost predicate StepOk(pl: Place, fs: Fs, fs': Fs, m: Crash.Machine, m': Crash.Machine, e: Event) {
    && FsOk(pl, fs) && EventOk(pl, fs, e) && fs' == After(pl, fs, e)
    && Crash.DiskOk(pl.lay, m.disk) && Crash.Enabled(pl.lay, m, LogEvent(pl, fs, e))
    && m' == Crash.Step(pl.lay, m, LogEvent(pl, fs, e))
  }

  /** Recovering now yields the file system that counts; while the machine is up its home blocks already are that. */
  ghost predicate Recovers(pl: Place, fs: Fs, m: Crash.Machine) {
    && FsOk(pl, fs) && Crash.DiskOk(pl.lay, m.disk)
    && Crash.SameHome(pl.lay, Crash.Recovered(pl.lay, m.disk), fs.img)
    && (m.up ==> m.disk[pl.lay.start][0] == 0 && Crash.SameHome(pl.lay, m.disk, fs.img))
  }

  /** Installing a transaction's updates on the old image gives the new image. */
  lemma UpdatesApply(pl: Place, fs: Fs, txn: Txn)
    requires FsOk(pl, fs) && TxnOk(pl, fs, txn)
    ensures Crash.SameHome(pl.lay, Bio.Replay(fs.img, Updates(pl, fs, txn)), Apply(pl, fs, txn).img)
  {
    var after := Apply(pl, fs, txn);
    hide Holds, Mountable, Logs, Bio.Replay;
    forall b | 0 <= b < pl.lay.size && pl.lay.Home(b)
      ensures Bio.Replay(fs.img, Updates(pl, fs, txn))[b] == after.img[b]
    {
      RedoLog.GroupReplays(fs.img, after.img, txn.blocks, b);
    }
  }

  lemma StepRecovers(pl: Place, fs: Fs, fs': Fs, m: Crash.Machine, m': Crash.Machine, e: Event)
    requires Recovers(pl, fs, m) && StepOk(pl, fs, fs', m, m', e)
    ensures Recovers(pl, fs', m')
  {
    var le := LogEvent(pl, fs, e);
    Crash.StepKeepsPromise(pl.lay, m, le, fs.img);
    hide FsOk, TxnOk, Crash.SameHome, Crash.Recovered, Crash.Step, Crash.DiskOk;
    if e.Commit? && e.k > |e.txn.blocks| {
      UpdatesApply(pl, fs, e.txn);
      var x := Bio.Replay(fs.img, Updates(pl, fs, e.txn));
      Crash.SameHomeTransitive(pl.lay, Crash.Recovered(pl.lay, m'.disk), x, fs'.img);
      if m'.up {
        Crash.SameHomeTransitive(pl.lay, m'.disk, x, fs'.img);
      }
    } else {
      RedoLog.ReplayNone(fs.img);
    }
  }

  /** In every run of transactions and boots, with crashes between any two block writes, recovery finds a consistent
      file system: the one after exactly the transactions whose header write finished. */
  lemma {:induction false} CrashConsistency(pl: Place, fss: seq<Fs>, run: seq<Crash.Machine>, events: seq<Event>)
    requires IsRun(pl, fss, run, events)
    ensures Recovers(pl, fss[|events|], run[|events|])
    ensures Mountable(fss[|events|].snap.disk, pl.nmeta, pl.bmapstart, fss[|events|].snap.dinodes)
  {
    if events != [] {
      var n := |events| - 1;
      assert IsRun(pl, fss[..n + 1], run[..n + 1], events[..n]);
      hide Recovers;
      CrashConsistency(pl, fss[..n + 1], run[..n + 1], events[..n]);
      assert StepOk(pl, fss[n], fss[n + 1], run[n], run[n + 1], events[n]);
      StepRecovers(pl, fss[n], fss[n + 1], run[n], run[n + 1], events[n]);
    }
  }

  // ----- Operations as transactions -----

  /** The log lies in front of inode blocks, bitmap and data. */
  ghost predicate PlaceOk(pl: Place) {
    pl.lay.start + pl.lay.logblocks < pl.inodestart && pl.lay.start + pl.lay.logblocks < pl.bmapstart
  }

  /** Operations in one group log what each of them logs. */
  lemma LogsTrans(a: Snap, b: Snap, c: Snap, l: set<nat>, m: set<nat>, inodestart: nat)
    requires Logs(a, b, l, inodestart) && Logs(b, c, m, inodestart)
    ensures Logs(a, c, l + m, inodestart)
  {
  }

  /** A transaction of filewrite that starts from a consistent file system is one the log makes atomic; any list of
      the blocks it logged will do. */
  lemma OpIsTxn(pl: Place, fs: Fs, op: Op, blocks: seq<nat>, ib: nat)
    requires FsOk(pl, fs) && PlaceOk(pl) && op.before == fs.snap && Logs(op.before, op.after, op.logged, pl.inodestart)
    requires Mountable(op.after.disk, pl.nmeta, pl.bmapstart, op.after.dinodes)
    requires InPlace(op.logged, ib, pl.bmapstart, pl.lay.size) && pl.inodestart <= ib < pl.lay.size
    requires Elements(blocks) == op.logged && |blocks| <= pl.lay.logblocks
    ensures TxnOk(pl, fs, Txn(op.after, blocks))
  {
    hide Logs, Mountable, Holds;
    forall t | 0 <= t < |blocks|
      ensures pl.lay.Home(blocks[t])
    {
      assert blocks[t] in Elements(blocks);
    }
  }

  /** The blocks in some order. */
  lemma {:induction false} Listed(l: set<nat>) returns (blocks: seq<nat>)
    ensures Elements(blocks) == l && |blocks| == |l|
    decreases |l|
  {
    if l == {} {
      blocks := [];
    } else {
      var b :| b in l;
      var rest := Listed(l - {b});
      blocks := rest + [b];
      assert Elements(blocks) == Elements(rest) + {b};
    }
  }

  /** The file layer mounted on the file system `fs`, on a disk that one bitmap block covers. */
  ghost predicate Mounted(f: Files, pl: Place, fs: Fs)
    reads f
  {
    && f.Valid() && f.Now() == fs.snap && FsOk(pl, fs) && PlaceOk(pl)
    && f.nmeta == pl.nmeta && f.bmapstart == pl.bmapstart && f.inodestart == pl.inodestart
    && |f.disk| <= BPB && pl.lay.logblocks >= Params.MAXOPBLOCKS
  }

  lemma MountedFacts(f: Files, pl: Place, fs: Fs, i: nat)
    requires Mounted(f, pl, fs) && i < |f.inodes|
    ensures f.DiskOk() && |f.disk| == pl.lay.size && pl.inodestart <= pl.inodestart + i / IPB < pl.lay.size
  {
    hide InodeAt, Mountable;
    assert i < |fs.snap.dinodes|;
    assert pl.inodestart + i / IPB < |fs.img|;
  }

  lemma StillMounted(f: Files, pl: Place, fs: Fs, txn: Txn)
    requires FsOk(pl, fs) && TxnOk(pl, fs, txn) && PlaceOk(pl) && pl.lay.size <= BPB && pl.lay.logblocks >= Params.MAXOPBLOCKS
    requires f.Valid() && f.Now() == txn.after
    requires f.nmeta == pl.nmeta && f.bmapstart == pl.bmapstart && f.inodestart == pl.inodestart
    ensures Mounted(f, pl, Apply(pl, fs, txn))
  {
    hide InodeAt, Mountable, TxnOk, StoreOk, SizesOk;
  }

  /** A transaction of filewrite, committed. */
  method WriteTxn(f: Files, i: nat, src: seq<nat>, offset: nat, ghost pl: Place, ghost fs: Fs) returns (r: int, ghost txn: Txn)
    requires Mounted(f, pl, fs) && i < |f.inodes| && offset < UINTS && |src| <= CHUNK
    modifies f
    ensures TxnOk(pl, fs, txn) && txn.after == f.Now() && FsOk(pl, fs) && Mounted(f, pl, Apply(pl, fs, txn))
    ensures r != -1 ==>
      0 <= r <= |src| && i < |f.inodes| && Wrote(old(f.disk), old(f.inodes[i]), f.disk, f.inodes[i], offset, r, src)
  {
    MountedFacts(f, pl, fs, i);
    hide StoreOk, Logs, Mountable, InPlace, Wrote, OthersSame, NoNewHoles, PtrsStay, HoleFree, FsOk, TxnOk, NoneFree;
    ghost var op;
    r, op := WriteChunk(f, i, src, offset);
    ghost var blocks := Listed(op.logged);
    OpIsTxn(pl, fs, op, blocks, f.inodestart + i / IPB);
    txn := Txn(op.after, blocks);
    StillMounted(f, pl, fs, txn);
  }

  /** The truncation of a file, committed. */
  method TruncTxn(f: Files, i: nat, ghost pl: Place, ghost fs: Fs) returns (ghost txn: Txn)
    requires Mounted(f, pl, fs) && i < |f.inodes|
    modifies f
    ensures TxnOk(pl, fs, txn) && txn.after == f.Now() && FsOk(pl, fs) && Mounted(f, pl, Apply(pl, fs, txn))
    ensures f.inodes == old(f.inodes)[i := EMPTY] && OthersSame(old(f.disk), old(f.inodes), f.disk, f.inodes, i)
  {
    MountedFacts(f, pl, fs, i);
    hide StoreOk, Logs, Mountable, InPlace, OthersSame, FsOk, TxnOk;
    ghost var op := TruncOp(f, i);
    ghost var blocks := Listed(op.logged);
    OpIsTxn(pl, fs, op, blocks, f.inodestart + i / IPB);
    txn := Txn(op.after, blocks);
    StillMounted(f, pl, fs, txn);
  }

  /** A name added to a directory without holes, committed. */
  method LinkTxn(f: Files, dp: nat, name: string, inum: nat, ghost pl: Place, ghost fs: Fs) returns (ok: bool, ghost txn: Txn)
    requires Mounted(f, pl, fs) && dp < |f.inodes| && f.inodes[dp].size % DirFile.DIRENT == 0
    requires Dirs.Unique(DirFile.SlotsOf(f.disk, f.inodes[dp])) && DirFile.Whole(f.disk, f.inodes[dp])
    requires 0 < inum < 0x1_0000 && forall k :: 0 <= k < |name| ==> name[k] as int < 256
    modifies f
    ensures TxnOk(pl, fs, txn) && txn.after == f.Now() && FsOk(pl, fs) && Mounted(f, pl, Apply(pl, fs, txn))
    ensures ok ==>
      dp < |f.inodes| && Dirs.DirMap(DirFile.SlotsOf(f.disk, f.inodes[dp]))
      == Dirs.DirMap(old(DirFile.SlotsOf(f.disk, f.inodes[dp])))[Dirs.Cut(name) := inum]
  {
    MountedFacts(f, pl, fs, dp);
    hide StoreOk, Logs, Mountable, InPlace, OthersSame, FsOk, TxnOk, DirFile.Whole, DirFile.SlotsOf, File, Dirs.Unique, Dirs.DirMap;
    ghost var op;
    var done;
    done, ok, op := DirFile.LinkOp(f, dp, name, inum);
    ghost var blocks := Listed(op.logged);
    OpIsTxn(pl, fs, op, blocks, f.inodestart + dp / IPB);
    txn := Txn(op.after, blocks);
    StillMounted(f, pl, fs, txn);
  }

  /** A name removed from a directory, committed. */
  method UnlinkTxn(f: Files, dp: nat, k: nat, ghost pl: Place, ghost fs: Fs) returns (done: bool, ghost txn: Txn)
    requires Mounted(f, pl, fs) && dp < |f.inodes| && f.inodes[dp].size % DirFile.DIRENT == 0
    requires Dirs.Unique(DirFile.SlotsOf(f.disk, f.inodes[dp]))
    requires k < |DirFile.SlotsOf(f.disk, f.inodes[dp])| && Dirs.Used(DirFile.SlotsOf(f.disk, f.inodes[dp])[k])
    modifies f
    ensures TxnOk(pl, fs, txn) && txn.after == f.Now() && FsOk(pl, fs) && Mounted(f, pl, Apply(pl, fs, txn))
    ensures done ==>
      var slots := old(DirFile.SlotsOf(f.disk, f.inodes[dp]));
      dp < |f.inodes| && Dirs.DirMap(DirFile.SlotsOf(f.disk, f.inodes[dp])) == Dirs.DirMap(slots) - {Dirs.Cut(slots[k].name)}
  {
    MountedFacts(f, pl, fs, dp);
    hide StoreOk, Logs, Mountable, InPlace, OthersSame, FsOk, TxnOk, DirFile.Whole, DirFile.SlotsOf, File, Dirs.Unique, Dirs.DirMap;
    ghost var op;
    done, op := DirFile.UnlinkOp(f, dp, k);
    ghost var blocks := Listed(op.logged);
    OpIsTxn(pl, fs, op, blocks, f.inodestart + dp / IPB);
    txn := Txn(op.after, blocks);
    StillMounted(f, pl, fs, txn);
  }
}
