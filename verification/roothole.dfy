/** The hole that mkfs leaves in a root directory of exactly one block, met by a real read. */
module RootHole {
  import opened InodeMap
  import opened Bitmap
  import opened Inodes
  import opened FileIo
  import opened MakeFs
  import opened Params

  const FSSIZE := 2000

  lemma {:induction false} EntryRooms(entries: seq<seq<nat>>)
    requires forall k :: 0 <= k < |entries| ==> |entries[k]| == DIRENT
    ensures Rooms(entries) == 4 * |entries|
  {
    if entries != [] {
      EntryRooms(entries[..|entries| - 1]);
    }
  }

  lemma {:induction false} NoFileRooms(files: seq<seq<seq<nat>>>)
    requires forall k :: 0 <= k < |files| ==> files[k] == []
    ensures FileRooms(files) == 0 && !TooLong(files)
  {
    if files != [] {
      NoFileRooms(files[..|files| - 1]);
    }
  }

  /** Byte 1024 of a root directory with 1024 bytes of entries is in a direct hole. */
  lemma HoleBehind(d: seq<Block>, role: seq<Owner>, ino: Inode, content: seq<nat>)
    requires RootBuilt(d, ino, content) && |content| == BSIZE && InodeOk(d, role, ROOTINO, ino)
    ensures ino.size == 2 * BSIZE && LostIn(ino, BSIZE, BSIZE + DIRENT) && !HoleFree(d, ino, BSIZE, BSIZE + DIRENT)
  {
    assert Ptr(d, ino, BSIZE / BSIZE) == 0;
    DirectPtr(d, ino, 1);
    assert LostAt(ino, BSIZE / BSIZE);
  }

  /** An image with 62 empty files, and the next directory entry read from its root. Outside an operation the read
      panics; inside one it leaves a disk that is no longer consistent by itself. */
  method ReadPastEntries(dots: seq<nat>, entries: seq<seq<nat>>, inOperation: bool) returns (f: Files, out: seq<nat>, panic: bool)
    requires |dots| == 2 * DIRENT && |entries| == 62 && forall k :: 0 <= k < |entries| ==> |entries[k]| == DIRENT
    ensures f.Valid()
    ensures !inOperation ==> panic && f.DiskOk()
    ensures inOperation ==> !panic && !f.DiskOk()
  {
    hide StoreOk, SizesOk, NoneHeld, RootBuilt, ImageOk, AllPacked, AllTailZero, MapZero, Describes, MapInMeta;
    hide File, HoleFree, Grown, Reading, Mountable, Behind, Logs, NoNewHoles, LostIn, Rooms, FileRooms, Room, Concat, TooLong;
    var files: seq<seq<seq<nat>>> := seq(62, _ => []);
    var img := new Image(FSSIZE, LOGBLOCKS + 1);
    EntryRooms(entries);
    NoFileRooms(files);
    EntryBytes(entries);
    RoomOf();
    var ok := img.Build(dots, entries, files);
    f := new Files(img.nmeta, img.bmapstart, 2 + (LOGBLOCKS + 1), img.disk, img.inodes, img.role);
    RootOk(f.disk, f.nmeta, f.bmapstart, f.g);
    HoleBehind(f.disk, f.g.role, f.inodes[ROOTINO], dots + Concat(entries));
    assert f.g.role[img.freeblock] == Unused;
    f.outstanding := if inOperation then 1 else 0;
    out, panic := Readi(f, ROOTINO, BSIZE, DIRENT);
  }

  lemma RoomOf()
    ensures Room(DIRENT) == 4
  {
  }

  lemma RootOk(d: seq<Block>, nmeta: nat, start: nat, g: Ghosts)
    requires StoreOk(d, nmeta, start, g) && ROOTINO < |g.view|
    ensures InodeOk(d, g.role, ROOTINO, g.view[ROOTINO])
  {
  }
}
