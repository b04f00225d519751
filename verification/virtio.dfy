/** Descriptor ownership and the two rings of kernel/virtio_disk.c, against a device that may take and
    complete requests in any order (sections 2.6 and 5.2 of VIRTIO 1.1). Each driver method is one critical
    section of vdisk_lock; the device steps may happen between any two of them. */
module Virtio {
  import opened Counting
  import opened Ring
  import opened Wrappers

  const NUM := 8
  const WRAP16 := 0x1_0000

  /** What a descriptor points to: a command header, a buffer's data, or a status byte. */
  datatype Addr = Zero | Header(i: nat) | Data(buf: nat) | Status(i: nat)

  datatype Desc = Desc(addr: Addr, len: nat, hasNext: bool, deviceWrites: bool, next: nat)

  const CLEAR := Desc(Zero, 0, false, false, 0)

  /** A command header: direction (VIRTIO_BLK_T_OUT or VIRTIO_BLK_T_IN) and first sector. */
  datatype Cmd = Cmd(write: bool, sector: nat)

  /** The contents of the buffers and of the disk, in sectors of 512 bytes. */
  datatype Media = Media(mem: map<nat, seq<int>>, store: seq<int>)

  /** The request behind a head descriptor: the two others, the buffer, the disk block, and the direction. */
  datatype Chain = Chain(d1: nat, d2: nat, buf: nat, blockno: nat, write: bool)

  /** The driver's note about a request, indexed by its head descriptor. */
  datatype Info = Info(b: Option<nat>, status: int)

  /** A ring of head descriptors with its running index. */
  datatype Virtq = Virtq(ring: seq<nat>, idx: nat)

  /** Where the requests are: in the available ring, taken by the device, in the used ring, seen by the handler. */
  datatype Requests = Requests(chains: map<nat, Chain>, owner: seq<Option<nat>>,
                               offered: seq<nat>, taken: set<nat>, completed: seq<nat>, finished: set<nat>)

  // ----- A ring with a 16-bit running index -----

  function Slot(seen: nat, k: nat): (i: nat)
    ensures i < NUM
  {
    ((seen + k) % WRAP16) % NUM
  }

  /** The entries between `seen` and `idx` are exactly `q`. */
  ghost predicate RingHolds(v: Virtq, seen: nat, q: seq<nat>) {
    && |v.ring| == NUM && seen < WRAP16 && |q| <= NUM
    && v.idx == (seen + |q|) % WRAP16
    && forall k :: 0 <= k < |q| ==> v.ring[Slot(seen, k)] == q[k]
  }

  lemma SlotMod(seen: nat, k: nat)
    ensures Slot(seen, k) == (seen + k) % NUM
  {
    WrapStep(seen + k, 0);
  }

  function Pushed(v: Virtq, h: nat): Virtq
    requires |v.ring| == NUM
  {
    Virtq(v.ring[v.idx % NUM := h], (v.idx + 1) % WRAP16)
  }

  /** Adding an entry overwrites none that is still to be read. */
  lemma PushEntry(v: Virtq, seen: nat, q: seq<nat>, h: nat)
    requires RingHolds(v, seen, q) && |q| < NUM
    ensures RingHolds(Pushed(v, h), seen, q + [h])
  {
    assert v.idx % NUM == Slot(seen, |q|);
    AddWrap(seen, |q|);
    hide Slot;
    forall k | 0 <= k < |q|
      ensures Slot(seen, k) != Slot(seen, |q|)
    {
      SlotsDiffer(seen, k, |q|);
    }
  }

  lemma SlotsDiffer(seen: nat, j: nat, k: nat)
    requires j < k < j + NUM
    ensures Slot(seen, j) != Slot(seen, k)
  {
    SlotMod(seen, j);
    SlotMod(seen, k);
    hide Slot;
    ModApart(seen + j, k - j);
  }

  lemma ModApart(x: nat, d: nat)
    requires 0 < d < NUM
    ensures x % NUM != (x + d) % NUM
  {
  }

  /** Wrapping an index does not move the slots counted from it. */
  lemma WrapStep(x: nat, k: nat)
    ensures (x % WRAP16 + k) % NUM == (x + k) % NUM
  {
    var q := x / WRAP16;
    assert x + k == x % WRAP16 + k + NUM * (8192 * q);
    ModShift(x % WRAP16 + k, 8192 * q);
  }

  lemma ModShift(x: nat, m: nat)
    ensures (x + NUM * m) % NUM == x % NUM
  {
  }

  lemma AddWrap(seen: nat, n: nat)
    ensures ((seen + n) % WRAP16 + 1) % WRAP16 == (seen + n + 1) % WRAP16
  {
  }

  lemma PopEntry(v: Virtq, seen: nat, q: seq<nat>)
    requires RingHolds(v, seen, q)
    ensures seen == v.idx <==> q == []
    ensures q != [] ==> v.ring[seen % NUM] == q[0] && RingHolds(v, (seen + 1) % WRAP16, q[1..])
  {
    NotFull(seen, |q|);
    if q != [] {
      SlotMod(seen, 0);
      assert v.ring[Slot(seen, 0)] == q[0];
      hide Slot;
      forall k | 0 <= k < |q[1..]|
        ensures v.ring[Slot((seen + 1) % WRAP16, k)] == q[1..][k]
      {
        NextSlot(seen, k);
        assert v.ring[Slot(seen, k + 1)] == q[k + 1];
      }
    }
  }

  lemma NextSlot(seen: nat, k: nat)
    ensures Slot((seen + 1) % WRAP16, k) == Slot(seen, k + 1)
  {
    SlotMod((seen + 1) % WRAP16, k);
    SlotMod(seen, k + 1);
    WrapStep(seen + 1, k);
    hide Slot;
  }

  /** A running index that is at most NUM ahead is equal only if it is not ahead at all. */
  lemma NotFull(seen: nat, n: nat)
    requires seen < WRAP16 && n <= NUM
    ensures seen == (seen + n) % WRAP16 <==> n == 0
    ensures n > 0 ==> ((seen + 1) % WRAP16 + (n - 1)) % WRAP16 == (seen + n) % WRAP16
  {
  }

  // ----- Descriptor ownership -----

  /** A chain is laid out as the device expects: header, data, status. */
  ghost predicate LaidOut(desc: seq<Desc>, h: nat, c: Chain) {
    && h < |desc| && c.d1 < |desc| && c.d2 < |desc|
    && h != c.d1 && h != c.d2 && c.d1 != c.d2
    && desc[h] == Desc(Header(h), 16, true, false, c.d1)
    && desc[c.d1] == Desc(Data(c.buf), 1024, true, !c.write, c.d2)
    && desc[c.d2] == Desc(Status(h), 1, false, true, 0)
  }

  /** Descriptor i belongs to the request with head h. */
  ghost predicate Owns(chains: map<nat, Chain>, owner: seq<Option<nat>>, h: nat) {
    && h in chains
    && h < |owner| && chains[h].d1 < |owner| && chains[h].d2 < |owner|
    && owner[h] == owner[chains[h].d1] == owner[chains[h].d2] == Some(h)
  }

  /** Every descriptor is free or belongs to exactly one request, and every request is laid out properly. */
  ghost predicate ChainsOk(chains: map<nat, Chain>, owner: seq<Option<nat>>, desc: seq<Desc>, free: seq<bool>) {
    && |desc| == |free| == |owner| == NUM
    && (forall h :: h in chains ==> LaidOut(desc, h, chains[h]) && Owns(chains, owner, h))
    && (forall i :: 0 <= i < NUM ==> SlotOk(chains, owner[i], desc[i], free[i], i))
  }

  /** A free descriptor is clear and has no owner; any other is one of its owner's three. */
  ghost predicate SlotOk(chains: map<nat, Chain>, o: Option<nat>, d: Desc, free: bool, i: nat) {
    && (free <==> o.None?)
    && (free ==> d == CLEAR)
    && (o.Some? ==> o.value in chains && i in {o.value, chains[o.value].d1, chains[o.value].d2})
  }

  lemma ThreeOf(s: set<nat>) returns (a: nat, b: nat, c: nat)
    requires |s| > 2
    ensures a in s && b in s && c in s && a != b && a != c && b != c
  {
    a :| a in s;
    assert |s - {a}| == |s| - 1;
    b :| b in s - {a};
    assert |s - {a} - {b}| == |s| - 2;
    c :| c in s - {a} - {b};
  }

  /** At most two requests are in flight: three would own nine descriptors. */
  lemma AtMostTwo(chains: map<nat, Chain>, owner: seq<Option<nat>>, desc: seq<Desc>, free: seq<bool>)
    requires ChainsOk(chains, owner, desc, free)
    ensures |chains| <= 2
  {
    if |chains| > 2 {
      var a, b, c := ThreeOf(chains.Keys);
      assert LaidOut(desc, a, chains[a]) && LaidOut(desc, b, chains[b]) && LaidOut(desc, c, chains[c]);
      assert Owns(chains, owner, a) && Owns(chains, owner, b) && Owns(chains, owner, c);
      NineOwned(owner, a, chains[a], b, chains[b], c, chains[c]);
    }
  }

  ghost predicate OwnsThree(owner: seq<Option<nat>>, h: nat, c: Chain) {
    && h != c.d1 && h != c.d2 && c.d1 != c.d2
    && h < |owner| && c.d1 < |owner| && c.d2 < |owner|
    && owner[h] == owner[c.d1] == owner[c.d2] == Some(h)
  }

  lemma NineOwned(owner: seq<Option<nat>>, a: nat, ca: Chain, b: nat, cb: Chain, c: nat, cc: Chain)
    requires a != b && a != c && b != c
    requires OwnsThree(owner, a, ca) && OwnsThree(owner, b, cb) && OwnsThree(owner, c, cc)
    ensures |owner| >= 9
  {
    var nine := [a, ca.d1, ca.d2, b, cb.d1, cb.d2, c, cc.d1, cc.d2];
    DistinctCount(nine);
    RangeCount(|owner|, Elements(nine));
  }

  /** Taking three free descriptors for a request. */
  lemma AddChain(chains: map<nat, Chain>, owner: seq<Option<nat>>, desc: seq<Desc>, free: seq<bool>, h: nat, c: Chain)
    requires ChainsOk(chains, owner, desc, free)
    requires h < NUM && c.d1 < NUM && c.d2 < NUM && free[h] && free[c.d1] && free[c.d2]
    requires h != c.d1 && h != c.d2 && c.d1 != c.d2
    ensures h !in chains
    ensures ChainsOk(chains[h := c], owner[h := Some(h)][c.d1 := Some(h)][c.d2 := Some(h)],
                     desc[h := Desc(Header(h), 16, true, false, c.d1)]
                         [c.d1 := Desc(Data(c.buf), 1024, true, !c.write, c.d2)]
                         [c.d2 := Desc(Status(h), 1, false, true, 0)],
                     free[h := false][c.d1 := false][c.d2 := false])
  {
    var chains', owner' := chains[h := c], owner[h := Some(h)][c.d1 := Some(h)][c.d2 := Some(h)];
    var desc' := desc[h := Desc(Header(h), 16, true, false, c.d1)]
                     [c.d1 := Desc(Data(c.buf), 1024, true, !c.write, c.d2)]
                     [c.d2 := Desc(Status(h), 1, false, true, 0)];
    var free' := free[h := false][c.d1 := false][c.d2 := false];
    var t := {h, c.d1, c.d2};
    forall i | i in t
      ensures owner[i].None?
    {
      assert SlotOk(chains, owner[i], desc[i], free[i], i);
    }
    assert h in chains ==> Owns(chains, owner, h);
    assert SameBut(owner, owner', t) && SameBut(desc, desc', t);
    forall g | g in chains
      ensures LaidOut(desc', g, chains[g]) && Owns(chains', owner', g)
    {
      ChainKept(chains, owner, desc, chains', owner', desc', g, t);
    }
    forall i | 0 <= i < NUM
      ensures SlotOk(chains', owner'[i], desc'[i], free'[i], i)
    {
      assert SlotOk(chains, owner[i], desc[i], free[i], i);
    }
    assert LaidOut(desc', h, c) && Owns(chains', owner', h);
    hide LaidOut, Owns, SlotOk, SameBut;
  }

  /** Giving a request's descriptors back. */
  lemma DropChain(chains: map<nat, Chain>, owner: seq<Option<nat>>, desc: seq<Desc>, free: seq<bool>, h: nat)
    requires ChainsOk(chains, owner, desc, free) && h in chains
    ensures LaidOut(desc, h, chains[h])
    ensures
      var c := chains[h];
      ChainsOk(chains - {h}, owner[h := None][c.d1 := None][c.d2 := None],
               desc[h := CLEAR][c.d1 := CLEAR][c.d2 := CLEAR], free[h := true][c.d1 := true][c.d2 := true])
  {
    var c := chains[h];
    assert LaidOut(desc, h, c) && Owns(chains, owner, h);
    hide LaidOut, Owns, SlotOk, ChainsOk, SetTo;
    SetThree(owner, None, h, c.d1, c.d2);
    SetThree(desc, CLEAR, h, c.d1, c.d2);
    SetThree(free, true, h, c.d1, c.d2);
    ClearedChain(chains, owner, desc, free, h, owner[h := None][c.d1 := None][c.d2 := None],
                 desc[h := CLEAR][c.d1 := CLEAR][c.d2 := CLEAR], free[h := true][c.d1 := true][c.d2 := true]);
  }

  ghost predicate SetTo<T>(s: seq<T>, s': seq<T>, t: set<nat>, x: T) {
    |s'| == |s| && forall i :: 0 <= i < |s| ==> s'[i] == if i in t then x else s[i]
  }

  lemma SetThree<T>(s: seq<T>, x: T, a: nat, b: nat, c: nat)
    requires a < |s| && b < |s| && c < |s|
    ensures SetTo(s, s[a := x][b := x][c := x], {a, b, c}, x)
  {
  }

  lemma ClearedChain(chains: map<nat, Chain>, owner: seq<Option<nat>>, desc: seq<Desc>, free: seq<bool>, h: nat,
                     owner': seq<Option<nat>>, desc': seq<Desc>, free': seq<bool>)
    requires ChainsOk(chains, owner, desc, free) && h in chains
    requires var t := {h, chains[h].d1, chains[h].d2};
      SetTo(owner, owner', t, None) && SetTo(desc, desc', t, CLEAR) && SetTo(free, free', t, true)
    ensures ChainsOk(chains - {h}, owner', desc', free')
  {
    var c := chains[h];
    assert Owns(chains, owner, h);
    forall g | g in chains && g != h
      ensures LaidOut(desc', g, chains[g]) && Owns(chains - {h}, owner', g)
    {
      ChainKept(chains, owner, desc, chains - {h}, owner', desc', g, {h, c.d1, c.d2});
    }
    hide Owns, LaidOut, SameBut;
    forall i | 0 <= i < NUM
      ensures SlotOk(chains - {h}, owner'[i], desc'[i], free'[i], i)
    {
      assert SlotOk(chains, owner[i], desc[i], free[i], i);
    }
  }

  ghost predicate SameBut<T>(s: seq<T>, s': seq<T>, t: set<nat>) {
    |s'| == |s| && forall i :: 0 <= i < |s| && i !in t ==> s'[i] == s[i]
  }

  /** A request none of whose descriptors changed is as it was. */
  lemma ChainKept(chains: map<nat, Chain>, owner: seq<Option<nat>>, desc: seq<Desc>,
                  chains': map<nat, Chain>, owner': seq<Option<nat>>, desc': seq<Desc>, g: nat, t: set<nat>)
    requires |desc| == |owner| && g in chains && LaidOut(desc, g, chains[g]) && Owns(chains, owner, g)
    requires SameBut(owner, owner', t) && SameBut(desc, desc', t) && g in chains' && chains'[g] == chains[g]
    requires forall i :: i in t ==> i < |owner| && owner[i] != Some(g)
    ensures LaidOut(desc', g, chains'[g]) && Owns(chains', owner', g)
  {
    var c := chains[g];
    assert g !in t && c.d1 !in t && c.d2 !in t;
  }

  // ----- Requests and where they are -----

  /** Each request is in exactly one place: the available ring, the device, the used ring, or finished. */
  ghost predicate Placed(g: Requests) {
    multiset(g.offered) + multiset(g.taken) + multiset(g.completed) + multiset(g.finished) == multiset(g.chains.Keys)
  }

  /** Bookkeeping for the interrupt handler: whose buffer, whether the device still owns it, and that the
      device reported success. */
  ghost predicate Tracked(g: Requests, info: seq<Info>, busy: set<nat>) {
    && |info| == NUM
    && (forall h :: h in g.chains ==>
          h < NUM && info[h].b == Some(g.chains[h].buf) && (g.chains[h].buf in busy <==> h !in g.finished))
    && (forall a, b :: a in g.chains && b in g.chains && a != b ==> g.chains[a].buf != g.chains[b].buf)
    && (forall i :: 0 <= i < |g.completed| ==> g.completed[i] < NUM && info[g.completed[i]].status == 0)
  }

  class Disk {
    var free: seq<bool>
    var desc: seq<Desc>
    var info: seq<Info>
    var ops: seq<Cmd>
    var avail: Virtq
    var used: Virtq
    /** The driver's used_idx. */
    var driverSeen: nat
    /** How far the device has read the available ring. */
    var deviceSeen: nat
    /** Buffers with b->disk == 1. */
    var busy: set<nat>
    var media: Media
    ghost var g: Requests

    ghost predicate Valid()
      reads this
    {
      && ChainsOk(g.chains, g.owner, desc, free)
      && Placed(g)
      && Tracked(g, info, busy)
      && RingHolds(avail, deviceSeen, g.offered)
      && RingHolds(used, driverSeen, g.completed)
      && Commands(g.chains, ops) && AllThere(media, g.chains)
    }

    /** virtio_disk_init, the queue part. */
    constructor (m: Media)
      ensures Valid() && g.chains == map[] && busy == {} && media == m
    {
      media := m;
      ops := seq(NUM, _ => Cmd(false, 0));
      free := seq(NUM, _ => true);
      desc := seq(NUM, _ => CLEAR);
      info := seq(NUM, _ => Info(None, 0));
      avail := Virtq(seq(NUM, _ => 0), 0);
      used := Virtq(seq(NUM, _ => 0), 0);
      driverSeen, deviceSeen := 0, 0;
      busy := {};
      g := Requests(map[], seq(NUM, _ => None), [], {}, [], {});
    }

    /** alloc_desc: the lowest free descriptor, or -1. */
    method AllocDesc() returns (i: int)
      requires |free| == NUM
      modifies this`free
      ensures -1 <= i < NUM
      ensures i == -1 <==> forall j :: 0 <= j < NUM ==> !old(free[j])
      ensures i >= 0 ==> old(free[i]) && (forall j :: 0 <= j < i ==> !old(free[j])) && free == old(free)[i := false]
      ensures i == -1 ==> free == old(free)
    {
      i := 0;
      while i < NUM
        invariant 0 <= i <= NUM && free == old(free)
        invariant forall j :: 0 <= j < i ==> !free[j]
      {
        if free[i] {
          free := free[i := false];
          return;
        }
        i := i + 1;
      }
      i := -1;
    }

    /** free_desc of a descriptor in use; freeing a free one panics. */
    method FreeDesc(i: nat)
      requires |free| == |desc| == NUM && i < NUM && !free[i]
      modifies this`free, this`desc
      ensures free == old(free)[i := true] && desc == old(desc)[i := CLEAR]
    {
      desc := desc[i := CLEAR];
      free := free[i := true];
    }

    /** alloc3_desc: three free descriptors, or nothing at all. */
    method Alloc3Desc() returns (ok: bool, idx: seq<nat>)
      requires |free| == |desc| == NUM
      requires forall i :: 0 <= i < NUM && free[i] ==> desc[i] == CLEAR
      modifies this`free, this`desc
      ensures desc == old(desc)
      ensures !ok ==> free == old(free) && FewerThanThree(free)
      ensures ok ==>
        && |idx| == 3 && Distinct(idx) && Below(idx, NUM)
        && old(free[idx[0]]) && old(free[idx[1]]) && old(free[idx[2]])
        && free == old(free)[idx[0] := false][idx[1] := false][idx[2] := false]
    {
      hide FewerThanThree;
      idx := [];
      for i := 0 to 3
        invariant |idx| == i && Distinct(idx) && Below(idx, NUM) && desc == old(desc)
        invariant forall k :: 0 <= k < i ==> old(free[idx[k]])
        invariant Taken(old(free), free, idx)
      {
        var d := AllocDesc();
        if d < 0 {
          NoneLeft(old(free), free, idx);
          GiveBack(idx, old(free));
          return false, [];
        }
        idx := idx + [d];
      }
      assert free == old(free)[idx[0] := false][idx[1] := false][idx[2] := false];
      ok := true;
    }

    /** The rollback loop of alloc3_desc. */
    method GiveBack(idx: seq<nat>, ghost free0: seq<bool>)
      requires |free| == |desc| == |free0| == NUM
      requires Distinct(idx) && Below(idx, NUM)
      requires Taken(free0, free, idx)
      requires forall k :: 0 <= k < |idx| ==> free0[idx[k]] && desc[idx[k]] == CLEAR
      modifies this`free, this`desc
      ensures free == free0 && desc == old(desc)
    {
      for j := 0 to |idx|
        invariant desc == old(desc) && Taken(free0, free, idx[j..])
      {
        assert idx[j..] == [idx[j]] + idx[j + 1..];
        FreeDesc(idx[j]);
      }
      assert free == free0;
    }

    /** virtio_disk_rw up to the notification: three descriptors are formatted and offered to the device.
        None means it must sleep for descriptors. The caller holds b's lock, so b is in no other request. */
    method Submit(b: nat, blockno: nat, write: bool) returns (r: Option<nat>)
      requires Valid() && There(media, b, blockno)
      requires forall h :: h in g.chains ==> g.chains[h].buf != b
      modifies this
      ensures Valid()
      ensures r.None? ==> unchanged(this) && FewerThanThree(free)
      ensures r.Some? ==>
        && r.value !in old(g.chains)
        && r.value in g.chains && g == WithNew(old(g), r.value, g.chains[r.value])
        && g.chains[r.value].buf == b && g.chains[r.value].blockno == blockno && g.chains[r.value].write == write
        && busy == old(busy) + {b} && media == old(media)
        && |g.chains| <= 2
      ensures r.Some? ==>
        && avail.ring == old(avail.ring)[old(avail.idx) % 8 := r.value] && avail.idx == (old(avail.idx) + 1) % 0x1_0000
    {
      hide ChainsOk, Placed, Tracked, RingHolds, Below, FewerThanThree, Commands, AllThere;
      FreeIsClear();
      ghost var free0 := free;
      var ok, idx := Alloc3Desc();
      if !ok {
        return None;
      }
      ThreeBelow(idx);
      Offer(idx[0], idx[1], idx[2], b, blockno, write, free0);
      r := Some(idx[0]);
    }

    /** The formatting and the available-ring entry, once three descriptors are allocated. */
    method Offer(h: nat, d1: nat, d2: nat, b: nat, blockno: nat, write: bool, ghost free0: seq<bool>)
      requires h < NUM && d1 < NUM && d2 < NUM && h != d1 && h != d2 && d1 != d2
      requires |free0| == NUM && free0[h] && free0[d1] && free0[d2]
      requires free == free0[h := false][d1 := false][d2 := false]
      requires ChainsOk(g.chains, g.owner, desc, free0) && Placed(g) && Tracked(g, info, busy)
      requires RingHolds(avail, deviceSeen, g.offered) && RingHolds(used, driverSeen, g.completed)
      requires forall a :: a in g.chains ==> g.chains[a].buf != b
      requires Commands(g.chains, ops) && AllThere(media, g.chains) && There(media, b, blockno)
      modifies this`desc, this`busy, this`info, this`ops, this`avail, this`g
      ensures Valid()
      ensures h !in old(g.chains) && g == WithNew(old(g), h, Chain(d1, d2, b, blockno, write)) && |g.chains| <= 2
      ensures busy == old(busy) + {b}
      ensures |old(avail.ring)| == NUM && avail == Virtq(old(avail.ring)[old(avail.idx) % 8 := h], (old(avail.idx) + 1) % 0x1_0000)
    {
      hide ChainsOk, Placed, Tracked, RingHolds, Commands, AllThere, There;
      ghost var c := Chain(d1, d2, b, blockno, write);
      Sizes(g, desc, free0, info, busy, avail, deviceSeen);
      OfferKeeps(g, desc, free0, info, busy, h, c);
      OneCommand(g.chains, ops, media, h, c);
      PushEntry(avail, deviceSeen, g.offered, h);
      hide WithNew;
      NewRequest(g, h, c);
      Format(h, d1, d2, b, blockno, write);
      avail := Pushed(avail, h);
      g := WithNew(g, h, c);
    }

    /** Command header, the three descriptors and the driver's note: the header and, for a write, the data are for the
        device to read, the data of a read and the status byte for it to write. */
    method Format(h: nat, d1: nat, d2: nat, b: nat, blockno: nat, write: bool)
      requires |desc| == |info| == |ops| == NUM && h < NUM && d1 < NUM && d2 < NUM
      modifies this`desc, this`busy, this`info, this`ops
      ensures desc == old(desc)[h := Desc(Header(h), 16, true, false, d1)][d1 := Desc(Data(b), 1024, true, !write, d2)]
                               [d2 := Desc(Status(h), 1, false, true, 0)]
      ensures ops == old(ops)[h := Cmd(write, 2 * blockno)] && info == old(info)[h := Info(Some(b), 0xff)] && busy == old(busy) + {b}
    {
      ops := ops[h := Cmd(write, blockno * (1024 / 512))];
      desc := desc[h := Desc(Header(h), 16, true, false, d1)];
      desc := desc[d1 := Desc(Data(b), 1024, true, !write, d2)];
      desc := desc[d2 := Desc(Status(h), 1, false, true, 0)];
      busy, info := busy + {b}, info[h := Info(Some(b), 0xff)];
    }

    /** The device reads the next available entry: it is a request offered and not taken yet, in order. */
    method DeviceTake() returns (h: nat)
      requires Valid() && deviceSeen != avail.idx
      modifies this`deviceSeen, this`g
      ensures Valid()
      ensures old(g.offered) == [h] + g.offered && h !in old(g.taken)
      ensures g == old(g).(offered := g.offered, taken := old(g.taken) + {h})
      ensures h in g.chains && LaidOut(desc, h, g.chains[h])
    {
      hide ChainsOk, Placed, Tracked, RingHolds, Commands, AllThere;
      FreeIsClear();
      PopEntry(avail, deviceSeen, g.offered);
      MoveHead(g);
      TrackSame(g, MovedHead(g), info, busy);
      h := avail.ring[deviceSeen % NUM];
      LaidOutIn(g, desc, free, h);
      deviceSeen := (deviceSeen + 1) % WRAP16;
      g := MovedHead(g);
    }

    /** The device finishes any request it has taken: it walks the chain, moves the data between the buffer and the
        disk as the command says, and reports success; a data descriptor of the wrong direction is an error. */
    method DeviceComplete(h: nat)
      requires Valid() && h in g.taken
      modifies this`info, this`used, this`media, this`g
      ensures Valid()
      ensures g == old(g).(taken := old(g.taken) - {h}, completed := old(g.completed) + [h])
      ensures h in g.chains && There(old(media), g.chains[h].buf, g.chains[h].blockno)
      ensures media == Moved(old(media), g.chains[h])
    {
      FreeIsClear();
      CompleteOne(g, h);
      ghost var c := g.chains[h];
      LaidOutIn(g, desc, free, h);
      CommandIn(g.chains, ops, media, h);
      hide ChainsOk, Placed, Tracked, RingHolds, Commands, AllThere, Moved, There, LaidOut;
      CompleteKeeps(g, desc, free, info, busy, used, driverSeen, media, h);
      hide Pushed, Completed;
      WalkChain(h, c);
      used := Pushed(used, h);
      g := Completed(g, h);
    }

    /** The device's walk along a chain, and the status byte it writes. */
    method WalkChain(h: nat, ghost c: Chain)
      requires LaidOut(desc, h, c) && h < |ops| && h < |info| && ops[h] == Cmd(c.write, 2 * c.blockno)
      requires There(media, c.buf, c.blockno)
      modifies this`info, this`media
      ensures info == old(info)[h := old(info[h]).(status := 0)] && media == Moved(old(media), c)
    {
      var data := desc[desc[h].next];
      var status := Execute(ops[desc[h].addr.i], data);
      var at := desc[data.next].addr.i;
      info := info[at := info[at].(status := status)];
    }

    /** The transfer of one request. */
    method Execute(cmd: Cmd, data: Desc) returns (status: int)
      requires data.addr.Data? && There(media, data.addr.buf, cmd.sector / 2) && cmd.sector % 2 == 0 && data.len == 1024
      modifies this`media
      ensures status == 0 <==> cmd.write != data.deviceWrites
      ensures status != 0 ==> media == old(media)
      ensures status == 0 && cmd.write ==> media == old(media).(store :=
        old(media).store[..cmd.sector] + old(media).mem[data.addr.buf] + old(media).store[cmd.sector + 2..])
      ensures status == 0 && !cmd.write ==> media == old(media).(mem :=
        old(media).mem[data.addr.buf := old(media).store[cmd.sector..cmd.sector + 2]])
    {
      var b, first, n := data.addr.buf, cmd.sector, data.len / 512;
      if cmd.write && !data.deviceWrites {
        assert media.mem[b][..n] == media.mem[b];
        media := media.(store := media.store[..first] + media.mem[b][..n] + media.store[first + n..]);
        status := 0;
      } else if !cmd.write && data.deviceWrites {
        media := media.(mem := media.mem[b := media.store[first..first + n]]);
        status := 0;
      } else {
        status := 1;
      }
    }

    /** One turn of the interrupt handler's loop: exactly the issuing buffer is released. */
    method IntrOne() returns (h: nat)
      requires Valid() && driverSeen != used.idx
      modifies this`driverSeen, this`busy, this`g
      ensures Valid()
      ensures old(g.completed) == [h] + g.completed
      ensures g == old(g).(completed := g.completed, finished := old(g.finished) + {h})
      ensures h < |info| && info[h].status == 0
      ensures h in g.chains && g.chains[h].buf in old(busy) && busy == old(busy) - {g.chains[h].buf}
    {
      hide ChainsOk, Placed, Tracked, RingHolds, Commands, AllThere;
      FreeIsClear();
      PopEntry(used, driverSeen, g.completed);
      FinishOne(g);
      TrackFinish(g, info, busy);
      h := used.ring[driverSeen % NUM];
      busy := busy - {info[h].b.value};
      driverSeen := (driverSeen + 1) % WRAP16;
      g := Finished(g);
    }

    /** virtio_disk_intr: every completion in the used ring is handled, also those that the device adds while the
        handler runs; `late` are the requests it would complete next, `now` says before which turns it does. */
    method Intr(late: seq<nat>, now: seq<bool>) returns (n: nat)
      requires Valid() && Distinct(late) && forall k :: 0 <= k < |late| ==> late[k] in g.taken
      modifies this`driverSeen, this`busy, this`info, this`used, this`media, this`g
      ensures Valid() && n <= |late|
      ensures media == MovedAll(old(media), g.chains, late[..n])
      ensures g == old(g).(completed := [], taken := old(g.taken) - Elements(late[..n]),
                           finished := old(g.finished) + Elements(old(g.completed)) + Elements(late[..n]))
    {
      hide Valid;
      ghost var done := [];
      var turn := 0;
      n := 0;
      assert late[..0] == [] && Elements([]) == {};
      assert media == MovedAll(media, g.chains, []);
      hide MovedAll, Moved, There, Elements;
      while driverSeen != used.idx
        invariant Valid() && n <= |late|
        invariant old(g.completed) + late[..n] == done + g.completed
        invariant media == MovedAll(old(media), g.chains, late[..n])
        invariant g == old(g).(completed := g.completed, taken := old(g.taken) - Elements(late[..n]),
                               finished := old(g.finished) + Elements(done))
        decreases |late| - n, |g.completed|
      {
        var h := IntrOne();
        assert Elements(done + [h]) == Elements(done) + {h};
        Assoc(done, [h], g.completed);
        done := done + [h];
        ghost var c := g.completed;
        if turn < |now| && now[turn] && n < |late| {
          NextLate(late, n);
          DeviceComplete(late[n]);
          MovedMore(old(media), g.chains, late[..n], late[n]);
          Assoc(old(g.completed), late[..n], [late[n]]);
          Assoc(done, c, [late[n]]);
          n := n + 1;
        }
        turn := turn + 1;
      }
      NothingCompleted();
      assert done + [] == done;
      ElementsOf(old(g.completed), late[..n]);
    }

    lemma NothingCompleted()
      requires Valid()
      ensures driverSeen == used.idx <==> g.completed == []
    {
      PopEntry(used, driverSeen, g.completed);
    }

    /** free_chain: walks the three descriptors of a request. */
    method FreeChain(h: nat, ghost c: Chain)
      requires |free| == |desc| == NUM && LaidOut(desc, h, c)
      requires !free[h] && !free[c.d1] && !free[c.d2]
      modifies this`free, this`desc
      ensures free == old(free)[h := true][c.d1 := true][c.d2 := true]
      ensures desc == old(desc)[h := CLEAR][c.d1 := CLEAR][c.d2 := CLEAR]
    {
      var i := h;
      ghost var k := 0;
      while true
        invariant 0 <= k <= 2 && |free| == |desc| == NUM
        invariant i == if k == 0 then h else if k == 1 then c.d1 else c.d2
        invariant k == 0 ==> free == old(free) && desc == old(desc)
        invariant k == 1 ==> free == old(free)[h := true] && desc == old(desc)[h := CLEAR]
        invariant k == 2 ==> free == old(free)[h := true][c.d1 := true] && desc == old(desc)[h := CLEAR][c.d1 := CLEAR]
        decreases 2 - k
      {
        var flag, nxt := desc[i].hasNext, desc[i].next;
        FreeDesc(i);
        if flag {
          i := nxt;
        } else {
          break;
        }
        k := k + 1;
      }
    }

    /** The end of virtio_disk_rw, once b->disk is 0 again: the request's descriptors are given back. */
    method Finish(h: nat)
      requires Valid() && h in g.chains && g.chains[h].buf !in busy
      modifies this`free, this`desc, this`info, this`g
      ensures Valid()
      ensures h in old(g.finished) && g == Dropped(old(g), h)
    {
      hide ChainsOk, Placed, Tracked, RingHolds, LaidOut;
      FreeIsClear();
      ghost var c := g.chains[h];
      DropChain(g.chains, g.owner, desc, free, h);
      OwnedNotFree(g.chains, g.owner, desc, free, h);
      DropTracked(g, info, busy, h);
      DropPlaced(g, h);
      info := info[h := info[h].(b := None)];
      FreeChain(h, c);
      g := Dropped(g, h);
    }

    lemma FreeIsClear()
      requires Valid()
      ensures |free| == |desc| == |info| == |g.owner| == |avail.ring| == |used.ring| == NUM
      ensures forall i :: 0 <= i < NUM && free[i] ==> desc[i] == CLEAR
    {
    }
  }

  // ----- Data -----

  /** The buffer has two sectors, and so has the block. */
  predicate There(m: Media, buf: nat, blockno: nat) {
    buf in m.mem && |m.mem[buf]| == 2 && 2 * blockno + 1 < |m.store|
  }

  ghost predicate AllThere(m: Media, chains: map<nat, Chain>) {
    forall h :: h in chains ==> There(m, chains[h].buf, chains[h].blockno)
  }

  /** Every request's command header says what the request is. */
  ghost predicate Commands(chains: map<nat, Chain>, ops: seq<Cmd>) {
    |ops| == NUM && forall h :: h in chains ==> h < NUM && ops[h] == Cmd(chains[h].write, 2 * chains[h].blockno)
  }

  lemma OneCommand(chains: map<nat, Chain>, ops: seq<Cmd>, m: Media, h: nat, c: Chain)
    requires Commands(chains, ops) && AllThere(m, chains) && h < NUM && There(m, c.buf, c.blockno)
    ensures |ops| == NUM && Commands(chains[h := c], ops[h := Cmd(c.write, 2 * c.blockno)]) && AllThere(m, chains[h := c])
  {
  }

  lemma CommandIn(chains: map<nat, Chain>, ops: seq<Cmd>, m: Media, h: nat)
    requires Commands(chains, ops) && AllThere(m, chains) && h in chains
    ensures h < |ops| && ops[h] == Cmd(chains[h].write, 2 * chains[h].blockno) && There(m, chains[h].buf, chains[h].blockno)
  {
  }

  /** What a request does: a write puts the buffer into the block's two sectors, a read brings them into the buffer. */
  ghost function Moved(m: Media, c: Chain): Media
    requires There(m, c.buf, c.blockno)
  {
    if c.write then m.(store := m.store[..2 * c.blockno] + m.mem[c.buf] + m.store[2 * c.blockno + 2..])
    else m.(mem := m.mem[c.buf := m.store[2 * c.blockno..2 * c.blockno + 2]])
  }

  lemma StillThere(m: Media, chains: map<nat, Chain>, c: Chain)
    requires AllThere(m, chains) && There(m, c.buf, c.blockno)
    ensures AllThere(Moved(m, c), chains)
  {
  }

  /** The requests carried out one after the other. */
  ghost function MovedAll(m: Media, chains: map<nat, Chain>, hs: seq<nat>): Media {
    if hs == [] then m
    else
      var h, m1 := hs[|hs| - 1], MovedAll(m, chains, hs[..|hs| - 1]);
      if h in chains && There(m1, chains[h].buf, chains[h].blockno) then Moved(m1, chains[h]) else m1
  }

  lemma MovedMore(m: Media, chains: map<nat, Chain>, hs: seq<nat>, h: nat)
    requires h in chains && There(MovedAll(m, chains, hs), chains[h].buf, chains[h].blockno)
    ensures MovedAll(m, chains, hs + [h]) == Moved(MovedAll(m, chains, hs), chains[h])
  {
    hide There, Moved;
    assert (hs + [h])[..|hs|] == hs;
  }

  /** A block that was written is read back, into whichever buffer, and no other block or buffer is touched. */
  lemma WriteThenRead(m: Media, w: Chain, r: Chain, other: nat)
    requires w.write && !r.write && r.blockno == w.blockno && There(m, w.buf, w.blockno) && There(m, r.buf, r.blockno)
    ensures There(Moved(m, w), r.buf, r.blockno)
    ensures
      var m' := Moved(Moved(m, w), r);
      && m'.mem == m.mem[r.buf := m.mem[w.buf]]
      && |m'.store| == |m.store| && m'.store[2 * w.blockno..2 * w.blockno + 2] == m.mem[w.buf]
      && (other != w.blockno && 2 * other + 1 < |m.store| ==>
            m'.store[2 * other..2 * other + 2] == m.store[2 * other..2 * other + 2])
  {
    var m1 := Moved(m, w);
    assert m1.store[2 * w.blockno..2 * w.blockno + 2] == m.mem[w.buf];
  }

  // ----- What each step does to the requests -----

  ghost function WithNew(g: Requests, h: nat, c: Chain): Requests {
    g.(chains := g.chains[h := c],
       owner := if h < |g.owner| && c.d1 < |g.owner| && c.d2 < |g.owner|
                then g.owner[h := Some(h)][c.d1 := Some(h)][c.d2 := Some(h)] else g.owner,
       offered := g.offered + [h])
  }

  ghost function MovedHead(g: Requests): Requests
    requires g.offered != []
  {
    g.(offered := g.offered[1..], taken := g.taken + {g.offered[0]})
  }

  ghost function Completed(g: Requests, h: nat): Requests {
    g.(taken := g.taken - {h}, completed := g.completed + [h])
  }

  ghost function Finished(g: Requests): Requests
    requires g.completed != []
  {
    g.(completed := g.completed[1..], finished := g.finished + {g.completed[0]})
  }

  ghost function Dropped(g: Requests, h: nat): Requests
    requires h in g.chains
  {
    var c := g.chains[h];
    g.(chains := g.chains - {h},
       owner := if h < |g.owner| && c.d1 < |g.owner| && c.d2 < |g.owner|
                then g.owner[h := None][c.d1 := None][c.d2 := None] else g.owner,
       finished := g.finished - {h})
  }

  /** The bookkeeping of a completion, all of it. */
  lemma CompleteKeeps(g: Requests, desc: seq<Desc>, free: seq<bool>, info: seq<Info>, busy: set<nat>, used: Virtq, seen: nat,
                      m: Media, h: nat)
    requires ChainsOk(g.chains, g.owner, desc, free) && Placed(g) && Tracked(g, info, busy) && RingHolds(used, seen, g.completed)
    requires AllThere(m, g.chains) && h in g.taken && h < NUM && h in g.chains
    ensures |used.ring| == |info| == NUM && There(m, g.chains[h].buf, g.chains[h].blockno)
    ensures
      var g' := Completed(g, h);
      && g' == g.(taken := g.taken - {h}, completed := g.completed + [h])
      && Placed(g') && Tracked(g', info[h := info[h].(status := 0)], busy)
      && RingHolds(Pushed(used, h), seen, g'.completed) && AllThere(Moved(m, g.chains[h]), g.chains)
  {
    CompleteOne(g, h);
    AtMostTwo(g.chains, g.owner, desc, free);
    QueueLength(Completed(g, h));
    PushEntry(used, seen, g.completed, h);
    TrackComplete(g, info, busy, h);
    StillThere(m, g.chains, g.chains[h]);
    hide ChainsOk, Placed, Tracked, RingHolds, Moved, There;
  }

  lemma NewRequest(g: Requests, h: nat, c: Chain)
    ensures WithNew(g, h, c).chains == g.chains[h := c] && WithNew(g, h, c).offered == g.offered + [h]
    ensures WithNew(g, h, c).completed == g.completed
  {
  }

  /** The bookkeeping of a new request, all of it. */
  lemma OfferKeeps(g: Requests, desc: seq<Desc>, free: seq<bool>, info: seq<Info>, busy: set<nat>, h: nat, c: Chain)
    requires ChainsOk(g.chains, g.owner, desc, free) && Placed(g) && Tracked(g, info, busy)
    requires h < NUM && c.d1 < NUM && c.d2 < NUM && h != c.d1 && h != c.d2 && c.d1 != c.d2
    requires |free| == NUM && free[h] && free[c.d1] && free[c.d2]
    requires forall a :: a in g.chains ==> g.chains[a].buf != c.buf
    ensures |desc| == |g.owner| == |info| == NUM && h !in g.chains && |g.offered| < NUM
    ensures
      var g', free' := WithNew(g, h, c), free[h := false][c.d1 := false][c.d2 := false];
      var desc' := desc[h := Desc(Header(h), 16, true, false, c.d1)]
                       [c.d1 := Desc(Data(c.buf), 1024, true, !c.write, c.d2)]
                       [c.d2 := Desc(Status(h), 1, false, true, 0)];
      && ChainsOk(g'.chains, g'.owner, desc', free') && Placed(g')
      && Tracked(g', info[h := Info(Some(c.buf), 0xff)], busy + {c.buf}) && |g'.chains| <= 2
  {
    SizesHere(g, desc, free, info, busy);
    AddChain(g.chains, g.owner, desc, free, h, c);
    PlaceNew(g, h, c);
    TrackNew(g, info, busy, h, c);
    var g', free' := WithNew(g, h, c), free[h := false][c.d1 := false][c.d2 := false];
    var desc' := desc[h := Desc(Header(h), 16, true, false, c.d1)]
                     [c.d1 := Desc(Data(c.buf), 1024, true, !c.write, c.d2)]
                     [c.d2 := Desc(Status(h), 1, false, true, 0)];
    hide ChainsOk, Placed, Tracked;
    AtMostTwo(g'.chains, g'.owner, desc', free');
    QueueLength(g');
  }

  lemma SizesHere(g: Requests, desc: seq<Desc>, free: seq<bool>, info: seq<Info>, busy: set<nat>)
    requires ChainsOk(g.chains, g.owner, desc, free) && Tracked(g, info, busy)
    ensures |desc| == |free| == |g.owner| == |info| == NUM
  {
  }

  lemma PlaceNew(g: Requests, h: nat, c: Chain)
    requires Placed(g) && h !in g.chains
    ensures Placed(WithNew(g, h, c))
    ensures h !in g.completed && h !in g.finished
  {
    assert h !in multiset(g.chains.Keys);
    assert g.chains[h := c].Keys == g.chains.Keys + {h};
    assert multiset(g.chains.Keys + {h}) == multiset(g.chains.Keys) + multiset{h};
    assert h in g.completed ==> h in multiset(g.completed);
  }

  lemma MoveHead(g: Requests)
    requires Placed(g) && g.offered != []
    ensures Placed(MovedHead(g))
    ensures g.offered[0] in g.chains && g.offered[0] !in g.taken
  {
    var h := g.offered[0];
    assert g.offered == [h] + g.offered[1..];
    assert multiset(g.chains.Keys)[h] <= 1;
    assert multiset(g.taken + {h}) == multiset(g.taken) + multiset{h};
    assert h in multiset(g.chains.Keys);
  }

  lemma CompleteOne(g: Requests, h: nat)
    requires Placed(g) && h in g.taken
    ensures Placed(Completed(g, h))
    ensures h in g.chains
  {
    assert multiset(g.taken - {h}) + multiset{h} == multiset(g.taken);
    assert h in multiset(g.chains.Keys);
  }

  lemma FinishOne(g: Requests)
    requires Placed(g) && g.completed != []
    ensures Placed(Finished(g))
    ensures g.completed[0] in g.chains && g.completed[0] !in g.finished
  {
    var h := g.completed[0];
    assert g.completed == [h] + g.completed[1..];
    assert multiset(g.chains.Keys)[h] <= 1;
    assert multiset(g.finished + {h}) == multiset(g.finished) + multiset{h};
    assert h in multiset(g.chains.Keys);
  }

  lemma DropPlaced(g: Requests, h: nat)
    requires Placed(g) && h in g.chains && h in g.finished
    ensures Placed(Dropped(g, h))
  {
    assert (g.chains - {h}).Keys == g.chains.Keys - {h};
    assert multiset(g.chains.Keys - {h}) + multiset{h} == multiset(g.chains.Keys);
    assert multiset(g.finished - {h}) + multiset{h} == multiset(g.finished);
    var m := multiset(g.offered) + multiset(g.taken) + multiset(g.completed) + multiset(g.finished - {h});
    assert m == m + multiset{h} - multiset{h};
    assert multiset(g.chains.Keys - {h}) == multiset(g.chains.Keys - {h}) + multiset{h} - multiset{h};
  }

  lemma QueueLength(g: Requests)
    requires Placed(g)
    ensures |g.offered| + |g.completed| <= |g.chains|
  {
    assert |multiset(g.offered) + multiset(g.taken) + multiset(g.completed) + multiset(g.finished)| == |multiset(g.chains.Keys)|;
  }

  lemma TrackNew(g: Requests, info: seq<Info>, busy: set<nat>, h: nat, c: Chain)
    requires Tracked(g, info, busy) && h !in g.chains && h !in g.finished && h !in g.completed && h < NUM
    requires forall a :: a in g.chains ==> g.chains[a].buf != c.buf
    ensures Tracked(WithNew(g, h, c), info[h := Info(Some(c.buf), 0xff)], busy + {c.buf})
  {
  }

  lemma TrackSame(g: Requests, g': Requests, info: seq<Info>, busy: set<nat>)
    requires Tracked(g, info, busy) && g'.chains == g.chains && g'.completed == g.completed && g'.finished == g.finished
    ensures Tracked(g', info, busy)
  {
  }

  lemma TrackComplete(g: Requests, info: seq<Info>, busy: set<nat>, h: nat)
    requires Tracked(g, info, busy) && h < NUM
    ensures |info| == NUM && Tracked(Completed(g, h), info[h := info[h].(status := 0)], busy)
  {
  }

  lemma TrackFinish(g: Requests, info: seq<Info>, busy: set<nat>)
    requires Tracked(g, info, busy) && g.completed != [] && g.completed[0] in g.chains && g.completed[0] !in g.finished
    ensures
      var h := g.completed[0];
      && h < |info| && info[h].b == Some(g.chains[h].buf) && info[h].status == 0 && g.chains[h].buf in busy
      && Tracked(Finished(g), info, busy - {g.chains[h].buf})
  {
  }

  lemma DropTracked(g: Requests, info: seq<Info>, busy: set<nat>, h: nat)
    requires Tracked(g, info, busy) && h in g.chains
    ensures g.chains[h].buf !in busy <==> h in g.finished
    ensures h < |info| && Tracked(Dropped(g, h), info[h := info[h].(b := None)], busy)
  {
  }

  lemma LaidOutIn(g: Requests, desc: seq<Desc>, free: seq<bool>, h: nat)
    requires ChainsOk(g.chains, g.owner, desc, free) && h in g.chains
    ensures h < NUM && LaidOut(desc, h, g.chains[h])
  {
  }

  lemma OwnedNotFree(chains: map<nat, Chain>, owner: seq<Option<nat>>, desc: seq<Desc>, free: seq<bool>, h: nat)
    requires ChainsOk(chains, owner, desc, free) && h in chains
    ensures LaidOut(desc, h, chains[h]) && |free| == |desc| == |owner|
    ensures h < |free| && chains[h].d1 < |free| && chains[h].d2 < |free|
    ensures !free[h] && !free[chains[h].d1] && !free[chains[h].d2]
  {
    assert LaidOut(desc, h, chains[h]) && Owns(chains, owner, h);
  }

  lemma Sizes(g: Requests, desc: seq<Desc>, free: seq<bool>, info: seq<Info>, busy: set<nat>, v: Virtq, seen: nat)
    requires ChainsOk(g.chains, g.owner, desc, free) && Tracked(g, info, busy) && RingHolds(v, seen, g.offered)
    ensures |desc| == |g.owner| == |info| == |v.ring| == NUM
  {
  }

  lemma ThreeBelow(idx: seq<nat>)
    requires |idx| == 3 && Distinct(idx) && Below(idx, NUM)
    ensures idx[0] < NUM && idx[1] < NUM && idx[2] < NUM
    ensures idx[0] != idx[1] && idx[0] != idx[2] && idx[1] != idx[2]
  {
  }

  ghost predicate FewerThanThree(free: seq<bool>) {
    forall a, b, c :: 0 <= a < b < c < |free| ==> !(free[a] && free[b] && free[c])
  }

  lemma NoneLeft(free: seq<bool>, now: seq<bool>, idx: seq<nat>)
    requires |idx| < 3 && Taken(free, now, idx) && forall x :: 0 <= x < |now| ==> !now[x]
    ensures FewerThanThree(free)
  {
    assert forall x :: 0 <= x < |free| && free[x] ==> x in idx;
  }

  /** `now` is `free` with the listed descriptors marked in use. */
  ghost predicate Taken(free: seq<bool>, now: seq<bool>, idx: seq<nat>) {
    && |now| == |free|
    && forall i :: 0 <= i < |free| ==> (now[i] <==> free[i] && i !in idx)
  }

  lemma Assoc(a: seq<nat>, b: seq<nat>, c: seq<nat>)
    ensures a + (b + c) == (a + b) + c
  {
  }

  lemma NextLate(late: seq<nat>, n: nat)
    requires Distinct(late) && n < |late|
    ensures late[..n + 1] == late[..n] + [late[n]] && Elements(late[..n + 1]) == Elements(late[..n]) + {late[n]}
    ensures late[n] !in Elements(late[..n])
  {
    assert late[..n + 1] == late[..n] + [late[n]];
  }

  lemma ElementsOf(a: seq<nat>, b: seq<nat>)
    ensures Elements(a + b) == Elements(a) + Elements(b)
  {
    assert forall x :: x in a + b <==> x in a || x in b;
  }
}
