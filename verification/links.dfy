/** Link counts across link, unlink and create (kernel/sysfile.c). */
module Links {
  import opened Dirs
  import opened Wrappers

  datatype Kind = FreeNode | Dir | File | Device

  datatype Node = Node(kind: Kind, nlink: nat, slots: seq<Dirent>)

  const NOTHING: Node := Node(FreeNode, 0, [])
  const ROOT := 1

  // ----- Counting entries -----

  /** An entry other than "." that names inode i. */
  predicate Names(e: Dirent, i: nat) {
    Used(e) && e.inum == i && Cut(e.name) != "."
  }

  ghost function One(e: Dirent, i: nat): nat {
    if Names(e, i) then 1 else 0
  }

  ghost function Refs(slots: seq<Dirent>, i: nat): nat {
    if slots == [] then 0 else Refs(slots[..|slots| - 1], i) + One(slots[|slots| - 1], i)
  }

  predicate LinkedDir(n: Node) {
    n.kind.Dir? && n.nlink > 0
  }

  /** Entries naming i in a directory that is still linked, from slot `skip` on. */
  ghost function Part(n: Node, i: nat, skip: nat): nat {
    if LinkedDir(n) && skip <= |n.slots| then Refs(n.slots[skip..], i) else 0
  }

  /** Entries naming i in all directories that are still linked. */
  ghost function Count(nodes: seq<Node>, i: nat, skip: nat): nat {
    if nodes == [] then 0 else Count(nodes[..|nodes| - 1], i, skip) + Part(nodes[|nodes| - 1], i, skip)
  }

  lemma {:induction false} RefsSet(slots: seq<Dirent>, k: nat, e: Dirent, i: nat)
    requires k < |slots|
    ensures Refs(slots[k := e], i) + One(slots[k], i) == Refs(slots, i) + One(e, i)
  {
    var n := |slots| - 1;
    if k < n {
      RefsSet(slots[..n], k, e, i);
      assert slots[k := e][..n] == slots[..n][k := e];
    } else {
      assert slots[k := e][..n] == slots[..n];
    }
  }

  lemma RefsAppend(slots: seq<Dirent>, e: Dirent, i: nat)
    ensures Refs(slots + [e], i) == Refs(slots, i) + One(e, i)
  {
    assert (slots + [e])[..|slots|] == slots;
  }

  lemma {:induction false} RefsFrom(slots: seq<Dirent>, k: nat, i: nat)
    requires k < |slots|
    ensures Refs(slots[k..], i) == One(slots[k], i) + Refs(slots[k + 1..], i)
    decreases |slots|
  {
    var n := |slots| - 1;
    var t := slots[k..];
    assert t[..|t| - 1] == slots[..n][k..];
    if k < n {
      RefsFrom(slots[..n], k, i);
      var u := slots[k + 1..];
      assert u[..|u| - 1] == slots[..n][k + 1..];
    } else {
      assert slots[..n][k..] == [] && slots[k + 1..] == [];
    }
  }

  lemma {:induction false} RefsSome(slots: seq<Dirent>, k: nat, i: nat)
    requires k < |slots| && Names(slots[k], i)
    ensures Refs(slots, i) >= 1
  {
    if k < |slots| - 1 {
      RefsSome(slots[..|slots| - 1], k, i);
    }
  }

  lemma {:induction false} RefsNone(slots: seq<Dirent>, i: nat)
    requires forall k :: 0 <= k < |slots| ==> !Names(slots[k], i)
    ensures Refs(slots, i) == 0
  {
    if slots != [] {
      RefsNone(slots[..|slots| - 1], i);
    }
  }

  lemma {:induction false} CountSet(nodes: seq<Node>, d: nat, n: Node, i: nat, skip: nat)
    requires d < |nodes|
    ensures Count(nodes[d := n], i, skip) + Part(nodes[d], i, skip) == Count(nodes, i, skip) + Part(n, i, skip)
  {
    hide Part;
    var m := |nodes| - 1;
    if d < m {
      CountSet(nodes[..m], d, n, i, skip);
      assert nodes[d := n][..m] == nodes[..m][d := n];
    } else {
      assert nodes[d := n][..m] == nodes[..m];
    }
  }

  lemma CountSet2(nodes: seq<Node>, d: nat, n: Node, e: nat, m: Node, i: nat, skip: nat)
    requires d < |nodes| && e < |nodes| && d != e
    ensures Count(nodes[d := n][e := m], i, skip) + Part(nodes[d], i, skip) + Part(nodes[e], i, skip)
         == Count(nodes, i, skip) + Part(n, i, skip) + Part(m, i, skip)
  {
    hide Part;
    CountSet(nodes, d, n, i, skip);
    CountSet(nodes[d := n], e, m, i, skip);
  }

  /** Every directory's entries are among those counted. */
  lemma {:induction false} PartInCount(nodes: seq<Node>, d: nat, i: nat, skip: nat)
    requires d < |nodes|
    ensures Part(nodes[d], i, skip) <= Count(nodes, i, skip)
  {
    hide Part;
    if d < |nodes| - 1 {
      PartInCount(nodes[..|nodes| - 1], d, i, skip);
    }
  }

  /** Two directories that each have an entry make at least two. */
  lemma TwoParts(nodes: seq<Node>, d: nat, e: nat, i: nat, skip: nat)
    requires d < |nodes| && e < |nodes| && d != e
    ensures Part(nodes[d], i, skip) + Part(nodes[e], i, skip) <= Count(nodes, i, skip)
  {
    hide Count, Refs;
    CountSet(nodes, d, NOTHING, i, skip);
    PartInCount(nodes[d := NOTHING], e, i, skip);
  }

  lemma {:induction false} CountSame(nodes: seq<Node>, i: nat, s: nat, t: nat)
    requires forall d :: 0 <= d < |nodes| ==> Part(nodes[d], i, s) == Part(nodes[d], i, t)
    ensures Count(nodes, i, s) == Count(nodes, i, t)
  {
    hide Part;
    if nodes != [] {
      CountSame(nodes[..|nodes| - 1], i, s, t);
    }
  }

  // ----- The invariant -----

  /** Nothing but "." and "..". */
  ghost predicate Bare(slots: seq<Dirent>) {
    forall k :: 2 <= k < |slots| ==> !Used(slots[k])
  }

  ghost predicate DirOk(slots: seq<Dirent>, i: nat, size: nat) {
    && 0 < i && |slots| >= 2 && Unique(slots)
    && slots[0].inum == i && Cut(slots[0].name) == "."
    && slots[1].inum != 0 && Cut(slots[1].name) == ".."
    && forall k :: 0 <= k < |slots| ==> slots[k].inum < size
  }

  ghost predicate NodeOk(n: Node, i: nat, size: nat) {
    && (n.kind.FreeNode? ==> n == NOTHING)
    && (!n.kind.Dir? ==> n.slots == [])
    && (n.kind.Dir? ==> DirOk(n.slots, i, size) && (n.nlink == 0 ==> Bare(n.slots)))
  }

  /** A linked directory is named once, by its parent, which its ".." names. */
  ghost predicate InTree(nodes: seq<Node>, c: nat)
    requires c < |nodes| && |nodes[c].slots| >= 2
  {
    var p := nodes[c].slots[1].inum;
    && Count(nodes, c, 2) == (if c == ROOT then 0 else 1)
    && (if c == ROOT then p == ROOT else p < |nodes| && Part(nodes[p], c, 2) >= 1)
  }

  ghost predicate AllNodesOk(nodes: seq<Node>) {
    |nodes| > ROOT && nodes[0] == NOTHING && LinkedDir(nodes[ROOT]) && forall i :: 0 <= i < |nodes| ==> NodeOk(nodes[i], i, |nodes|)
  }

  /** nlink is the number of entries other than "." that name the inode in still-linked directories. */
  ghost predicate CountsOk(nodes: seq<Node>) {
    forall i :: 0 < i < |nodes| ==> nodes[i].nlink == Count(nodes, i, 0)
  }

  ghost predicate TreeOk(nodes: seq<Node>)
    requires AllNodesOk(nodes)
  {
    forall c :: 0 <= c < |nodes| && LinkedDir(nodes[c]) ==> InTree(nodes, c)
  }

  ghost predicate LinksOk(nodes: seq<Node>) {
    AllNodesOk(nodes) && CountsOk(nodes) && TreeOk(nodes)
  }

  // ----- Changing one slot -----

  lemma TailPlaced(slots: seq<Dirent>, slots': seq<Dirent>, k: nat, i: nat, skip: nat)
    requires Placed(slots, slots', k) && skip <= k && skip <= |slots|
    ensures skip <= |slots'| && Refs(slots'[skip..], i) == Refs(slots[skip..], i) + One(slots'[k], i)
  {
    if k < |slots| {
      assert slots'[skip..] == slots[skip..][k - skip := slots'[k]];
      RefsSet(slots[skip..], k - skip, slots'[k], i);
      assert One(slots[k], i) == 0;
    } else {
      assert slots'[skip..] == slots[skip..] + [slots'[k]];
      RefsAppend(slots[skip..], slots'[k], i);
    }
  }

  lemma TailCleared(slots: seq<Dirent>, k: nat, i: nat, skip: nat)
    requires k < |slots| && skip <= k
    ensures Refs(slots[k := UNUSED][skip..], i) + One(slots[k], i) == Refs(slots[skip..], i)
  {
    assert slots[k := UNUSED][skip..] == slots[skip..][k - skip := UNUSED];
    RefsSet(slots[skip..], k - skip, UNUSED, i);
  }

  /** The two fixed slots of a directory count for its parent only. */
  lemma FixedSlots(n: Node, c: nat, size: nat, i: nat)
    requires LinkedDir(n) && DirOk(n.slots, c, size)
    ensures Part(n, i, 0) == Part(n, i, 2) + if n.slots[1].inum == i then 1 else 0
  {
    RefsFrom(n.slots, 0, i);
    RefsFrom(n.slots, 1, i);
    assert n.slots[0..] == n.slots;
  }

  lemma FewerNamed(n: Node, c: nat, size: nat, i: nat)
    requires n.kind.Dir? ==> DirOk(n.slots, c, size)
    ensures Part(n, i, 2) <= Part(n, i, 0)
  {
    if LinkedDir(n) {
      FixedSlots(n, c, size, i);
    }
  }

  lemma {:induction false} CountFewer(nodes: seq<Node>, i: nat, size: nat)
    requires forall d :: 0 <= d < |nodes| ==> NodeOk(nodes[d], d, size)
    ensures Count(nodes, i, 2) <= Count(nodes, i, 0)
  {
    if nodes != [] {
      var m := |nodes| - 1;
      CountFewer(nodes[..m], i, size);
      hide Part;
      FewerNamed(nodes[m], m, size, i);
    }
  }

  /** A directory with nothing in it names nothing beyond its fixed slots. */
  lemma BareNamesNone(n: Node, i: nat)
    requires Bare(n.slots)
    ensures Part(n, i, 2) == 0
  {
    if LinkedDir(n) && 2 <= |n.slots| {
      var t := n.slots[2..];
      assert forall k :: 0 <= k < |t| ==> t[k] == n.slots[k + 2];
      RefsNone(t, i);
    }
  }

  // ----- Adding an entry -----

  /** The entry lands behind the fixed slots. */
  lemma PlaceOf(slots: seq<Dirent>, slots': seq<Dirent>, c: nat, size: nat, n: string, ip: nat) returns (k: nat)
    requires DirOk(slots, c, size) && Linked(slots, slots', n, ip) && ip != 0
    ensures 2 <= k < |slots'| && Placed(slots, slots', k) && slots'[k].inum == ip && Cut(slots'[k].name) == n
    ensures slots'[0] == slots[0] && slots'[1] == slots[1]
  {
    k :| k < |slots'| && slots'[k].inum == ip && Cut(slots'[k].name) == n && Placed(slots, slots', k);
  }

  lemma PartPlaced(n: Node, n': Node, k: nat, i: nat, skip: nat)
    requires LinkedDir(n) && LinkedDir(n') && Placed(n.slots, n'.slots, k) && skip <= 2 <= k && |n.slots| >= 2
    ensures Part(n', i, skip) == Part(n, i, skip) + One(n'.slots[k], i)
  {
    TailPlaced(n.slots, n'.slots, k, i, skip);
  }

  lemma StillDir(slots: seq<Dirent>, slots': seq<Dirent>, c: nat, size: nat, n: string, ip: nat)
    requires DirOk(slots, c, size) && Unique(slots') && Linked(slots, slots', n, ip) && 0 < ip < size
    ensures DirOk(slots', c, size)
  {
    var k := PlaceOf(slots, slots', c, size, n, ip);
  }

  /** The counts after two nodes changed. */
  lemma CountsAfter(nodes: seq<Node>, d: nat, n: Node, e: nat, m: Node)
    requires CountsOk(nodes) && d < |nodes| && e < |nodes| && d != e
    requires forall i :: 0 < i < |nodes| ==>
      (if i == d then n.nlink else if i == e then m.nlink else nodes[i].nlink) + Part(nodes[d], i, 0) + Part(nodes[e], i, 0)
      == nodes[i].nlink + Part(n, i, 0) + Part(m, i, 0)
    ensures CountsOk(nodes[d := n][e := m])
  {
    hide Count, Part;
    var nodes' := nodes[d := n][e := m];
    forall i | 0 < i < |nodes'|
      ensures nodes'[i].nlink == Count(nodes', i, 0)
    {
      CountSet2(nodes, d, n, e, m, i, 0);
    }
  }

  lemma NodesAfter(nodes: seq<Node>, d: nat, n: Node, e: nat, m: Node)
    requires AllNodesOk(nodes) && 0 < d < |nodes| && 0 < e < |nodes| && d != e
    requires NodeOk(n, d, |nodes|) && NodeOk(m, e, |nodes|) && LinkedDir(nodes[d := n][e := m][ROOT])
    ensures AllNodesOk(nodes[d := n][e := m])
  {
    hide NodeOk;
  }

  /** A linked directory keeps its place in the tree when what names it, and its "..", stay. */
  lemma StaysInTree(nodes: seq<Node>, d: nat, n: Node, e: nat, m: Node, c: nat)
    requires d < |nodes| && e < |nodes| && d != e && AllNodesOk(nodes) && AllNodesOk(nodes[d := n][e := m])
    requires c < |nodes| && LinkedDir(nodes[c]) && LinkedDir(nodes[d := n][e := m][c]) && InTree(nodes, c)
    requires nodes[d := n][e := m][c].slots[1] == nodes[c].slots[1]
    requires Part(n, c, 2) == Part(nodes[d], c, 2) && Part(m, c, 2) == Part(nodes[e], c, 2)
    ensures InTree(nodes[d := n][e := m], c)
  {
    hide Count, Part;
    CountSet2(nodes, d, n, e, m, c, 2);
  }

  /** The nodes after inode ip gets a name in directory dp: with one link more, and as given. */
  ghost function Named(nodes: seq<Node>, dp: nat, slots': seq<Dirent>, ip: nat, node: Node): seq<Node>
    requires dp < |nodes| && ip < |nodes|
  {
    nodes[dp := nodes[dp].(slots := slots')][ip := node]
  }

  lemma NameFile(nodes: seq<Node>, dp: nat, slots': seq<Dirent>, n: string, ip: nat, node: Node)
    requires LinksOk(nodes) && dp < |nodes| && 0 < ip < |nodes| && nodes[dp].kind.Dir? && !nodes[ip].kind.Dir?
    requires Linked(nodes[dp].slots, slots', n, ip) && Unique(slots') && n != "."
    requires (node.kind.File? || node.kind.Device?) && node.slots == [] && node.nlink == nodes[ip].nlink + 1
    requires LinkedDir(nodes[dp])
    ensures LinksOk(Named(nodes, dp, slots', ip, node))
  {
    var dn := nodes[dp].(slots := slots');
    var nodes' := Named(nodes, dp, slots', ip, node);
    assert NodeOk(nodes[dp], dp, |nodes|) && NodeOk(nodes[ip], ip, |nodes|);
    StillDir(nodes[dp].slots, slots', dp, |nodes|, n, ip);
    var k := PlaceOf(nodes[dp].slots, slots', dp, |nodes|, n, ip);
    forall i: nat, skip: nat | skip <= 2
      ensures Part(dn, i, skip) == Part(nodes[dp], i, skip) + if i == ip then 1 else 0
    {
      PartPlaced(nodes[dp], dn, k, i, skip);
    }
    hide Refs, Linked, Placed, DirOk;
    NodesAfter(nodes, dp, dn, ip, node);
    CountsAfter(nodes, dp, dn, ip, node);
    forall c | 0 <= c < |nodes'| && LinkedDir(nodes'[c])
      ensures InTree(nodes', c)
    {
      StaysInTree(nodes, dp, dn, ip, node, c);
    }
  }

  /** Naming a file in a directory that is no longer linked leaves its link count one too high. */
  lemma NameFileInUnlinked(nodes: seq<Node>, dp: nat, slots': seq<Dirent>, ip: nat, node: Node)
    requires LinksOk(nodes) && dp < |nodes| && 0 < ip < |nodes| && dp != ip && nodes[dp].kind.Dir? && !LinkedDir(nodes[dp])
    requires !nodes[ip].kind.Dir? && !node.kind.Dir? && node.nlink == nodes[ip].nlink + 1
    ensures !CountsOk(Named(nodes, dp, slots', ip, node))
  {
    CountSet2(nodes, dp, nodes[dp].(slots := slots'), ip, node, ip, 0);
    assert nodes[ip].nlink == Count(nodes, ip, 0);
  }

  // ----- A new directory -----

  /** The first two entries of a new directory. */
  ghost predicate FreshDir(slots: seq<Dirent>, ip: nat, dp: nat) {
    |slots| == 2 && slots[0].inum == ip && Cut(slots[0].name) == "." && slots[1].inum == dp && Cut(slots[1].name) == ".."
  }

  lemma FreshParts(n: Node, ip: nat, dp: nat, i: nat)
    requires LinkedDir(n) && FreshDir(n.slots, ip, dp) && ip != 0 && dp != 0
    ensures Part(n, i, 2) == 0 && Part(n, i, 0) == if i == dp then 1 else 0
  {
    assert n.slots[0..] == n.slots && n.slots[2..] == [];
    RefsFrom(n.slots, 0, i);
    RefsFrom(n.slots, 1, i);
  }

  /** The nodes after a new directory ip is made in directory dp. */
  ghost function NewDir(nodes: seq<Node>, dp: nat, slots': seq<Dirent>, ip: nat, dots: seq<Dirent>): seq<Node>
    requires dp < |nodes| && ip < |nodes|
  {
    nodes[dp := Node(Dir, nodes[dp].nlink + 1, slots')][ip := Node(Dir, 1, dots)]
  }

  lemma MakeDir(nodes: seq<Node>, dp: nat, slots': seq<Dirent>, n: string, ip: nat, dots: seq<Dirent>)
    requires LinksOk(nodes) && 0 < dp < |nodes| && 0 < ip < |nodes| && LinkedDir(nodes[dp]) && nodes[ip] == NOTHING
    requires Linked(nodes[dp].slots, slots', n, ip) && Unique(slots') && n != "." && FreshDir(dots, ip, dp)
    ensures LinksOk(NewDir(nodes, dp, slots', ip, dots))
  {
    hide Refs, Count, Part, DirOk, Linked, Placed, Unique, Cut, One, InTree, FreshDir, Bare;
    var dn, inode := Node(Dir, nodes[dp].nlink + 1, slots'), Node(Dir, 1, dots);
    var nodes' := NewDir(nodes, dp, slots', ip, dots);
    assert NodeOk(nodes[dp], dp, |nodes|);
    DirSlots(nodes[dp].slots, dp, |nodes|);
    FreshOk(dots, ip, dp, |nodes|);
    StillDir(nodes[dp].slots, slots', dp, |nodes|, n, ip);
    var k := PlaceOf(nodes[dp].slots, slots', dp, |nodes|, n, ip);
    forall i: nat, skip: nat | skip <= 2
      ensures Part(dn, i, skip) == Part(nodes[dp], i, skip) + if i == ip then 1 else 0
    {
      PartPlaced(nodes[dp], dn, k, i, skip);
      OneEntry(slots'[k], n, ip, i);
    }
    forall i: nat
      ensures Part(inode, i, 2) == 0 && Part(inode, i, 0) == if i == dp then 1 else 0
    {
      FreshParts(inode, ip, dp, i);
    }
    NodesAfter(nodes, dp, dn, ip, inode);
    NoNames(nodes, ip);
    NotDir(nodes[ip]);
    CountsAfter(nodes, dp, dn, ip, inode);
    CountSet2(nodes, dp, dn, ip, inode, ip, 2);
    NewInTree(nodes', ip, dp);
    forall c | 0 <= c < |nodes'| && LinkedDir(nodes'[c])
      ensures |nodes'[c].slots| >= 2 && InTree(nodes', c)
    {
      if c != ip {
        LinkedSlots(nodes, c);
        StaysInTree(nodes, dp, dn, ip, inode, c);
      }
    }
  }

  lemma NewInTree(nodes: seq<Node>, ip: nat, dp: nat)
    requires ip < |nodes| && FreshDir(nodes[ip].slots, ip, dp) && dp < |nodes| && ip != ROOT
    requires Count(nodes, ip, 2) == 1 && Part(nodes[dp], ip, 2) >= 1
    ensures |nodes[ip].slots| >= 2 && InTree(nodes, ip)
  {
  }

  lemma FreshOk(dots: seq<Dirent>, ip: nat, dp: nat, size: nat)
    requires FreshDir(dots, ip, dp) && 0 < ip < size && 0 < dp < size
    ensures DirOk(dots, ip, size) && Bare(dots)
  {
  }

  lemma DirSlots(slots: seq<Dirent>, c: nat, size: nat)
    requires DirOk(slots, c, size)
    ensures |slots| >= 2 && Unique(slots) && c > 0
  {
  }

  lemma OneEntry(e: Dirent, n: string, ip: nat, i: nat)
    requires e.inum == ip != 0 && Cut(e.name) == n && n != "."
    ensures One(e, i) == if i == ip then 1 else 0
  {
  }

  /** Nothing names a free inode. */
  lemma NoNames(nodes: seq<Node>, ip: nat)
    requires LinksOk(nodes) && 0 < ip < |nodes| && nodes[ip].nlink == 0
    ensures Count(nodes, ip, 2) == 0 && forall d :: 0 <= d < |nodes| ==> Part(nodes[d], ip, 0) == 0 && Part(nodes[d], ip, 2) == 0
  {
    hide Count, Part;
    assert nodes[ip].nlink == Count(nodes, ip, 0);
    CountFewer(nodes, ip, |nodes|);
    forall d | 0 <= d < |nodes|
      ensures Part(nodes[d], ip, 0) == 0 && Part(nodes[d], ip, 2) == 0
    {
      PartInCount(nodes, d, ip, 0);
      PartInCount(nodes, d, ip, 2);
    }
  }

  /** Making a directory in one that is no longer linked links it again, and with it the entry "..", which its old
      parent's count does not have. */
  lemma MakeDirInUnlinked(nodes: seq<Node>, dp: nat, slots': seq<Dirent>, n: string, ip: nat, dots: seq<Dirent>)
    requires LinksOk(nodes) && 0 < dp < |nodes| && 0 < ip < |nodes| && nodes[dp].kind.Dir? && !LinkedDir(nodes[dp]) && nodes[ip] == NOTHING
    requires Linked(nodes[dp].slots, slots', n, ip) && Unique(slots') && n != "." && FreshDir(dots, ip, dp)
    ensures !CountsOk(NewDir(nodes, dp, slots', ip, dots))
  {
    hide Count, Refs, Cut, Unique, InTree, One, Part;
    var dn, inode := Node(Dir, nodes[dp].nlink + 1, slots'), Node(Dir, 1, dots);
    var nodes' := NewDir(nodes, dp, slots', ip, dots);
    assert NodeOk(nodes[dp], dp, |nodes|);
    var k := PlaceOf(nodes[dp].slots, slots', dp, |nodes|, n, ip);
    var p := slots'[1].inum;
    StillDir(nodes[dp].slots, slots', dp, |nodes|, n, ip);
    FixedSlots(dn, dp, |nodes|, p);
    RevivedTail(nodes[dp].slots, dn, k, p);
    OneEntry(slots'[k], n, ip, p);
    FreshParts(inode, ip, dp, p);
    Unlinked(nodes[dp], p);
    Unlinked(nodes[ip], p);
    CountSet2(nodes, dp, dn, ip, inode, p, 0);
    assert nodes[p].nlink == Count(nodes, p, 0);
    assert Count(nodes', p, 0) == nodes'[p].nlink + 1;
  }

  lemma RevivedTail(slots: seq<Dirent>, dn: Node, k: nat, i: nat)
    requires Bare(slots) && |slots| >= 2 && 2 <= k && LinkedDir(dn) && Placed(slots, dn.slots, k)
    ensures Part(dn, i, 2) == One(dn.slots[k], i)
  {
    TailPlaced(slots, dn.slots, k, i, 2);
    BareTail(slots, i);
  }

  lemma BareTail(slots: seq<Dirent>, i: nat)
    requires Bare(slots) && |slots| >= 2
    ensures Refs(slots[2..], i) == 0
  {
    var t := slots[2..];
    assert forall k :: 0 <= k < |t| ==> t[k] == slots[k + 2];
    RefsNone(t, i);
  }

  // ----- Removing an entry -----

  lemma PartCleared(n: Node, n': Node, k: nat, i: nat, skip: nat)
    requires LinkedDir(n) && LinkedDir(n') && k < |n.slots| && n'.slots == n.slots[k := UNUSED] && skip <= 2 <= k
    ensures Part(n', i, skip) + One(n.slots[k], i) == Part(n, i, skip)
  {
    TailCleared(n.slots, k, i, skip);
  }

  lemma ClearedDir(slots: seq<Dirent>, k: nat, c: nat, size: nat)
    requires DirOk(slots, c, size) && 2 <= k < |slots| && Used(slots[k])
    ensures DirOk(slots[k := UNUSED], c, size)
  {
    Cleared(slots, k);
  }

  /** An entry behind the fixed slots is not called "." or "..". */
  lemma NotFixed(slots: seq<Dirent>, c: nat, size: nat, k: nat)
    requires DirOk(slots, c, size) && 2 <= k < |slots| && Used(slots[k])
    ensures Cut(slots[k].name) != "." && Cut(slots[k].name) != ".."
    ensures forall i :: One(slots[k], i) == if i == slots[k].inum then 1 else 0
  {
  }

  /** The nodes after slot k of directory dp, which names a file, is cleared. */
  ghost function FileGone(nodes: seq<Node>, dp: nat, k: nat, ip: nat): seq<Node>
    requires dp < |nodes| && k < |nodes[dp].slots| && ip < |nodes| && nodes[ip].nlink > 0
  {
    nodes[dp := nodes[dp].(slots := nodes[dp].slots[k := UNUSED])][ip := nodes[ip].(nlink := nodes[ip].nlink - 1)]
  }

  lemma RemoveFile(nodes: seq<Node>, dp: nat, k: nat, ip: nat)
    requires LinksOk(nodes) && dp < |nodes| && LinkedDir(nodes[dp]) && 2 <= k < |nodes[dp].slots| && Used(nodes[dp].slots[k])
    requires ip == nodes[dp].slots[k].inum < |nodes| && nodes[ip].nlink > 0 && !nodes[ip].kind.Dir?
    ensures LinksOk(FileGone(nodes, dp, k, ip))
  {
    hide Refs, Count, Part, DirOk, Unique, Cut, One, InTree, Bare;
    var dn, inode := nodes[dp].(slots := nodes[dp].slots[k := UNUSED]), nodes[ip].(nlink := nodes[ip].nlink - 1);
    var nodes' := FileGone(nodes, dp, k, ip);
    NotDir(inode);
    assert NodeOk(nodes[dp], dp, |nodes|) && NodeOk(nodes[ip], ip, |nodes|);
    ClearedDir(nodes[dp].slots, k, dp, |nodes|);
    NotFixed(nodes[dp].slots, dp, |nodes|, k);
    forall i: nat, skip: nat | skip <= 2
      ensures Part(dn, i, skip) + (if i == ip then 1 else 0) == Part(nodes[dp], i, skip)
    {
      PartCleared(nodes[dp], dn, k, i, skip);
    }
    NotDir(nodes[ip]);
    DirSlots(nodes[dp].slots, dp, |nodes|);
    NodesAfter(nodes, dp, dn, ip, inode);
    CountsAfter(nodes, dp, dn, ip, inode);
    forall c | 0 <= c < |nodes'| && LinkedDir(nodes'[c])
      ensures |nodes'[c].slots| >= 2 && InTree(nodes', c)
    {
      LinkedSlots(nodes, c);
      StaysInTree(nodes, dp, dn, ip, inode, c);
    }
  }

  lemma NotDir(n: Node)
    requires !n.kind.Dir?
    ensures forall i, skip: nat :: Part(n, i, skip) == 0
  {
  }

  lemma LinkedSlots(nodes: seq<Node>, c: nat)
    requires AllNodesOk(nodes) && c < |nodes| && nodes[c].kind.Dir?
    ensures |nodes[c].slots| >= 2 && DirOk(nodes[c].slots, c, |nodes|)
  {
    assert NodeOk(nodes[c], c, |nodes|);
  }

  /** A file that a linked directory names has at least one link. */
  lemma NamedHasLink(nodes: seq<Node>, dp: nat, k: nat)
    requires LinksOk(nodes) && dp < |nodes| && LinkedDir(nodes[dp]) && 2 <= k < |nodes[dp].slots| && Used(nodes[dp].slots[k])
    ensures nodes[dp].slots[k].inum < |nodes| && nodes[nodes[dp].slots[k].inum].nlink > 0
    ensures !nodes[nodes[dp].slots[k].inum].kind.FreeNode?
    ensures Part(nodes[dp], nodes[dp].slots[k].inum, 2) >= 1
  {
    hide Count, Unique, Cut, TreeOk, Refs;
    assert NodeOk(nodes[dp], dp, |nodes|);
    var slots, ip := nodes[dp].slots, nodes[dp].slots[k].inum;
    NotFixed(slots, dp, |nodes|, k);
    assert slots[2..][k - 2] == slots[k];
    RefsSome(slots[2..], k - 2, ip);
    FewerNamed(nodes[dp], dp, |nodes|, ip);
    PartInCount(nodes, dp, ip, 0);
    assert nodes[ip].nlink == Count(nodes, ip, 0);
    assert NodeOk(nodes[ip], ip, |nodes|);
  }

  /** The nodes after slot k of directory dp, which names the empty directory ip, is cleared. */
  ghost function DirGone(nodes: seq<Node>, dp: nat, k: nat, ip: nat): seq<Node>
    requires dp < |nodes| && k < |nodes[dp].slots| && ip < |nodes| && nodes[ip].nlink > 0 && nodes[dp].nlink > 0
  {
    nodes[dp := Node(nodes[dp].kind, nodes[dp].nlink - 1, nodes[dp].slots[k := UNUSED])][ip := nodes[ip].(nlink := nodes[ip].nlink - 1)]
  }

  /** An empty directory's links: its parent's entry and nothing else; its ".." names that parent. */
  lemma EmptyDirLinks(nodes: seq<Node>, dp: nat, ip: nat)
    requires LinksOk(nodes) && dp < |nodes| && ip < |nodes| && LinkedDir(nodes[dp]) && LinkedDir(nodes[ip]) && Bare(nodes[ip].slots)
    requires Part(nodes[dp], ip, 2) >= 1
    ensures ip != ROOT && ip != dp && nodes[ip].nlink == 1
    ensures |nodes[ip].slots| >= 2 && nodes[ip].slots[1].inum == dp
  {
    hide Count, Part, Refs, Cut, Unique;
    LinkedSlots(nodes, ip);
    BareNamesNone(nodes[ip], ip);
    assert InTree(nodes, ip);
    PartInCount(nodes, dp, ip, 2);
    var p := nodes[ip].slots[1].inum;
    if p != dp {
      TwoParts(nodes, p, dp, ip, 2);
    }
    forall d | 0 <= d < |nodes|
      ensures Part(nodes[d], ip, 0) == Part(nodes[d], ip, 2)
    {
      NotItsChild(nodes, d, ip);
    }
    CountSame(nodes, ip, 0, 2);
  }

  /** No linked directory has an empty directory other than the root as its parent. */
  lemma NotItsChild(nodes: seq<Node>, d: nat, ip: nat)
    requires LinksOk(nodes) && d < |nodes| && ip < |nodes| && ip != ROOT && Bare(nodes[ip].slots)
    ensures Part(nodes[d], ip, 0) == Part(nodes[d], ip, 2)
  {
    hide Count, Refs, Cut, Unique;
    if LinkedDir(nodes[d]) {
      LinkedSlots(nodes, d);
      FixedSlots(nodes[d], d, |nodes|, ip);
      BareNamesNone(nodes[ip], d);
      assert InTree(nodes, d);
    }
  }

  /** A directory that has a child directory has another link besides the child's "..". */
  lemma ParentStays(nodes: seq<Node>, dp: nat, ip: nat)
    requires LinksOk(nodes) && dp < |nodes| && ip < |nodes| && LinkedDir(nodes[dp]) && LinkedDir(nodes[ip]) && Bare(nodes[ip].slots)
    requires ip != ROOT && ip != dp && |nodes[ip].slots| >= 2 && nodes[ip].slots[1].inum == dp
    ensures nodes[dp].nlink >= 2
  {
    hide Count, Part, Refs, Cut, Unique;
    LinkedSlots(nodes, ip);
    LinkedSlots(nodes, dp);
    FixedSlots(nodes[ip], ip, |nodes|, dp);
    BareNamesNone(nodes[ip], dp);
    assert InTree(nodes, dp);
    var q := nodes[dp].slots[1].inum;
    if dp == ROOT {
      FixedSlots(nodes[dp], dp, |nodes|, dp);
      TwoParts(nodes, ip, dp, dp, 0);
    } else {
      FewerNamed2(nodes, q, dp);
      TwoParts(nodes, ip, q, dp, 0);
    }
    assert nodes[dp].nlink == Count(nodes, dp, 0);
  }

  lemma FewerNamed2(nodes: seq<Node>, q: nat, i: nat)
    requires AllNodesOk(nodes) && q < |nodes|
    ensures Part(nodes[q], i, 2) <= Part(nodes[q], i, 0)
  {
    assert NodeOk(nodes[q], q, |nodes|);
    hide Part, DirOk;
    FewerNamed(nodes[q], q, |nodes|, i);
  }

  lemma RemoveDir(nodes: seq<Node>, dp: nat, k: nat, ip: nat)
    requires LinksOk(nodes) && dp < |nodes| && LinkedDir(nodes[dp]) && 2 <= k < |nodes[dp].slots| && Used(nodes[dp].slots[k])
    requires ip == nodes[dp].slots[k].inum < |nodes| && LinkedDir(nodes[ip]) && Bare(nodes[ip].slots)
    ensures LinksOk(DirGone(nodes, dp, k, ip))
  {
    hide Refs, Count, Part, DirOk, Unique, Cut, One, InTree, Bare;
    NamedHasLink(nodes, dp, k);
    EmptyDirLinks(nodes, dp, ip);
    ParentStays(nodes, dp, ip);
    var dn := Node(nodes[dp].kind, nodes[dp].nlink - 1, nodes[dp].slots[k := UNUSED]);
    var inode := nodes[ip].(nlink := nodes[ip].nlink - 1);
    var nodes' := DirGone(nodes, dp, k, ip);
    assert NodeOk(nodes[dp], dp, |nodes|) && NodeOk(nodes[ip], ip, |nodes|);
    ClearedDir(nodes[dp].slots, k, dp, |nodes|);
    NotFixed(nodes[dp].slots, dp, |nodes|, k);
    forall i: nat, skip: nat | skip <= 2
      ensures Part(dn, i, skip) + (if i == ip then 1 else 0) == Part(nodes[dp], i, skip)
    {
      PartCleared(nodes[dp], dn, k, i, skip);
    }
    forall i: nat
      ensures Part(inode, i, 0) == Part(inode, i, 2) == Part(nodes[ip], i, 2) == 0
      ensures Part(nodes[ip], i, 0) == if i == dp then 1 else 0
    {
      FixedSlots(nodes[ip], ip, |nodes|, i);
      BareNamesNone(nodes[ip], i);
      Unlinked(inode, i);
    }
    DirSlots(nodes[dp].slots, dp, |nodes|);
    DirSlots(nodes[ip].slots, ip, |nodes|);
    NodesAfter(nodes, dp, dn, ip, inode);
    CountsAfter(nodes, dp, dn, ip, inode);
    forall c | 0 <= c < |nodes'| && LinkedDir(nodes'[c])
      ensures |nodes'[c].slots| >= 2 && InTree(nodes', c)
    {
      LinkedSlots(nodes, c);
      StaysInTree(nodes, dp, dn, ip, inode, c);
    }
  }

  lemma Unlinked(n: Node, i: nat)
    requires n.nlink == 0
    ensures Part(n, i, 0) == Part(n, i, 2) == 0
  {
  }

  /** iput frees an inode without links; nothing counted changes. */
  lemma ReclaimKeeps(nodes: seq<Node>, i: nat)
    requires LinksOk(nodes) && 0 < i < |nodes| && nodes[i].nlink == 0
    ensures LinksOk(nodes[i := NOTHING])
  {
    hide Refs, Count, Part, DirOk, Unique, Cut, Bare;
    var nodes' := nodes[i := NOTHING];
    forall j, skip: nat | 0 <= j < |nodes| && skip in {0, 2}
      ensures Count(nodes', j, skip) == Count(nodes, j, skip)
    {
      CountSet(nodes, i, NOTHING, j, skip);
      Unlinked(nodes[i], j);
      Unlinked(NOTHING, j);
    }
    forall c | 0 <= c < |nodes'| && LinkedDir(nodes'[c])
      ensures |nodes'[c].slots| >= 2 && InTree(nodes', c)
    {
      LinkedSlots(nodes, c);
      assert InTree(nodes, c);
      Unlinked(nodes[i], c);
    }
  }

  // ----- The system calls -----

  /** A directory has a slot to reuse. */
  ghost predicate HasSlot(slots: seq<Dirent>) {
    exists k :: 0 <= k < |slots| && !Used(slots[k])
  }

  ghost predicate HasFree(nodes: seq<Node>) {
    exists i :: 0 < i < |nodes| && nodes[i].kind.FreeNode?
  }

  /** A name that unlink removes: there, not "." or "..", and not a directory with entries. */
  ghost predicate Removable(nodes: seq<Node>, dp: nat, n: string)
    requires dp < |nodes|
  {
    && n in DirMap(nodes[dp].slots) && n != "." && n != ".."
    && var ip := DirMap(nodes[dp].slots)[n]; ip < |nodes| && (nodes[ip].kind.Dir? ==> Bare(nodes[ip].slots))
  }

  /** isdirempty. */
  method Isdirempty(slots: seq<Dirent>) returns (empty: bool)
    ensures empty <==> Bare(slots)
  {
    var off := 2;
    while off < |slots|
      invariant 2 <= off && forall k :: 2 <= k < off && k < |slots| ==> !Used(slots[k])
    {
      if slots[off].inum != 0 {
        return false;
      }
      off := off + 1;
    }
    empty := true;
  }

  /** Names already taken cannot be added, so "." and ".." never are. */
  lemma NewName(nodes: seq<Node>, dp: nat, n: string)
    requires AllNodesOk(nodes) && dp < |nodes| && nodes[dp].kind.Dir? && n !in DirMap(nodes[dp].slots)
    ensures Unique(nodes[dp].slots) && n != "." && n != ".."
  {
    LinkedSlots(nodes, dp);
    MapIsSearch(nodes[dp].slots, n);
    hide DirMap, Cut;
  }

  /** A slot found under another name is behind the fixed ones, in a directory that is still linked. */
  lemma FoundSlot(nodes: seq<Node>, dp: nat, k: nat)
    requires LinksOk(nodes) && dp < |nodes| && nodes[dp].kind.Dir? && k < |nodes[dp].slots| && Used(nodes[dp].slots[k])
    requires Cut(nodes[dp].slots[k].name) != "." && Cut(nodes[dp].slots[k].name) != ".."
    ensures 2 <= k && LinkedDir(nodes[dp])
  {
    hide Cut, Unique, Count, Part, CountsOk, TreeOk;
    assert NodeOk(nodes[dp], dp, |nodes|);
  }

  class FileTree {
    var nodes: seq<Node>

    /** The root directory alone, with some unused slots. */
    constructor (size: nat, spare: nat)
      requires size > ROOT
      ensures LinksOk(nodes) && |nodes| == size && LinkedDir(nodes[ROOT]) && DirMap(nodes[ROOT].slots) == map["." := ROOT, ".." := ROOT]
      ensures forall i :: 0 <= i < size && i != ROOT ==> nodes[i] == NOTHING
    {
      var root := Node(Dir, 1, [Dirent(ROOT, "."), Dirent(ROOT, "..")] + seq(spare, _ => UNUSED));
      nodes := seq(size, i => if i == ROOT then root else NOTHING);
      new;
      RootOnly(nodes, root);
      RootMap(root.slots);
      hide DirMap, LinksOk;
    }

    /** sys_link, once the paths are resolved: `dp` is the new name's directory, if it was found. */
    method Link(ip: nat, dp: Option<nat>, name: string, room: bool) returns (ok: bool)
      requires LinksOk(nodes) && 0 < ip < |nodes| && !nodes[ip].kind.FreeNode?
      requires dp.Some? ==> dp.value < |nodes| && nodes[dp.value].kind.Dir?
      modifies this
      ensures !ok ==> nodes == old(nodes)
      ensures ok ==> dp.Some? && !old(nodes)[ip].kind.Dir? && LinkDone(old(nodes), nodes, dp.value, Cut(name), ip)
      ensures ok ==> (CountsOk(nodes) <==> LinkedDir(old(nodes)[dp.value])) && (LinksOk(nodes) <==> LinkedDir(old(nodes)[dp.value]))
      ensures ok <==>
        && dp.Some? && !old(nodes)[ip].kind.Dir? && Cut(name) !in DirMap(old(nodes)[dp.value].slots)
        && (room || HasSlot(old(nodes)[dp.value].slots))
    {
      hide LinksOk, CountsOk, DirMap, Cut, Unique, Linked;
      ghost var nodes0 := nodes;
      if nodes[ip].kind.Dir? {
        return false;
      }
      nodes := nodes[ip := nodes[ip].(nlink := nodes[ip].nlink + 1)];
      ok := false;
      if dp.Some? {
        var d := dp.value;
        Parts(nodes0, d);
        var slots';
        ok, slots' := Dirlink(nodes[d].slots, name, ip, room);
        if ok {
          NewName(nodes0, d, Cut(name));
          nodes := nodes[d := nodes[d].(slots := slots')];
          LinkEffect(nodes0, nodes, d, slots', Cut(name), ip);
        }
      }
      if !ok {
        nodes := nodes[ip := nodes[ip].(nlink := nodes[ip].nlink - 1)];
      }
    }

    /** sys_unlink, once the parent directory is found. Its nlink panic is not reached. */
    method Unlink(dp: nat, name: string) returns (ok: bool)
      requires LinksOk(nodes) && dp < |nodes| && nodes[dp].kind.Dir?
      modifies this
      ensures LinksOk(nodes)
      ensures !ok ==> nodes == old(nodes)
      ensures ok ==> Cut(name) in DirMap(old(nodes)[dp].slots) && Cut(name) != "." && Cut(name) != ".."
      ensures ok ==> UnlinkDone(old(nodes), nodes, dp, Cut(name), DirMap(old(nodes)[dp].slots)[Cut(name)])
      ensures ok <==> Removable(old(nodes), dp, Cut(name))
    {
      hide LinksOk, DirMap, Cut, Unique, Bare;
      ghost var nodes0 := nodes;
      Parts(nodes0, dp);
      var dot := NameCmp(name, ".");
      var dotdot := NameCmp(name, "..");
      ShortNames();
      if dot || dotdot {
        return false;
      }
      var found := Dirlookup(nodes[dp].slots, name);
      if found.None? {
        return false;
      }
      var off := found.value;
      FoundSlot(nodes0, dp, off);
      NamedHasLink(nodes0, dp, off);
      var ip := nodes[dp].slots[off].inum;
      if nodes[ip].nlink < 1 {
        assert false;
      }
      if nodes[ip].kind.Dir? {
        var empty := Isdirempty(nodes[ip].slots);
        if !empty {
          return false;
        }
        EmptyDirLinks(nodes0, dp, ip);
        RemoveDir(nodes0, dp, off, ip);
        Cleared(nodes[dp].slots, off);
        nodes := nodes[dp := nodes[dp].(slots := nodes[dp].slots[off := UNUSED])];
        nodes := nodes[dp := nodes[dp].(nlink := nodes[dp].nlink - 1)];
        nodes := nodes[ip := nodes[ip].(nlink := nodes[ip].nlink - 1)];
        assert nodes == DirGone(nodes0, dp, off, ip);
      } else {
        RemoveFile(nodes0, dp, off, ip);
        Cleared(nodes[dp].slots, off);
        nodes := nodes[dp := nodes[dp].(slots := nodes[dp].slots[off := UNUSED])];
        nodes := nodes[ip := nodes[ip].(nlink := nodes[ip].nlink - 1)];
        assert nodes == FileGone(nodes0, dp, off, ip);
      }
      ok := true;
    }

    /** ialloc: the first free inode. */
    method Ialloc() returns (r: Option<nat>)
      requires AllNodesOk(nodes)
      ensures r.None? ==> forall i :: 0 < i < |nodes| ==> !nodes[i].kind.FreeNode?
      ensures r.Some? ==> 0 < r.value < |nodes| && nodes[r.value] == NOTHING
    {
      hide DirOk, Bare;
      var inum := 1;
      while inum < |nodes|
        invariant 1 <= inum && forall i :: 0 < i < inum && i < |nodes| ==> !nodes[i].kind.FreeNode?
      {
        if nodes[inum].kind.FreeNode? {
          assert NodeOk(nodes[inum], inum, |nodes|);
          return Some(inum);
        }
        inum := inum + 1;
      }
      r := None;
    }

    /** The part of iput that frees an inode no longer linked or in use. */
    method Reclaim(i: nat)
      requires LinksOk(nodes) && 0 < i < |nodes| && nodes[i].nlink == 0
      modifies this
      ensures LinksOk(nodes) && nodes == old(nodes)[i := NOTHING]
    {
      ReclaimKeeps(nodes, i);
      hide LinksOk;
      nodes := nodes[i := NOTHING];
    }

    /** ireclaim, at boot: exactly the inodes in use without links are freed. */
    method Ireclaim()
      requires LinksOk(nodes)
      modifies this
      ensures LinksOk(nodes) && |nodes| == |old(nodes)|
      ensures forall i :: 0 < i < |nodes| ==> nodes[i] == if old(nodes)[i].nlink == 0 then NOTHING else old(nodes)[i]
      ensures forall i :: 0 < i < |nodes| && !nodes[i].kind.FreeNode? ==> nodes[i].nlink > 0
    {
      hide LinksOk;
      HasRoot(nodes);
      var inum := 1;
      while inum < |nodes|
        invariant 1 <= inum <= |nodes| == |old(nodes)| && LinksOk(nodes)
        invariant forall i :: 0 < i < |nodes| ==>
          nodes[i] == if i < inum && old(nodes)[i].nlink == 0 then NOTHING else old(nodes)[i]
      {
        FreeIsNothing(nodes, inum);
        if !nodes[inum].kind.FreeNode? && nodes[inum].nlink == 0 {
          Reclaim(inum);
        }
        inum := inum + 1;
      }
    }

    /** create, once the parent directory is found; `rooms` says whether each directory file can still grow.
        A failed create leaves everything as it was. */
    method Create(dp: nat, name: string, kind: Kind, rooms: (bool, bool, bool)) returns (r: Option<nat>)
      requires LinksOk(nodes) && 0 < dp < |nodes| && nodes[dp].kind.Dir? && !kind.FreeNode?
      modifies this
      ensures r.None? ==> nodes == old(nodes)
      ensures Cut(name) in DirMap(old(nodes)[dp].slots) ==> Existing(old(nodes), DirMap(old(nodes)[dp].slots)[Cut(name)], kind, r)
      ensures r.Some? && Cut(name) in DirMap(old(nodes)[dp].slots) ==> nodes == old(nodes)
      ensures r.Some? && Cut(name) !in DirMap(old(nodes)[dp].slots) ==>
        && CreateDone(old(nodes), nodes, dp, Cut(name), kind, r.value)
        && (CountsOk(nodes) <==> LinkedDir(old(nodes)[dp])) && (LinksOk(nodes) <==> LinkedDir(old(nodes)[dp]))
      ensures Cut(name) !in DirMap(old(nodes)[dp].slots) ==>
        (r.Some? <==> HasFree(old(nodes)) && (kind.Dir? ==> rooms.0 && rooms.1) && (rooms.2 || HasSlot(old(nodes)[dp].slots)))
    {
      hide LinksOk, CountsOk, DirMap, Cut, Unique, Linked, Bare;
      ghost var nodes0 := nodes;
      Parts(nodes0, dp);
      var found := Dirlookup(nodes[dp].slots, name);
      if found.Some? {
        var i := nodes[dp].slots[found.value].inum;
        if kind.File? && (nodes[i].kind.File? || nodes[i].kind.Device?) {
          return Some(i);
        }
        return None;
      }
      var node := Ialloc();
      if node.None? {
        return None;
      }
      var ip := node.value;
      NewName(nodes0, dp, Cut(name));
      nodes := nodes[ip := Node(kind, 1, [])];
      var ok := true;
      if kind.Dir? {
        ok := AddDots(ip, dp, rooms.0, rooms.1);
      }
      if ok {
        var slots';
        ok, slots' := Dirlink(nodes[dp].slots, name, ip, rooms.2);
        if ok {
          nodes := nodes[dp := nodes[dp].(slots := slots')];
          if kind.Dir? {
            nodes := nodes[dp := nodes[dp].(nlink := nodes[dp].nlink + 1)];
            assert nodes == NewDir(nodes0, dp, slots', ip, nodes[ip].slots);
            MadeDir(nodes0, nodes, dp, slots', Cut(name), ip, nodes[ip].slots);
          } else {
            assert nodes == Named(nodes0, dp, slots', ip, Node(kind, 1, []));
            MadeFile(nodes0, nodes, dp, slots', Cut(name), kind, ip);
          }
          return Some(ip);
        }
      }
      nodes := nodes[ip := NOTHING];
      assert nodes == nodes0;
      r := None;
    }

    /** The entries "." and ".." of a new directory. */
    method AddDots(ip: nat, dp: nat, room0: bool, room1: bool) returns (ok: bool)
      requires 0 < ip < |nodes| && nodes[ip] == Node(Dir, 1, []) && 0 < dp
      modifies this
      ensures |nodes| == |old(nodes)| && forall i :: 0 <= i < |nodes| && i != ip ==> nodes[i] == old(nodes)[i]
      ensures ok ==> nodes == old(nodes)[ip := Node(Dir, 1, nodes[ip].slots)] && FreshDir(nodes[ip].slots, ip, dp)
      ensures ok <==> room0 && room1
    {
      hide DirMap, Cut;
      ShortNames();
      var slots1, slots2;
      assert DirMap(nodes[ip].slots) == map[] by {
        EmptyMap();
      }
      ok, slots1 := Dirlink(nodes[ip].slots, ".", ip, room0);
      nodes := nodes[ip := nodes[ip].(slots := slots1)];
      if !ok {
        return;
      }
      ok, slots2 := Dirlink(nodes[ip].slots, "..", dp, room1);
      nodes := nodes[ip := nodes[ip].(slots := slots2)];
    }
  }

  lemma EmptyMap()
    ensures DirMap([]) == map[]
  {
  }

  lemma ShortNames()
    ensures Cut(".") == "." && Cut("..") == ".."
  {
    assert CutFrom("..", 2) == "";
    assert CutFrom("..", 1) == ".";
    assert CutFrom(".", 1) == "";
  }

  lemma Parts(nodes: seq<Node>, d: nat)
    requires LinksOk(nodes) && d < |nodes|
    ensures AllNodesOk(nodes) && nodes[0] == NOTHING
    ensures nodes[d].kind.Dir? ==> Unique(nodes[d].slots) && |nodes[d].slots| >= 2
    ensures nodes[d].kind.Dir? ==> forall k :: 0 <= k < |nodes[d].slots| ==> nodes[d].slots[k].inum < |nodes|
  {
    assert NodeOk(nodes[d], d, |nodes|);
  }

  lemma HasRoot(nodes: seq<Node>)
    requires LinksOk(nodes)
    ensures |nodes| > ROOT
  {
  }

  lemma FreeIsNothing(nodes: seq<Node>, i: nat)
    requires LinksOk(nodes) && i < |nodes|
    ensures nodes[i].kind.FreeNode? ==> nodes[i] == NOTHING
  {
    assert NodeOk(nodes[i], i, |nodes|);
  }

  /** What a successful link does: one entry and one link more. */
  ghost predicate LinkDone(nodes0: seq<Node>, nodes: seq<Node>, dp: nat, n: string, ip: nat) {
    && |nodes| == |nodes0| && dp < |nodes| && ip < |nodes| && dp != ip
    && nodes == nodes0[dp := nodes0[dp].(slots := nodes[dp].slots)][ip := nodes0[ip].(nlink := nodes0[ip].nlink + 1)]
    && n !in DirMap(nodes0[dp].slots) && DirMap(nodes[dp].slots) == DirMap(nodes0[dp].slots)[n := ip]
  }

  lemma LinkEffect(nodes0: seq<Node>, nodes: seq<Node>, dp: nat, slots': seq<Dirent>, n: string, ip: nat)
    requires LinksOk(nodes0) && dp < |nodes0| && 0 < ip < |nodes0| && nodes0[dp].kind.Dir? && !nodes0[ip].kind.Dir? && !nodes0[ip].kind.FreeNode?
    requires Linked(nodes0[dp].slots, slots', n, ip) && Unique(slots') && n != "."
    requires nodes == Named(nodes0, dp, slots', ip, nodes0[ip].(nlink := nodes0[ip].nlink + 1))
    ensures (LinksOk(nodes) <==> LinkedDir(nodes0[dp])) && (CountsOk(nodes) <==> LinkedDir(nodes0[dp]))
  {
    var node := nodes0[ip].(nlink := nodes0[ip].nlink + 1);
    assert node.slots == [] by {
      assert NodeOk(nodes0[ip], ip, |nodes0|);
    }
    if LinkedDir(nodes0[dp]) {
      NameFile(nodes0, dp, slots', n, ip, node);
    } else {
      NameFileInUnlinked(nodes0, dp, slots', ip, node);
    }
  }

  /** What a successful unlink does. */
  ghost predicate UnlinkDone(nodes0: seq<Node>, nodes: seq<Node>, dp: nat, n: string, ip: nat) {
    && |nodes| == |nodes0| && dp < |nodes| && ip < |nodes| && dp != ip && nodes0[ip].nlink > 0 && nodes0[dp].nlink > 0
    && DirMap(nodes[dp].slots) == DirMap(nodes0[dp].slots) - {n}
    && nodes[ip] == nodes0[ip].(nlink := nodes0[ip].nlink - 1)
    && nodes[dp] == nodes0[dp].(slots := nodes[dp].slots, nlink := if nodes0[ip].kind.Dir? then nodes0[dp].nlink - 1 else nodes0[dp].nlink)
    && (nodes0[ip].kind.Dir? ==> Bare(nodes0[ip].slots) && nodes[ip].nlink == 0)
    && forall i :: 0 <= i < |nodes| && i != dp && i != ip ==> nodes[i] == nodes0[i]
  }

  /** create on a name that is taken: only an ordinary open of a file or device succeeds. */
  ghost predicate Existing(nodes: seq<Node>, i: nat, kind: Kind, r: Option<nat>) {
    && i < |nodes| && (r.Some? <==> kind.File? && (nodes[i].kind.File? || nodes[i].kind.Device?))
    && (r.Some? ==> r.value == i)
  }

  /** What a successful create of a new name does. */
  ghost predicate CreateDone(nodes0: seq<Node>, nodes: seq<Node>, dp: nat, n: string, kind: Kind, ip: nat) {
    && |nodes| == |nodes0| && dp < |nodes| && 0 < ip < |nodes| && dp != ip && nodes0[ip] == NOTHING
    && DirMap(nodes[dp].slots) == DirMap(nodes0[dp].slots)[n := ip]
    && nodes[dp] == nodes0[dp].(slots := nodes[dp].slots, nlink := if kind.Dir? then nodes0[dp].nlink + 1 else nodes0[dp].nlink)
    && nodes[ip] == Node(kind, 1, nodes[ip].slots) && (if kind.Dir? then FreshDir(nodes[ip].slots, ip, dp) else nodes[ip].slots == [])
    && forall i :: 0 <= i < |nodes| && i != dp && i != ip ==> nodes[i] == nodes0[i]
  }

  lemma MadeDir(nodes0: seq<Node>, nodes: seq<Node>, dp: nat, slots': seq<Dirent>, n: string, ip: nat, dots: seq<Dirent>)
    requires LinksOk(nodes0) && 0 < dp < |nodes0| && 0 < ip < |nodes0| && nodes0[dp].kind.Dir? && nodes0[ip] == NOTHING
    requires Linked(nodes0[dp].slots, slots', n, ip) && Unique(slots') && n != "." && FreshDir(dots, ip, dp)
    requires nodes == NewDir(nodes0, dp, slots', ip, dots)
    ensures (LinksOk(nodes) <==> LinkedDir(nodes0[dp])) && (CountsOk(nodes) <==> LinkedDir(nodes0[dp]))
  {
    hide FreshDir, Linked, AllNodesOk, TreeOk, CountsOk;
    if LinkedDir(nodes0[dp]) {
      MakeDir(nodes0, dp, slots', n, ip, dots);
    } else {
      MakeDirInUnlinked(nodes0, dp, slots', n, ip, dots);
    }
  }

  lemma MadeFile(nodes0: seq<Node>, nodes: seq<Node>, dp: nat, slots': seq<Dirent>, n: string, kind: Kind, ip: nat)
    requires LinksOk(nodes0) && 0 < dp < |nodes0| && 0 < ip < |nodes0| && nodes0[dp].kind.Dir? && nodes0[ip] == NOTHING
    requires Linked(nodes0[dp].slots, slots', n, ip) && Unique(slots') && n != "." && (kind.File? || kind.Device?)
    requires nodes == Named(nodes0, dp, slots', ip, Node(kind, 1, []))
    ensures (LinksOk(nodes) <==> LinkedDir(nodes0[dp])) && (CountsOk(nodes) <==> LinkedDir(nodes0[dp]))
  {
    if LinkedDir(nodes0[dp]) {
      NameFile(nodes0, dp, slots', n, ip, Node(kind, 1, []));
    } else {
      NameFileInUnlinked(nodes0, dp, slots', ip, Node(kind, 1, []));
    }
  }

  lemma RootOnly(nodes: seq<Node>, root: Node)
    requires |nodes| > ROOT && nodes[ROOT] == root && forall i :: 0 <= i < |nodes| && i != ROOT ==> nodes[i] == NOTHING
    requires root.kind.Dir? && root.nlink == 1 && |root.slots| >= 2 && root.slots[0] == Dirent(ROOT, ".") && root.slots[1] == Dirent(ROOT, "..")
    requires forall k :: 2 <= k < |root.slots| ==> root.slots[k] == UNUSED
    ensures LinksOk(nodes)
  {
    ShortNames();
    hide Cut;
    assert DirOk(root.slots, ROOT, |nodes|) && Bare(root.slots);
    forall i: nat
      ensures Count(nodes, i, 2) == 0 && Count(nodes, i, 0) == if i == ROOT then 1 else 0
    {
      FixedSlots(root, ROOT, |nodes|, i);
      BareNamesNone(root, i);
      OnlyPart(nodes, ROOT, i, 0);
      OnlyPart(nodes, ROOT, i, 2);
    }
    hide Count, Part, DirOk;
  }

  lemma OnlyPart(nodes: seq<Node>, d: nat, i: nat, skip: nat)
    requires d < |nodes| && forall j :: 0 <= j < |nodes| && j != d ==> nodes[j] == NOTHING
    ensures Count(nodes, i, skip) == Part(nodes[d], i, skip)
  {
    CountSet(nodes, d, NOTHING, i, skip);
    AllNothing(nodes[d := NOTHING], i, skip);
  }

  lemma {:induction false} AllNothing(nodes: seq<Node>, i: nat, skip: nat)
    requires forall j :: 0 <= j < |nodes| ==> nodes[j] == NOTHING
    ensures Count(nodes, i, skip) == 0
  {
    if nodes != [] {
      AllNothing(nodes[..|nodes| - 1], i, skip);
    }
  }

  lemma TwoSlots(slots: seq<Dirent>)
    requires |slots| == 2 && Used(slots[0]) && Used(slots[1])
    ensures DirMap(slots) == map[Cut(slots[0].name) := slots[0].inum, Cut(slots[1].name) := slots[1].inum]
  {
    hide Cut;
    var one := slots[..1];
    assert one[..0] == [];
    assert DirMap(one) == map[Cut(slots[0].name) := slots[0].inum];
  }

  lemma {:induction false} RootMap(slots: seq<Dirent>)
    requires |slots| >= 2 && slots[0] == Dirent(ROOT, ".") && slots[1] == Dirent(ROOT, "..")
    requires forall k :: 2 <= k < |slots| ==> slots[k] == UNUSED
    ensures DirMap(slots) == map["." := ROOT, ".." := ROOT]
  {
    ShortNames();
    hide Cut;
    if |slots| == 2 {
      TwoSlots(slots);
    } else {
      RootMap(slots[..|slots| - 1]);
    }
  }

  lemma FreshMap(slots: seq<Dirent>, ip: nat, dp: nat)
    requires FreshDir(slots, ip, dp) && ip != 0 && dp != 0
    ensures DirMap(slots) == map["." := ip, ".." := dp] && Bare(slots)
  {
    hide Cut;
    TwoSlots(slots);
  }

  /** From a fresh tree: make a directory, unlink it, and create in it, as a process that still has it open can.
      The link counts are then wrong. */
  method CreateInUnlinked(kind: Kind) returns (t: FileTree)
    requires !kind.FreeNode?
    ensures !CountsOk(t.nodes)
  {
    hide LinksOk, CountsOk, DirMap, Cut, Bare, HasSlot, FreshDir;
    ShortNames();
    OneLetter();
    t := new FileTree(4, 0);
    assert t.nodes[2] == NOTHING;
    var d := t.Create(ROOT, "d", Dir, (true, true, true));
    FreshMap(t.nodes[d.value].slots, d.value, ROOT);
    var ok := t.Unlink(ROOT, "d");
    assert t.nodes[if d.value == 2 then 3 else 2] == NOTHING;
    var f := t.Create(d.value, "f", kind, (true, true, true));
  }

  lemma OneLetter()
    ensures Cut("d") == "d" && Cut("f") == "f"
  {
    assert CutFrom("d", 1) == "" && CutFrom("f", 1) == "";
  }
}
