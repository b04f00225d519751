/** Sv39 page tables as kernel/vm.c lays them out in physical memory, and who owns each physical page.
    Pages are named by page number; a page is 512 64-bit words. */
module PageTable {
  import opened Ring

  const ENTRIES := 512
  /** Pages below MAXVA. */
  const MAXVPN := 0x400_0000
  const PTE_V := 1

  type Page = seq<nat>

  /** A page-table entry: page number above bit 10, flags below. */
  function Pte(page: nat, flags: nat): (e: nat) {
    page * 1024 + flags
  }

  function PageOf(e: nat): nat {
    e / 1024
  }

  function FlagsOf(e: nat): nat {
    e % 1024
  }

  predicate IsValid(e: nat) {
    e % 2 == 1
  }

  const PTE_R := 2
  const PTE_W := 4
  const PTE_X := 8
  const PTE_U := 16

  predicate HasR(e: nat) {
    e / PTE_R % 2 == 1
  }

  predicate HasW(e: nat) {
    e / PTE_W % 2 == 1
  }

  predicate HasX(e: nat) {
    e / PTE_X % 2 == 1
  }

  predicate HasU(e: nat) {
    e / PTE_U % 2 == 1
  }

  /** One of R, W, X is set: the entry is a leaf. */
  predicate IsLeaf(e: nat) {
    (e / 2) % 8 != 0
  }

  const ZEROPAGE: Page := seq(ENTRIES, _ => 0)

  // ----- Ownership -----

  /** What a physical page is used for. `s` names an address space; `i` is the level-2 index of a
      level-1 table, `k` is the virtual page number divided by 512 for a level-0 table. */
  datatype Role =
    | Free
    | Kernel                    // below the end of the kernel image, never allocated
    | Held                      // allocated, in the hands of the kernel
    | Root(s: nat)
    | Mid(s: nat, i: nat)
    | Low(s: nat, k: nat)
    | User(s: nat, v: nat)      // mapped at virtual page v and freed with it

  /** One address space: its table pages, its valid leaf entries, and the leaves whose page it owns. */
  datatype Space = Space(root: nat, mid: map<nat, nat>, low: map<nat, nat>, leaf: map<nat, nat>, user: map<nat, nat>)

  datatype Ghosts = Ghosts(role: seq<Role>, spaces: map<nat, Space>)

  predicate OwnedBy(r: Role, s: nat) {
    match r
    case Free => false
    case Kernel => false
    case Held => false
    case Root(t) => t == s
    case Mid(t, _) => t == s
    case Low(t, _) => t == s
    case User(t, _) => t == s
  }

  // ----- The tree in memory -----

  ghost predicate MemOk(mem: seq<Page>) {
    forall p :: 0 <= p < |mem| ==> |mem[p]| == ENTRIES
  }

  /** Memory after word i of page t is written. */
  function Put(mem: seq<Page>, t: nat, i: nat, e: nat): (r: seq<Page>)
    requires t < |mem| && i < |mem[t]|
    ensures |r| == |mem|
  {
    var page: Page := mem[t][i := e];
    mem[t := page]
  }

  /** Directory entries carry V and no permission. */
  function Dir(page: nat): nat {
    Pte(page, PTE_V)
  }

  /** A directory entry is valid, is not a leaf, and names its page. */
  lemma Directory(p: nat)
    ensures IsValid(Dir(p)) && !IsLeaf(Dir(p)) && PageOf(Dir(p)) == p
  {
  }

  /** Word i of table page t; absent tables read as zero. */
  function Entry(mem: seq<Page>, t: nat, i: nat): nat {
    if t < |mem| && i < |mem[t]| then mem[t][i] else 0
  }

  /** The level-1 entry for 512-page group k. */
  function Slot1(mem: seq<Page>, mid: map<nat, nat>, k: nat): nat {
    if k / ENTRIES in mid then Entry(mem, mid[k / ENTRIES], k % ENTRIES) else 0
  }

  /** The leaf entry for virtual page v. */
  function Slot0(mem: seq<Page>, low: map<nat, nat>, v: nat): nat {
    if v / ENTRIES in low then Entry(mem, low[v / ENTRIES], v % ENTRIES) else 0
  }

  ghost predicate MidPages(role: seq<Role>, s: nat, mid: map<nat, nat>) {
    forall i :: i in mid ==> i < ENTRIES && mid[i] < |role| && role[mid[i]] == Mid(s, i)
  }

  ghost predicate LowPages(role: seq<Role>, s: nat, low: map<nat, nat>) {
    forall k :: k in low ==> low[k] < |role| && role[low[k]] == Low(s, k)
  }

  ghost predicate UserPages(role: seq<Role>, s: nat, leaf: map<nat, nat>, user: map<nat, nat>) {
    forall v :: v in user ==> user[v] < |role| && role[user[v]] == User(s, v) && v in leaf && PageOf(leaf[v]) == user[v]
  }

  /** The valid entries of the root are exactly the level-1 tables. */
  ghost predicate Level2(mem: seq<Page>, root: nat, mid: map<nat, nat>) {
    forall i: nat :: if i in mid then Entry(mem, root, i) == Dir(mid[i]) else !IsValid(Entry(mem, root, i))
  }

  /** The valid level-1 entries are exactly the level-0 tables. */
  ghost predicate Level1(mem: seq<Page>, mid: map<nat, nat>, low: map<nat, nat>) {
    forall k: nat :: if k in low then Slot1(mem, mid, k) == Dir(low[k]) else !IsValid(Slot1(mem, mid, k))
  }

  /** The valid leaf entries are exactly the translations. */
  ghost predicate Level0(mem: seq<Page>, low: map<nat, nat>, leaf: map<nat, nat>) {
    forall v: nat :: if v in leaf then Slot0(mem, low, v) == leaf[v] && IsValid(leaf[v]) else !IsValid(Slot0(mem, low, v))
  }

  ghost predicate SpaceOk(mem: seq<Page>, role: seq<Role>, s: nat, sp: Space) {
    && sp.root < |role| && role[sp.root] == Root(s)
    && MidPages(role, s, sp.mid) && LowPages(role, s, sp.low) && UserPages(role, s, sp.leaf, sp.user)
    && Level2(mem, sp.root, sp.mid) && Level1(mem, sp.mid, sp.low) && Level0(mem, sp.low, sp.leaf)
  }

  /** A page's role is backed by the address space it names. */
  ghost predicate RoleOk(g: Ghosts, p: nat)
    requires p < |g.role|
  {
    match g.role[p]
    case Free => true
    case Kernel => true
    case Held => true
    case Root(s) => s in g.spaces && g.spaces[s].root == p
    case Mid(s, i) => s in g.spaces && i in g.spaces[s].mid && g.spaces[s].mid[i] == p
    case Low(s, k) => s in g.spaces && k in g.spaces[s].low && g.spaces[s].low[k] == p
    case User(s, v) => s in g.spaces && v in g.spaces[s].user && g.spaces[s].user[v] == p
  }

  ghost predicate FreeOk(role: seq<Role>, freelist: seq<nat>) {
    && Distinct(freelist)
    && (forall i :: 0 <= i < |freelist| ==> freelist[i] < |role|)
    && (forall p :: 0 <= p < |role| ==> (role[p] == Free <==> p in freelist))
  }

  /** The whole system: every page is exactly one of free, kernel image, held, table page or user page, and every
      address space is laid out in memory as its maps say. */
  ghost predicate Inv(mem: seq<Page>, freelist: seq<nat>, g: Ghosts) {
    && MemOk(mem) && |g.role| == |mem|
    && FreeOk(g.role, freelist)
    && (forall p :: 0 <= p < |g.role| ==> RoleOk(g, p))
    && (forall s :: s in g.spaces ==> SpaceOk(mem, g.role, s, g.spaces[s]))
  }

  /** A page of one of the three kinds of page table. */
  ghost predicate IsTable(g: Ghosts, p: nat) {
    exists s :: s in g.spaces && (p == g.spaces[s].root || p in g.spaces[s].mid.Values || p in g.spaces[s].low.Values)
  }

  /** The frame behind a translation that its address space owns. */
  ghost predicate IsUser(g: Ghosts, p: nat) {
    exists s :: s in g.spaces && p in g.spaces[s].user.Values
  }

  /** Virtual page v of s and virtual page u of t are backed by the same owned frame. */
  ghost predicate SameFrame(g: Ghosts, s: nat, v: nat, t: nat, u: nat) {
    && s in g.spaces && t in g.spaces && v in g.spaces[s].user && u in g.spaces[t].user
    && g.spaces[s].user[v] == g.spaces[t].user[u]
  }

  /** A page is on the free list, a table, a user frame, or none of these, and never two of them; no frame is
      mapped and owned twice, in one address space or in two. */
  lemma PagePartition(mem: seq<Page>, freelist: seq<nat>, g: Ghosts)
    requires Inv(mem, freelist, g)
    ensures forall p :: 0 <= p < |mem| ==>
      && (p in freelist <==> g.role[p] == Free)
      && (IsTable(g, p) <==> g.role[p].Root? || g.role[p].Mid? || g.role[p].Low?)
      && (IsUser(g, p) <==> g.role[p].User?)
    ensures forall s, v, t, u :: SameFrame(g, s, v, t, u) ==> s == t && v == u
  {
    forall p | 0 <= p < |mem|
      ensures p in freelist <==> g.role[p] == Free
      ensures IsTable(g, p) <==> g.role[p].Root? || g.role[p].Mid? || g.role[p].Low?
      ensures IsUser(g, p) <==> g.role[p].User?
    {
      assert RoleOk(g, p);
      TableRole(mem, g, p);
    }
    hide Level2, Level1, Level0;
    forall s, v, t, u | SameFrame(g, s, v, t, u)
      ensures s == t && v == u
    {
      assert SpaceOk(mem, g.role, s, g.spaces[s]) && SpaceOk(mem, g.role, t, g.spaces[t]);
    }
  }

  lemma TableRole(mem: seq<Page>, g: Ghosts, p: nat)
    requires |g.role| == |mem| && p < |mem| && RoleOk(g, p)
    requires forall s :: s in g.spaces ==> SpaceOk(mem, g.role, s, g.spaces[s])
    ensures IsTable(g, p) <==> g.role[p].Root? || g.role[p].Mid? || g.role[p].Low?
    ensures IsUser(g, p) <==> g.role[p].User?
  {
    hide Level2, Level1, Level0;
    if IsTable(g, p) {
      var s :| s in g.spaces && (p == g.spaces[s].root || p in g.spaces[s].mid.Values || p in g.spaces[s].low.Values);
      assert SpaceOk(mem, g.role, s, g.spaces[s]);
    }
    if IsUser(g, p) {
      var s :| s in g.spaces && p in g.spaces[s].user.Values;
      assert SpaceOk(mem, g.role, s, g.spaces[s]);
    }
  }

  // ----- Framing -----

  /** Nothing another address space owns has changed hands or contents. */
  ghost predicate OthersKept(mem: seq<Page>, role: seq<Role>, mem': seq<Page>, role': seq<Role>, s: nat) {
    && |mem'| == |mem| == |role| == |role'|
    && forall p, t :: 0 <= p < |mem| && t != s && (OwnedBy(role[p], t) || OwnedBy(role'[p], t)) ==>
         role'[p] == role[p] && mem'[p] == mem[p]
  }

  lemma OtherSpaceKept(mem: seq<Page>, role: seq<Role>, mem': seq<Page>, role': seq<Role>, s: nat, t: nat, sp: Space)
    requires SpaceOk(mem, role, t, sp) && OthersKept(mem, role, mem', role', s) && t != s
    ensures SpaceOk(mem', role', t, sp)
  {
    hide Level2, Level1, Level0;
    assert OwnedBy(role[sp.root], t);
    forall i | i in sp.mid
      ensures mem'[sp.mid[i]] == mem[sp.mid[i]] && role'[sp.mid[i]] == role[sp.mid[i]]
    {
      assert OwnedBy(role[sp.mid[i]], t);
    }
    forall k | k in sp.low
      ensures mem'[sp.low[k]] == mem[sp.low[k]] && role'[sp.low[k]] == role[sp.low[k]]
    {
      assert OwnedBy(role[sp.low[k]], t);
    }
    forall v | v in sp.user
      ensures role'[sp.user[v]] == role[sp.user[v]]
    {
      assert OwnedBy(role[sp.user[v]], t);
    }
    SameLevel2(mem, mem', sp.root, sp.mid);
    SameLevel1(mem, mem', sp.mid, sp.low);
    SameLevel0(mem, mem', sp.low, sp.leaf);
  }

  lemma SameLevel2(mem: seq<Page>, mem': seq<Page>, root: nat, mid: map<nat, nat>)
    requires Level2(mem, root, mid) && |mem'| == |mem| && (root < |mem| ==> mem'[root] == mem[root])
    ensures Level2(mem', root, mid)
  {
    assert forall i: nat :: Entry(mem', root, i) == Entry(mem, root, i);
  }

  lemma SameLevel1(mem: seq<Page>, mem': seq<Page>, mid: map<nat, nat>, low: map<nat, nat>)
    requires Level1(mem, mid, low) && |mem'| == |mem|
    requires forall i :: i in mid && mid[i] < |mem| ==> mem'[mid[i]] == mem[mid[i]]
    ensures Level1(mem', mid, low)
  {
    assert forall k: nat :: Slot1(mem', mid, k) == Slot1(mem, mid, k);
  }

  lemma SameLevel0(mem: seq<Page>, mem': seq<Page>, low: map<nat, nat>, leaf: map<nat, nat>)
    requires Level0(mem, low, leaf) && |mem'| == |mem|
    requires forall k :: k in low && low[k] < |mem| ==> mem'[low[k]] == mem[low[k]]
    ensures Level0(mem', low, leaf)
  {
    assert forall v: nat :: Slot0(mem', low, v) == Slot0(mem, low, v);
  }

  /** Only address space s changed. */
  ghost predicate OnlySpace(a: map<nat, Space>, b: map<nat, Space>, s: nat) {
    forall t :: t != s ==> (t in a <==> t in b) && (t in a ==> b[t] == a[t])
  }

  /** A change confined to one address space, and to free or held pages, keeps the system invariant. */
  lemma LocalChange(mem: seq<Page>, freelist: seq<nat>, g: Ghosts, mem': seq<Page>, freelist': seq<nat>, g': Ghosts, s: nat)
    requires Inv(mem, freelist, g)
    requires OthersKept(mem, g.role, mem', g'.role, s) && OnlySpace(g.spaces, g'.spaces, s)
    requires MemOk(mem') && FreeOk(g'.role, freelist')
    requires s in g'.spaces ==> SpaceOk(mem', g'.role, s, g'.spaces[s])
    requires forall p :: 0 <= p < |g'.role| && OwnedBy(g'.role[p], s) ==> RoleOk(g', p)
    ensures Inv(mem', freelist', g')
  {
    forall t | t in g'.spaces
      ensures SpaceOk(mem', g'.role, t, g'.spaces[t])
    {
      if t != s {
        OtherSpaceKept(mem, g.role, mem', g'.role, s, t, g.spaces[t]);
      }
    }
    hide SpaceOk, FreeOk;
    forall p | 0 <= p < |g'.role|
      ensures RoleOk(g', p)
    {
      RoleKept(mem, g, mem', g', s, p);
    }
  }

  lemma RoleKept(mem: seq<Page>, g: Ghosts, mem': seq<Page>, g': Ghosts, s: nat, p: nat)
    requires p < |g'.role| && |g.role| == |mem|
    requires OthersKept(mem, g.role, mem', g'.role, s) && OnlySpace(g.spaces, g'.spaces, s)
    requires RoleOk(g, p) && (OwnedBy(g'.role[p], s) ==> RoleOk(g', p))
    ensures RoleOk(g', p)
  {
    var r := g'.role[p];
    if !r.Free? && !r.Kernel? && !r.Held? && r.s != s {
      assert OwnedBy(r, r.s);
    }
  }

  // ----- The allocator -----

  const JUNKALLOC: Page := seq(ENTRIES, _ => 0x0505_0505_0505_0505)
  const JUNKFREE: Page := seq(ENTRIES, _ => 0x0101_0101_0101_0101)

  ghost function WithRole(g: Ghosts, p: nat, r: Role): Ghosts
    requires p < |g.role|
  {
    g.(role := g.role[p := r])
  }

  lemma UnusedKey(keys: set<nat>) returns (s: nat)
    ensures forall t :: t in keys ==> t < s
  {
    if keys == {} {
      s := 0;
    } else {
      var t :| t in keys;
      var s0 := UnusedKey(keys - {t});
      s := if t >= s0 then t + 1 else s0;
      forall u | u in keys
        ensures u < s
      {
        assert u == t || u in keys - {t};
      }
    }
  }

  /** A name no address space has. */
  lemma FreshName(mem: seq<Page>, freelist: seq<nat>, g: Ghosts) returns (s: nat)
    requires Inv(mem, freelist, g)
    ensures s !in g.spaces
    ensures forall p :: 0 <= p < |g.role| ==> !OwnedBy(g.role[p], s)
  {
    hide SpaceOk, FreeOk, MemOk;
    s := UnusedKey(g.spaces.Keys);
    forall p | 0 <= p < |g.role|
      ensures !OwnedBy(g.role[p], s)
    {
      assert RoleOk(g, p);
    }
  }

  /** kalloc takes the first free page and fills it with junk. */
  lemma AllocKeeps(mem: seq<Page>, freelist: seq<nat>, g: Ghosts)
    requires Inv(mem, freelist, g) && freelist != []
    ensures freelist[0] < |mem| && freelist[0] < |g.role| && g.role[freelist[0]] == Free
    ensures Inv(mem[freelist[0] := JUNKALLOC], freelist[1..], WithRole(g, freelist[0], Held))
  {
    var p := freelist[0];
    var s := FreshName(mem, freelist, g);
    assert p in freelist;
    var g' := WithRole(g, p, Held);
    assert freelist == [p] + freelist[1..];
    assert forall q :: q in freelist[1..] <==> q in freelist && q != p;
    assert FreeOk(g'.role, freelist[1..]);
    assert forall q, t :: 0 <= q < |mem| && OwnedBy(g.role[q], t) ==> q != p;
    LocalChange(mem, freelist, g, mem[p := JUNKALLOC], freelist[1..], g', s);
  }

  /** kfree puts a held page at the front of the list and fills it with junk. */
  lemma FreeKeeps(mem: seq<Page>, freelist: seq<nat>, g: Ghosts, p: nat)
    requires Inv(mem, freelist, g) && p < |g.role| && g.role[p] == Held
    ensures p !in freelist
    ensures Inv(mem[p := JUNKFREE], [p] + freelist, WithRole(g, p, Free))
  {
    var s := FreshName(mem, freelist, g);
    var g' := WithRole(g, p, Free);
    assert p !in freelist;
    assert FreeOk(g'.role, [p] + freelist);
    LocalChange(mem, freelist, g, mem[p := JUNKFREE], [p] + freelist, g', s);
  }

  /** The kernel may write a page it holds. */
  lemma HeldWriteKeeps(mem: seq<Page>, freelist: seq<nat>, g: Ghosts, p: nat, page: Page)
    requires Inv(mem, freelist, g) && p < |g.role| && g.role[p] == Held && |page| == ENTRIES
    ensures Inv(mem[p := page], freelist, g)
  {
    var s := FreshName(mem, freelist, g);
    LocalChange(mem, freelist, g, mem[p := page], freelist, g, s);
  }

  // ----- Growing the tree -----

  /** A held page gets a role in address space s whose maps grew accordingly. */
  lemma NewRole(mem: seq<Page>, freelist: seq<nat>, g: Ghosts, g': Ghosts, s: nat, p: nat, r: Role)
    requires Inv(mem, freelist, g) && p < |g.role| && g.role[p] == Held && OwnedBy(r, s) && s in g'.spaces
    requires g'.role == g.role[p := r] && RoleOk(g', p)
    requires s in g.spaces ==>
      && g'.spaces[s].root == g.spaces[s].root
      && (forall i :: i in g.spaces[s].mid ==> i in g'.spaces[s].mid && g'.spaces[s].mid[i] == g.spaces[s].mid[i])
      && (forall k :: k in g.spaces[s].low ==> k in g'.spaces[s].low && g'.spaces[s].low[k] == g.spaces[s].low[k])
      && (forall v :: v in g.spaces[s].user ==> v in g'.spaces[s].user && g'.spaces[s].user[v] == g.spaces[s].user[v])
    ensures FreeOk(g'.role, freelist)
    ensures forall q :: 0 <= q < |g'.role| && OwnedBy(g'.role[q], s) ==> RoleOk(g', q)
  {
    hide SpaceOk;
    forall q | 0 <= q < |g'.role| && OwnedBy(g'.role[q], s)
      ensures RoleOk(g', q)
    {
      assert RoleOk(g, q);
    }
  }

  /** Rewriting one table page of s, and giving one held page to s, leaves the others alone. */
  lemma TouchOne(mem: seq<Page>, role: seq<Role>, s: nat, t: nat, i: nat, e: nat, p: nat, r: Role)
    requires |role| == |mem| && t < |mem| && OwnedBy(role[t], s) && p < |mem| && MemOk(mem) && i < ENTRIES
    requires r == role[p] || (role[p] == Held && OwnedBy(r, s))
    ensures OthersKept(mem, role, Put(mem, t, i, e), role[p := r], s) && MemOk(Put(mem, t, i, e))
  {
  }

  lemma OneSpace(spaces: map<nat, Space>, s: nat, sp: Space)
    ensures OnlySpace(spaces, spaces[s := sp], s)
  {
  }

  /** Table pages of address space s belong to it. */
  lemma TablePages(mem: seq<Page>, freelist: seq<nat>, g: Ghosts, s: nat)
    requires Inv(mem, freelist, g) && s in g.spaces
    ensures MemOk(mem) && |g.role| == |mem| && FreeOk(g.role, freelist)
    ensures SpaceOk(mem, g.role, s, g.spaces[s])
    ensures g.spaces[s].root < |mem| && OwnedBy(g.role[g.spaces[s].root], s)
    ensures forall i :: i in g.spaces[s].mid ==> g.spaces[s].mid[i] < |mem| && OwnedBy(g.role[g.spaces[s].mid[i]], s)
    ensures forall k :: k in g.spaces[s].low ==> g.spaces[s].low[k] < |mem| && OwnedBy(g.role[g.spaces[s].low[k]], s)
  {
    assert SpaceOk(mem, g.role, s, g.spaces[s]);
  }

  /** walk, level 2: a held zeroed page becomes the missing level-1 table. */
  ghost function WithMid(g: Ghosts, s: nat, i: nat, p: nat): Ghosts
    requires s in g.spaces && p < |g.role|
  {
    Ghosts(g.role[p := Mid(s, i)], g.spaces[s := g.spaces[s].(mid := g.spaces[s].mid[i := p])])
  }

  lemma WriteLevel2(mem: seq<Page>, root: nat, mid: map<nat, nat>, i: nat, p: nat)
    requires root < |mem| && |mem[root]| == ENTRIES && i < ENTRIES && Level2(mem, root, mid)
    ensures Level2(Put(mem, root, i, Dir(p)), root, mid[i := p])
  {
    var mem' := Put(mem, root, i, Dir(p));
    assert forall j: nat :: j != i ==> Entry(mem', root, j) == Entry(mem, root, j);
  }

  /** An empty level-1 table adds no level-0 table. */
  lemma GrowLevel1(mem: seq<Page>, mem': seq<Page>, mid: map<nat, nat>, low: map<nat, nat>, i: nat, p: nat)
    requires Level1(mem, mid, low) && i !in mid && |mem'| == |mem| && p < |mem| && mem'[p] == ZEROPAGE
    requires forall j :: j in mid && mid[j] < |mem| ==> mem'[mid[j]] == mem[mid[j]]
    ensures Level1(mem', mid[i := p], low)
  {
    forall k: nat
      ensures Slot1(mem', mid[i := p], k) == Slot1(mem, mid, k)
    {
    }
  }

  lemma AddMidSpace(mem: seq<Page>, role: seq<Role>, s: nat, sp: Space, i: nat, p: nat)
    requires MemOk(mem) && |role| == |mem| && SpaceOk(mem, role, s, sp) && i < ENTRIES && i !in sp.mid
    requires p < |mem| && role[p] == Held && mem[p] == ZEROPAGE
    ensures SpaceOk(Put(mem, sp.root, i, Dir(p)), role[p := Mid(s, i)], s, sp.(mid := sp.mid[i := p]))
  {
    hide Level2, Level1, Level0;
    var mem' := Put(mem, sp.root, i, Dir(p));
    WriteLevel2(mem, sp.root, sp.mid, i, p);
    GrowLevel1(mem, mem', sp.mid, sp.low, i, p);
    SameLevel0(mem, mem', sp.low, sp.leaf);
  }

  lemma AddMid(mem: seq<Page>, freelist: seq<nat>, g: Ghosts, s: nat, i: nat, p: nat)
    requires Inv(mem, freelist, g) && s in g.spaces && i < ENTRIES && i !in g.spaces[s].mid
    requires p < |mem| && g.role[p] == Held && mem[p] == ZEROPAGE
    ensures g.spaces[s].root < |mem| && |mem[g.spaces[s].root]| == ENTRIES
    ensures
      var root := g.spaces[s].root;
      Inv(Put(mem, root, i, Dir(p)), freelist, WithMid(g, s, i, p))
  {
    hide Inv, SpaceOk, FreeOk, OthersKept, OnlySpace;
    var sp := g.spaces[s];
    TablePages(mem, freelist, g, s);
    AddMidSpace(mem, g.role, s, sp, i, p);
    var g' := WithMid(g, s, i, p);
    NewRole(mem, freelist, g, g', s, p, Mid(s, i));
    TouchOne(mem, g.role, s, sp.root, i, Dir(p), p, Mid(s, i));
    OneSpace(g.spaces, s, g'.spaces[s]);
    LocalChange(mem, freelist, g, Put(mem, sp.root, i, Dir(p)), freelist, g', s);
  }

  /** walk, level 1: a held zeroed page becomes the missing level-0 table. */
  ghost function WithLow(g: Ghosts, s: nat, k: nat, p: nat): Ghosts
    requires s in g.spaces && p < |g.role|
  {
    Ghosts(g.role[p := Low(s, k)], g.spaces[s := g.spaces[s].(low := g.spaces[s].low[k := p])])
  }

  /** Different groups have different level-1 slots. */
  lemma WriteLevel1(mem: seq<Page>, role: seq<Role>, s: nat, mid: map<nat, nat>, low: map<nat, nat>, k: nat, p: nat)
    requires MemOk(mem) && |role| == |mem| && MidPages(role, s, mid) && k / ENTRIES in mid && Level1(mem, mid, low)
    ensures Level1(Put(mem, mid[k / ENTRIES], k % ENTRIES, Dir(p)), mid, low[k := p])
  {
    var t := mid[k / ENTRIES];
    var mem' := Put(mem, t, k % ENTRIES, Dir(p));
    forall j: nat | j != k
      ensures Slot1(mem', mid, j) == Slot1(mem, mid, j)
    {
      if j / ENTRIES in mid && mid[j / ENTRIES] == t {
        assert j / ENTRIES == k / ENTRIES;
      }
    }
  }

  /** An empty level-0 table adds no translation. */
  lemma GrowLevel0(mem: seq<Page>, mem': seq<Page>, low: map<nat, nat>, leaf: map<nat, nat>, k: nat, p: nat)
    requires Level0(mem, low, leaf) && k !in low && |mem'| == |mem| && p < |mem| && mem'[p] == ZEROPAGE
    requires forall j :: j in low && low[j] < |mem| ==> mem'[low[j]] == mem[low[j]]
    ensures Level0(mem', low[k := p], leaf)
  {
    forall v: nat
      ensures Slot0(mem', low[k := p], v) == Slot0(mem, low, v)
    {
    }
  }

  lemma AddLowSpace(mem: seq<Page>, role: seq<Role>, s: nat, sp: Space, k: nat, p: nat)
    requires MemOk(mem) && |role| == |mem| && SpaceOk(mem, role, s, sp) && k / ENTRIES in sp.mid && k !in sp.low
    requires p < |mem| && role[p] == Held && mem[p] == ZEROPAGE
    ensures
      var t := sp.mid[k / ENTRIES];
      SpaceOk(Put(mem, t, k % ENTRIES, Dir(p)), role[p := Low(s, k)], s, sp.(low := sp.low[k := p]))
  {
    hide Level2, Level1, Level0;
    var t := sp.mid[k / ENTRIES];
    var mem' := Put(mem, t, k % ENTRIES, Dir(p));
    SameLevel2(mem, mem', sp.root, sp.mid);
    WriteLevel1(mem, role, s, sp.mid, sp.low, k, p);
    GrowLevel0(mem, mem', sp.low, sp.leaf, k, p);
  }

  lemma AddLow(mem: seq<Page>, freelist: seq<nat>, g: Ghosts, s: nat, k: nat, p: nat)
    requires Inv(mem, freelist, g) && s in g.spaces && k / ENTRIES in g.spaces[s].mid && k !in g.spaces[s].low
    requires p < |mem| && g.role[p] == Held && mem[p] == ZEROPAGE
    ensures g.spaces[s].mid[k / ENTRIES] < |mem| && |mem[g.spaces[s].mid[k / ENTRIES]]| == ENTRIES
    ensures
      var t := g.spaces[s].mid[k / ENTRIES];
      Inv(Put(mem, t, k % ENTRIES, Dir(p)), freelist, WithLow(g, s, k, p))
  {
    hide Inv, SpaceOk, FreeOk, OthersKept, OnlySpace;
    var sp := g.spaces[s];
    TablePages(mem, freelist, g, s);
    var t := sp.mid[k / ENTRIES];
    AddLowSpace(mem, g.role, s, sp, k, p);
    var g' := WithLow(g, s, k, p);
    NewRole(mem, freelist, g, g', s, p, Low(s, k));
    TouchOne(mem, g.role, s, t, k % ENTRIES, Dir(p), p, Low(s, k));
    OneSpace(g.spaces, s, g'.spaces[s]);
    LocalChange(mem, freelist, g, Put(mem, t, k % ENTRIES, Dir(p)), freelist, g', s);
  }

  // ----- Leaf entries -----

  /** mappages and uvmunmap write one leaf entry; a valid `e` maps the page, any other unmaps it. */
  ghost function WithLeaf(g: Ghosts, s: nat, v: nat, e: nat): Ghosts
    requires s in g.spaces
  {
    g.(spaces := g.spaces[s := g.spaces[s].(leaf := LeafAfter(g.spaces[s].leaf, v, e))])
  }

  ghost function LeafAfter(leaf: map<nat, nat>, v: nat, e: nat): map<nat, nat> {
    if IsValid(e) then leaf[v := e] else leaf - {v}
  }

  /** Distinct virtual pages never share a leaf slot, so every other translation is unchanged. */
  lemma WriteLevel0(mem: seq<Page>, role: seq<Role>, s: nat, low: map<nat, nat>, leaf: map<nat, nat>, v: nat, e: nat)
    requires MemOk(mem) && |role| == |mem| && LowPages(role, s, low) && v / ENTRIES in low && Level0(mem, low, leaf)
    ensures Level0(Put(mem, low[v / ENTRIES], v % ENTRIES, e), low, LeafAfter(leaf, v, e))
  {
    var t := low[v / ENTRIES];
    var mem' := Put(mem, t, v % ENTRIES, e);
    assert Slot0(mem', low, v) == e;
    forall u: nat | u != v
      ensures Slot0(mem', low, u) == Slot0(mem, low, u)
    {
      if u / ENTRIES in low && low[u / ENTRIES] == t {
        assert u / ENTRIES == v / ENTRIES;
      }
    }
  }

  lemma WriteLeafSpace(mem: seq<Page>, role: seq<Role>, s: nat, sp: Space, v: nat, e: nat)
    requires MemOk(mem) && |role| == |mem| && SpaceOk(mem, role, s, sp) && v / ENTRIES in sp.low && v !in sp.user
    ensures
      var t := sp.low[v / ENTRIES];
      SpaceOk(Put(mem, t, v % ENTRIES, e), role, s, sp.(leaf := LeafAfter(sp.leaf, v, e)))
  {
    hide Level2, Level1, Level0;
    var t := sp.low[v / ENTRIES];
    var mem' := Put(mem, t, v % ENTRIES, e);
    SameLevel2(mem, mem', sp.root, sp.mid);
    SameLevel1(mem, mem', sp.mid, sp.low);
    WriteLevel0(mem, role, s, sp.low, sp.leaf, v, e);
  }

  lemma SameRoles(mem: seq<Page>, freelist: seq<nat>, g: Ghosts, g': Ghosts, s: nat)
    requires Inv(mem, freelist, g) && s in g.spaces && s in g'.spaces && g'.role == g.role
    requires g'.spaces[s] == g.spaces[s].(leaf := g'.spaces[s].leaf)
    ensures forall q :: 0 <= q < |g'.role| && OwnedBy(g'.role[q], s) ==> RoleOk(g', q)
  {
    hide SpaceOk, FreeOk;
    forall q | 0 <= q < |g'.role| && OwnedBy(g'.role[q], s)
      ensures RoleOk(g', q)
    {
      assert RoleOk(g, q);
    }
  }

  lemma WriteLeaf(mem: seq<Page>, freelist: seq<nat>, g: Ghosts, s: nat, v: nat, e: nat)
    requires Inv(mem, freelist, g) && s in g.spaces && v / ENTRIES in g.spaces[s].low && v !in g.spaces[s].user
    ensures g.spaces[s].low[v / ENTRIES] < |mem| && |mem[g.spaces[s].low[v / ENTRIES]]| == ENTRIES
    ensures
      var t := g.spaces[s].low[v / ENTRIES];
      Inv(Put(mem, t, v % ENTRIES, e), freelist, WithLeaf(g, s, v, e))
  {
    hide Inv, SpaceOk, FreeOk, OthersKept, OnlySpace, LeafAfter;
    var sp := g.spaces[s];
    TablePages(mem, freelist, g, s);
    var t := sp.low[v / ENTRIES];
    var g' := WithLeaf(g, s, v, e);
    WriteLeafSpace(mem, g.role, s, sp, v, e);
    SameRoles(mem, freelist, g, g', s);
    TouchOne(mem, g.role, s, t, v % ENTRIES, e, t, g.role[t]);
    assert g.role[t := g.role[t]] == g.role;
    OneSpace(g.spaces, s, g'.spaces[s]);
    LocalChange(mem, freelist, g, Put(mem, t, v % ENTRIES, e), freelist, g', s);
  }

  // ----- Ownership transfers (no memory changes) -----

  /** A held page that was just mapped becomes the address space's own. */
  ghost function Adopted(g: Ghosts, s: nat, v: nat, p: nat): Ghosts
    requires s in g.spaces && p < |g.role|
  {
    Ghosts(g.role[p := User(s, v)], g.spaces[s := g.spaces[s].(user := g.spaces[s].user[v := p])])
  }

  lemma AdoptSpace(mem: seq<Page>, role: seq<Role>, s: nat, sp: Space, v: nat, p: nat)
    requires SpaceOk(mem, role, s, sp) && v in sp.leaf && PageOf(sp.leaf[v]) == p < |role| && role[p] == Held
    ensures SpaceOk(mem, role[p := User(s, v)], s, sp.(user := sp.user[v := p]))
  {
    hide Level2, Level1, Level0;
  }

  lemma Adopt(mem: seq<Page>, freelist: seq<nat>, g: Ghosts, s: nat, v: nat, p: nat)
    requires Inv(mem, freelist, g) && s in g.spaces && v in g.spaces[s].leaf && v !in g.spaces[s].user
    requires PageOf(g.spaces[s].leaf[v]) == p < |g.role| && g.role[p] == Held
    ensures Inv(mem, freelist, Adopted(g, s, v, p))
  {
    hide Inv, SpaceOk, FreeOk, OthersKept, OnlySpace;
    var sp := g.spaces[s];
    TablePages(mem, freelist, g, s);
    var g' := Adopted(g, s, v, p);
    AdoptSpace(mem, g.role, s, sp, v, p);
    NewRole(mem, freelist, g, g', s, p, User(s, v));
    GiveAway(mem, g.role, s, p, User(s, v));
    OneSpace(g.spaces, s, g'.spaces[s]);
    LocalChange(mem, freelist, g, mem, freelist, g', s);
  }

  /** uvmunmap takes a page away from the address space before freeing it. */
  ghost function Disowned(g: Ghosts, s: nat, v: nat): Ghosts
    requires s in g.spaces && v in g.spaces[s].user && g.spaces[s].user[v] < |g.role|
  {
    Ghosts(g.role[g.spaces[s].user[v] := Held], g.spaces[s := g.spaces[s].(user := g.spaces[s].user - {v})])
  }

  lemma DisownSpace(mem: seq<Page>, role: seq<Role>, s: nat, sp: Space, v: nat)
    requires SpaceOk(mem, role, s, sp) && v in sp.user
    ensures v in sp.leaf && sp.user[v] < |role| && sp.user[v] == PageOf(sp.leaf[v]) && role[sp.user[v]] == User(s, v)
    ensures SpaceOk(mem, role[sp.user[v] := Held], s, sp.(user := sp.user - {v}))
  {
    hide Level2, Level1, Level0;
  }

  lemma DisownRoles(mem: seq<Page>, freelist: seq<nat>, g: Ghosts, s: nat, v: nat)
    requires Inv(mem, freelist, g) && s in g.spaces && v in g.spaces[s].user && g.spaces[s].user[v] < |g.role|
    requires g.role[g.spaces[s].user[v]] == User(s, v)
    ensures FreeOk(Disowned(g, s, v).role, freelist)
    ensures OthersKept(mem, g.role, mem, Disowned(g, s, v).role, s)
    ensures forall q :: 0 <= q < |g.role| && OwnedBy(Disowned(g, s, v).role[q], s) ==> RoleOk(Disowned(g, s, v), q)
  {
    hide SpaceOk;
    forall q | 0 <= q < |g.role| && OwnedBy(Disowned(g, s, v).role[q], s)
      ensures RoleOk(Disowned(g, s, v), q)
    {
      assert RoleOk(g, q);
    }
  }

  lemma Disown(mem: seq<Page>, freelist: seq<nat>, g: Ghosts, s: nat, v: nat)
    requires Inv(mem, freelist, g) && s in g.spaces && v in g.spaces[s].user
    ensures v in g.spaces[s].leaf && g.spaces[s].user[v] < |g.role| && g.spaces[s].user[v] == PageOf(g.spaces[s].leaf[v])
    ensures g.role[g.spaces[s].user[v]] == User(s, v)
    ensures Inv(mem, freelist, Disowned(g, s, v))
  {
    hide Inv, SpaceOk, FreeOk, OthersKept, OnlySpace;
    TablePages(mem, freelist, g, s);
    DisownSpace(mem, g.role, s, g.spaces[s], v);
    DisownRoles(mem, freelist, g, s, v);
    var g' := Disowned(g, s, v);
    OneSpace(g.spaces, s, g'.spaces[s]);
    LocalChange(mem, freelist, g, mem, freelist, g', s);
  }

  /** uvmcreate: a held zeroed page becomes the root of a new, empty address space. */
  ghost function WithSpace(g: Ghosts, s: nat, p: nat): Ghosts
    requires p < |g.role|
  {
    Ghosts(g.role[p := Root(s)], g.spaces[s := Space(p, map[], map[], map[], map[])])
  }

  lemma EmptySpace(mem: seq<Page>, role: seq<Role>, s: nat, p: nat)
    requires p < |mem| == |role| && role[p] == Root(s) && mem[p] == ZEROPAGE
    ensures SpaceOk(mem, role, s, Space(p, map[], map[], map[], map[]))
  {
    hide Level2;
    EmptyLevel2(mem, p);
  }

  lemma EmptyLevel2(mem: seq<Page>, p: nat)
    requires p < |mem| && mem[p] == ZEROPAGE
    ensures Level2(mem, p, map[])
  {
    assert forall i: nat :: Entry(mem, p, i) == 0;
  }

  lemma NewSpace(mem: seq<Page>, freelist: seq<nat>, g: Ghosts, s: nat, p: nat)
    requires Inv(mem, freelist, g) && s !in g.spaces && p < |mem| && p < |g.role| && g.role[p] == Held && mem[p] == ZEROPAGE
    ensures Inv(mem, freelist, WithSpace(g, s, p))
  {
    hide Inv, SpaceOk, FreeOk, OthersKept, OnlySpace;
    SameSize(mem, freelist, g);
    var g' := WithSpace(g, s, p);
    EmptySpace(mem, g'.role, s, p);
    NewRole(mem, freelist, g, g', s, p, Root(s));
    GiveAway(mem, g.role, s, p, Root(s));
    OneSpace(g.spaces, s, g'.spaces[s]);
    LocalChange(mem, freelist, g, mem, freelist, g', s);
  }

  lemma SameSize(mem: seq<Page>, freelist: seq<nat>, g: Ghosts)
    requires Inv(mem, freelist, g)
    ensures MemOk(mem) && |g.role| == |mem| && FreeOk(g.role, freelist)
  {
  }

  lemma GiveAway(mem: seq<Page>, role: seq<Role>, s: nat, p: nat, r: Role)
    requires |role| == |mem| && p < |mem| && role[p] == Held && OwnedBy(r, s)
    ensures OthersKept(mem, role, mem, role[p := r], s)
  {
  }

  /** Before its tables are freed, an address space is taken out of the system; its pages are then held. */
  ghost function Detached(g: Ghosts, s: nat): Ghosts {
    Ghosts(seq(|g.role|, p requires 0 <= p < |g.role| => if OwnedBy(g.role[p], s) then Held else g.role[p]), g.spaces - {s})
  }

  lemma DetachRoles(mem: seq<Page>, freelist: seq<nat>, g: Ghosts, s: nat)
    requires |g.role| == |mem| && FreeOk(g.role, freelist)
    ensures FreeOk(Detached(g, s).role, freelist)
    ensures OthersKept(mem, g.role, mem, Detached(g, s).role, s) && OnlySpace(g.spaces, Detached(g, s).spaces, s)
    ensures forall q :: 0 <= q < |g.role| ==> !OwnedBy(Detached(g, s).role[q], s)
  {
  }

  lemma Detach(mem: seq<Page>, freelist: seq<nat>, g: Ghosts, s: nat)
    requires Inv(mem, freelist, g) && s in g.spaces
    ensures Inv(mem, freelist, Detached(g, s))
  {
    hide Inv, SpaceOk, FreeOk, OthersKept, OnlySpace;
    SameSize(mem, freelist, g);
    DetachRoles(mem, freelist, g, s);
    LocalChange(mem, freelist, g, mem, freelist, Detached(g, s), s);
  }
}
