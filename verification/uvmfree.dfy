/** Creating and freeing whole address spaces (kernel/vm.c, kernel/proc.c, kernel/kalloc.c). */
module FreeVm {
  import opened PageTable
  import opened Vm
  import opened UserVm
  import opened Wrappers

  // ----- The subtree below a table -----

  /** Height of a table page in the tree: 0 for the tables that hold leaf entries, 2 for the root. */
  ghost function Height(r: Role): nat {
    if r.Root? then 2 else if r.Mid? then 1 else 0
  }

  /** Which table of the given height lies above (or is) a table page: tables of one height are numbered by
      the virtual pages they cover. */
  ghost function KeyAt(r: Role, height: nat): nat {
    match r
    case Mid(_, i) => if height <= 1 then i else i / ENTRIES
    case Low(_, k) => if height == 0 then k else if height == 1 then k / ENTRIES else k / ENTRIES / ENTRIES
    case _ => 0
  }

  /** The page is a table of s in the subtree of table `key` of that height. */
  ghost predicate Below(r: Role, s: nat, height: nat, key: nat) {
    OwnedBy(r, s) && !r.User? && Height(r) <= height && KeyAt(r, height) == key
  }

  /** The page numbered `key` among the tables of that height. */
  ghost predicate Node(sp: Space, height: nat, key: nat, table: nat) {
    if height == 2 then key == 0 && table == sp.root
    else if height == 1 then key in sp.mid && sp.mid[key] == table
    else height == 0 && key in sp.low && sp.low[key] == table
  }

  /** An address space without translations, as it was when it was taken out of the system. */
  ghost predicate Bare(mem: seq<Page>, role: seq<Role>, s: nat, sp: Space) {
    && MemOk(mem) && |role| == |mem| && SpaceOk(mem, role, s, sp) && sp.leaf == map[]
    && forall p :: 0 <= p < |role| && OwnedBy(role[p], s) ==> Backed(role[p], sp, p)
  }

  ghost predicate Backed(r: Role, sp: Space, p: nat) {
    match r
    case Root(_) => sp.root == p
    case Mid(_, i) => i in sp.mid && sp.mid[i] == p
    case Low(_, k) => k in sp.low && sp.low[k] == p
    case _ => false
  }

  /** What freewalk finds in entry j of a table: nothing, or a lower table; never a leaf. */
  lemma NodeEntry(mem: seq<Page>, role: seq<Role>, s: nat, sp: Space, height: nat, key: nat, table: nat, j: nat)
    requires Bare(mem, role, s, sp) && height <= 2 && Node(sp, height, key, table) && j < ENTRIES
    ensures table < |mem| && |mem[table]| == ENTRIES
    ensures IsValid(mem[table][j]) ==>
      && !IsLeaf(mem[table][j]) && height > 0
      && Node(sp, height - 1, key * ENTRIES + j, PageOf(mem[table][j]))
    ensures !IsValid(mem[table][j]) && height > 0 ==> Vacant(role, s, height - 1, key * ENTRIES + j)
  {
    hide Backed, Vacant, Level2, Level1, Level0, UserPages, IsValid, IsLeaf, PageOf, Dir;
    if height == 0 {
      Entry0(mem, sp, key, j);
    } else if height == 1 {
      var k := key * ENTRIES + j;
      Entry1(mem, sp, key, j);
      if k in sp.low {
        Directory(sp.low[k]);
      } else {
        VacantLow(mem, role, s, sp, k);
      }
    } else {
      Entry2(mem, sp, j);
      if j in sp.mid {
        Directory(sp.mid[j]);
      } else {
        VacantMid(mem, role, s, sp, j);
      }
    }
  }

  ghost predicate Vacant(role: seq<Role>, s: nat, height: nat, key: nat) {
    forall p :: 0 <= p < |role| ==> !Below(role[p], s, height, key)
  }

  lemma Entry0(mem: seq<Page>, sp: Space, k: nat, j: nat)
    requires MemOk(mem) && k in sp.low && sp.low[k] < |mem| && j < ENTRIES && Level0(mem, sp.low, map[])
    ensures !IsValid(mem[sp.low[k]][j])
  {
    var v := k * ENTRIES + j;
    assert v / ENTRIES == k && v % ENTRIES == j;
    assert Slot0(mem, sp.low, v) == mem[sp.low[k]][j];
  }

  lemma Entry1(mem: seq<Page>, sp: Space, i: nat, j: nat)
    requires MemOk(mem) && i in sp.mid && sp.mid[i] < |mem| && j < ENTRIES && Level1(mem, sp.mid, sp.low)
    ensures
      var k, e := i * ENTRIES + j, mem[sp.mid[i]][j];
      if k in sp.low then e == Dir(sp.low[k]) else !IsValid(e)
  {
    var k := i * ENTRIES + j;
    assert k / ENTRIES == i && k % ENTRIES == j;
    assert Slot1(mem, sp.mid, k) == mem[sp.mid[i]][j];
  }

  lemma Entry2(mem: seq<Page>, sp: Space, j: nat)
    requires MemOk(mem) && sp.root < |mem| && j < ENTRIES && Level2(mem, sp.root, sp.mid)
    ensures
      var e := mem[sp.root][j];
      if j in sp.mid then e == Dir(sp.mid[j]) else !IsValid(e)
  {
    assert Entry(mem, sp.root, j) == mem[sp.root][j];
  }

  lemma VacantLow(mem: seq<Page>, role: seq<Role>, s: nat, sp: Space, k: nat)
    requires Bare(mem, role, s, sp) && k !in sp.low
    ensures Vacant(role, s, 0, k)
  {
    hide SpaceOk;
    forall p | 0 <= p < |role|
      ensures !Below(role[p], s, 0, k)
    {
      if OwnedBy(role[p], s) {
        assert Backed(role[p], sp, p);
      }
    }
  }

  lemma VacantMid(mem: seq<Page>, role: seq<Role>, s: nat, sp: Space, i: nat)
    requires Bare(mem, role, s, sp) && i !in sp.mid
    ensures Vacant(role, s, 1, i)
  {
    forall p | 0 <= p < |role|
      ensures !Below(role[p], s, 1, i)
    {
      if OwnedBy(role[p], s) {
        assert Backed(role[p], sp, p);
        if role[p].Low? {
          LowNeedsMid(mem, sp.mid, sp.low, role[p].k);
        }
      }
    }
  }

  /** The subtree of table `key` is still to be freed. */
  ghost predicate Intact(m0: seq<Page>, role0: seq<Role>, mem: seq<Page>, role: seq<Role>, s: nat, height: nat, key: nat) {
    && |mem| == |role| == |role0| == |m0|
    && forall p :: 0 <= p < |role0| && Below(role0[p], s, height, key) ==> role[p] == Held && mem[p] == m0[p]
  }

  /** The subtrees of the first n entries of table `key` are freed, the rest of memory is as it was, except
      for the table itself. */
  ghost predicate FreedTo(role0: seq<Role>, m1: seq<Page>, role1: seq<Role>, mem: seq<Page>, role: seq<Role>,
                          s: nat, height: nat, key: nat, n: nat) {
    && |mem| == |role| == |m1| == |role1| == |role0|
    && forall p :: 0 <= p < |role0| ==>
         if InFirst(role0[p], s, height, key, n) then role[p] == Free
         else role[p] == role1[p] && (!IsTop(role0[p], s, height, key) ==> mem[p] == m1[p])
  }

  ghost predicate IsTop(r: Role, s: nat, height: nat, key: nat) {
    Below(r, s, height, key) && Height(r) == height
  }

  ghost predicate InFirst(r: Role, s: nat, height: nat, key: nat, n: nat) {
    Below(r, s, height, key) && Height(r) < height && KeyAt(r, height - 1) % ENTRIES < n
  }

  /** The whole subtree of table `key` is freed and the rest of memory is as it was. */
  ghost predicate FreedAll(role0: seq<Role>, m1: seq<Page>, role1: seq<Role>, mem: seq<Page>, role: seq<Role>,
                           s: nat, height: nat, key: nat) {
    && |mem| == |role| == |m1| == |role1| == |role0|
    && forall p :: 0 <= p < |role0| ==>
         if Below(role0[p], s, height, key) then role[p] == Free else role[p] == role1[p] && mem[p] == m1[p]
  }

  /** freewalk on table `key`: frees it and every table below it, each page once. */
  method FreeWalk(m: Memory, table: nat, ghost m0: seq<Page>, ghost role0: seq<Role>, ghost s: nat, ghost sp: Space,
                  ghost height: nat, ghost key: nat)
    requires m.Valid() && Bare(m0, role0, s, sp) && height <= 2 && Node(sp, height, key, table)
    requires Intact(m0, role0, m.mem, m.g.role, s, height, key)
    modifies m
    ensures m.Valid() && m.g.spaces == old(m.g.spaces)
    ensures FreedAll(role0, old(m.mem), old(m.g.role), m.mem, m.g.role, s, height, key)
    decreases height
  {
    hide Inv, Bare, Node, Intact, FreedTo, FreedAll, Below, IsTop, Vacant;
    ghost var m1, role1 := m.mem, m.g.role;
    TopPage(m0, role0, s, sp, height, key, table);
    TopHeld(m0, role0, m1, role1, s, height, key, table);
    var i := 0;
    while i < ENTRIES
      invariant 0 <= i <= ENTRIES
      invariant m.Valid() && m.g.spaces == old(m.g.spaces)
      invariant FreedTo(role0, m1, role1, m.mem, m.g.role, s, height, key, i)
      invariant table < |m.mem| && |m.mem[table]| == ENTRIES
      invariant forall j :: i <= j < ENTRIES ==> m.mem[table][j] == m0[table][j]
    {
      var pte := m.mem[table][i];
      NodeEntry(m0, role0, s, sp, height, key, table, i);
      ghost var m2, role2 := m.mem, m.g.role;
      if IsValid(pte) && !IsLeaf(pte) {
        var child := PageOf(pte);
        StillIntact(m0, role0, m1, role1, m.mem, m.g.role, s, height, key, i);
        FreeWalk(m, child, m0, role0, s, sp, height - 1, key * ENTRIES + i);
        OneMore(role0, m1, role1, m2, role2, m.mem, m.g.role, s, height, key, i, table, m2[table][i := 0]);
        HeldWriteKeeps(m.mem, m.freelist, m.g, table, m.mem[table][i := 0]);
        m.mem := Put(m.mem, table, i, 0);
      } else if IsValid(pte) {
        assert false;
      } else {
        NothingThere(role0, m1, role1, m.mem, m.g.role, s, height, key, i);
      }
      i := i + 1;
    }
    LastPage(role0, m1, role1, m.mem, m.g.role, s, height, key, table, JUNKFREE);
    m.Kfree(table);
  }

  /** The table itself is in its subtree, and it alone has that height. */
  lemma TopPage(m0: seq<Page>, role0: seq<Role>, s: nat, sp: Space, height: nat, key: nat, table: nat)
    requires Bare(m0, role0, s, sp) && height <= 2 && Node(sp, height, key, table)
    ensures table < |m0| == |role0| && |m0[table]| == ENTRIES && IsTop(role0[table], s, height, key)
    ensures forall p :: 0 <= p < |role0| && IsTop(role0[p], s, height, key) ==> p == table
  {
    hide Level2, Level1, Level0;
    forall p | 0 <= p < |role0| && IsTop(role0[p], s, height, key)
      ensures p == table
    {
      assert Backed(role0[p], sp, p);
    }
  }

  lemma TopHeld(m0: seq<Page>, role0: seq<Role>, mem: seq<Page>, role: seq<Role>, s: nat, height: nat, key: nat, table: nat)
    requires Intact(m0, role0, mem, role, s, height, key) && table < |m0| && IsTop(role0[table], s, height, key)
    ensures table < |mem| == |role| && role[table] == Held && mem[table] == m0[table]
    ensures FreedTo(role0, mem, role, mem, role, s, height, key, 0)
  {
  }

  /** Freeing the subtrees of earlier entries leaves this entry's subtree alone. */
  lemma StillIntact(m0: seq<Page>, role0: seq<Role>, m1: seq<Page>, role1: seq<Role>, mem: seq<Page>, role: seq<Role>,
                    s: nat, height: nat, key: nat, i: nat)
    requires Intact(m0, role0, m1, role1, s, height, key) && 1 <= height <= 2 && i < ENTRIES
    requires FreedTo(role0, m1, role1, mem, role, s, height, key, i)
    ensures Intact(m0, role0, mem, role, s, height - 1, key * ENTRIES + i)
  {
    hide Below;
    forall p | 0 <= p < |role0| && Below(role0[p], s, height - 1, key * ENTRIES + i)
      ensures role[p] == Held && mem[p] == m0[p]
    {
      ChildOf(role0[p], s, height, key, i);
    }
  }

  /** Membership in the subtree of entry i, seen from the table. */
  lemma ChildOf(r: Role, s: nat, height: nat, key: nat, i: nat)
    requires 1 <= height <= 2 && i < ENTRIES
    ensures Below(r, s, height - 1, key * ENTRIES + i) <==>
      Below(r, s, height, key) && Height(r) < height && KeyAt(r, height - 1) % ENTRIES == i
  {
  }

  lemma OneMore(role0: seq<Role>, m1: seq<Page>, role1: seq<Role>, m2: seq<Page>, role2: seq<Role>, mem: seq<Page>, role: seq<Role>,
                s: nat, height: nat, key: nat, i: nat, table: nat, page: Page)
    requires FreedTo(role0, m1, role1, m2, role2, s, height, key, i) && 1 <= height <= 2 && i < ENTRIES
    requires FreedAll(role0, m2, role2, mem, role, s, height - 1, key * ENTRIES + i)
    requires table < |role0| && IsTop(role0[table], s, height, key) && role1[table] == Held
    ensures table < |mem| == |role| && mem[table] == m2[table] && role[table] == Held
    ensures FreedTo(role0, m1, role1, mem[table := page], role, s, height, key, i + 1)
  {
    hide Below;
    forall p | 0 <= p < |role0|
      ensures Below(role0[p], s, height - 1, key * ENTRIES + i) <==>
        Below(role0[p], s, height, key) && Height(role0[p]) < height && KeyAt(role0[p], height - 1) % ENTRIES == i
    {
      ChildOf(role0[p], s, height, key, i);
    }
  }

  lemma NothingThere(role0: seq<Role>, m1: seq<Page>, role1: seq<Role>, mem: seq<Page>, role: seq<Role>,
                     s: nat, height: nat, key: nat, i: nat)
    requires FreedTo(role0, m1, role1, mem, role, s, height, key, i) && height <= 2 && i < ENTRIES
    requires height > 0 ==> Vacant(role0, s, height - 1, key * ENTRIES + i)
    ensures FreedTo(role0, m1, role1, mem, role, s, height, key, i + 1)
  {
    if height > 0 {
      hide Below;
      forall p | 0 <= p < |role0|
        ensures InFirst(role0[p], s, height, key, i + 1) <==> InFirst(role0[p], s, height, key, i)
      {
        ChildOf(role0[p], s, height, key, i);
      }
    }
  }

  lemma LastPage(role0: seq<Role>, m1: seq<Page>, role1: seq<Role>, mem: seq<Page>, role: seq<Role>,
                 s: nat, height: nat, key: nat, table: nat, page: Page)
    requires FreedTo(role0, m1, role1, mem, role, s, height, key, ENTRIES) && table < |role0|
    requires IsTop(role0[table], s, height, key) && role1[table] == Held
    requires forall p :: 0 <= p < |role0| && IsTop(role0[p], s, height, key) ==> p == table
    ensures table < |role| == |mem| && role[table] == Held
    ensures FreedAll(role0, m1, role1, mem[table := page], role[table := Free], s, height, key)
  {
  }

  // ----- uvmfree -----

  /** Address space s is gone: exactly the pages it owned are free now, nothing else happened. */
  ghost predicate Gone(mem: seq<Page>, g: Ghosts, mem': seq<Page>, g': Ghosts, s: nat) {
    && g'.spaces == g.spaces - {s}
    && |mem| == |g.role| == |mem'| == |g'.role|
    && forall p :: 0 <= p < |mem| ==>
         if OwnedBy(g.role[p], s) then g'.role[p] == Free else g'.role[p] == g.role[p] && mem'[p] == mem[p]
  }

  lemma MakeBare(mem: seq<Page>, freelist: seq<nat>, g: Ghosts, s: nat)
    requires Inv(mem, freelist, g) && s in g.spaces && g.spaces[s].leaf == map[]
    ensures Bare(mem, g.role, s, g.spaces[s])
    ensures |Detached(g, s).role| == |mem|
    ensures Intact(mem, g.role, mem, Detached(g, s).role, s, 2, 0)
  {
    UserIsLeaf(mem, freelist, g, s);
    hide FreeOk, Level2, Level1, Level0;
    assert SpaceOk(mem, g.role, s, g.spaces[s]);
    hide SpaceOk;
    forall p | 0 <= p < |g.role| && OwnedBy(g.role[p], s)
      ensures Backed(g.role[p], g.spaces[s], p)
    {
      assert RoleOk(g, p);
    }
  }

  /** Every table page is below the root. */
  lemma AllBelow(mem: seq<Page>, role: seq<Role>, s: nat, sp: Space)
    requires Bare(mem, role, s, sp)
    ensures forall p :: 0 <= p < |role| ==> (OwnedBy(role[p], s) <==> Below(role[p], s, 2, 0))
  {
    forall p | 0 <= p < |role| && OwnedBy(role[p], s)
      ensures Below(role[p], s, 2, 0)
    {
      assert Backed(role[p], sp, p);
      if role[p].Low? {
        LowNeedsMid(mem, sp.mid, sp.low, role[p].k);
      }
    }
  }

  /** Unmapping the user range and freeing the tables together free what the address space owned. */
  lemma FreedSpace(m0: seq<Page>, g0: Ghosts, m2: seq<Page>, g2: Ghosts, m3: seq<Page>, g3: Ghosts, s: nat, dom: set<nat>)
    requires Shrunk(m0, g0, m2, g2, s, dom, true)
    requires forall p :: 0 <= p < |g0.role| && g0.role[p].User? && g0.role[p].s == s ==> g0.role[p].v in dom
    requires forall p :: 0 <= p < |g2.role| ==> (OwnedBy(g2.role[p], s) <==> Below(g2.role[p], s, 2, 0))
    requires FreedAll(g2.role, m2, Detached(g2, s).role, m3, g3.role, s, 2, 0) && g3.spaces == Detached(g2, s).spaces
    ensures Gone(m0, g0, m3, g3, s)
  {
    assert g3.spaces == g0.spaces - {s};
    hide Below;
  }

  /** Every owned page is mapped below n. */
  lemma OwnedInRange(mem: seq<Page>, freelist: seq<nat>, g: Ghosts, s: nat, n: nat)
    requires Inv(mem, freelist, g) && s in g.spaces
    requires forall v :: v in g.spaces[s].leaf ==> v < n
    ensures forall p :: 0 <= p < |g.role| && g.role[p].User? && g.role[p].s == s ==> g.role[p].v in Interval(0, n)
  {
    UserIsLeaf(mem, freelist, g, s);
    hide SpaceOk, FreeOk;
    forall p | 0 <= p < |g.role| && g.role[p].User? && g.role[p].s == s
      ensures g.role[p].v in Interval(0, n)
    {
      assert RoleOk(g, p);
    }
  }

  lemma ShrunkLeaf(mem: seq<Page>, g: Ghosts, mem': seq<Page>, g': Ghosts, s: nat, dom: set<nat>, free: bool)
    requires Shrunk(mem, g, mem', g', s, dom, free) && g.spaces[s].leaf.Keys <= dom
    ensures s in g'.spaces && g'.spaces[s].leaf == map[] && g'.spaces[s].root == g.spaces[s].root
  {
  }

  /** uvmfree: an address space whose every translation is an owned page below sz is freed entirely. */
  method Uvmfree(m: Memory, root: nat, sz: nat, ghost s: nat)
    requires m.Valid() && s in m.g.spaces && m.g.spaces[s].root == root && sz <= MAXVA
    requires forall v :: v in m.g.spaces[s].leaf ==> v < Pages(sz) && v in m.g.spaces[s].user
    modifies m
    ensures m.Valid() && Gone(old(m.mem), old(m.g), m.mem, m.g, s)
  {
    hide Inv, Shrunk, Gone, Bare, Intact, FreedAll, Below, OwnedBy, Pages, PgRoundUp, FramesKept, Interval;
    ghost var m0, g0, n := m.mem, m.g, Pages(sz);
    PageSteps(0, sz, 0);
    PageSteps(sz, sz, 0);
    NoPages(0);
    OwnedInRange(m.mem, m.freelist, m.g, s, n);
    NoneShrunk(m.mem, m.freelist, m.g, s, true);
    if sz > 0 {
      m.Uvmunmap(root, 0, PgRoundUp(sz) / PGSIZE, true, s);
    }
    ghost var m2, g2 := m.mem, m.g;
    ShrunkLeaf(m0, g0, m2, g2, s, Interval(0, n), true);
    MakeBare(m2, m.freelist, g2, s);
    AllBelow(m2, g2.role, s, g2.spaces[s]);
    Detach(m2, m.freelist, g2, s);
    m.g := Detached(g2, s);
    FreeWalk(m, root, m2, g2.role, s, g2.spaces[s], 2, 0);
    FreedSpace(m0, g0, m2, g2, m.mem, m.g, s, Interval(0, n));
  }

  // ----- A process's address space -----

  const TRAMPOLINE := MAXVA - PGSIZE
  const TRAPFRAME := TRAMPOLINE - PGSIZE

  /** s is a new address space that owns nothing but tables, taken from free pages; nothing else happened. */
  ghost predicate Created(mem: seq<Page>, g: Ghosts, mem': seq<Page>, g': Ghosts, s: nat) {
    && s !in g.spaces && s in g'.spaces && OnlySpace(g.spaces, g'.spaces, s) && g'.spaces[s].user == map[]
    && |mem| == |g.role| == |mem'| == |g'.role|
    && forall p :: 0 <= p < |mem| ==>
         || (g.role[p] == Free && OwnedBy(g'.role[p], s) && !g'.role[p].User?)
         || (!OwnedBy(g.role[p], s) && g'.role[p] == g.role[p] && (g.role[p] != Free ==> mem'[p] == mem[p]))
  }

  /** Every page and every address space is as before; free pages may hold anything. */
  ghost predicate AllReturned(mem: seq<Page>, g: Ghosts, mem': seq<Page>, g': Ghosts) {
    && g' == g && |mem| == |g.role| == |mem'|
    && forall p :: 0 <= p < |mem| && g.role[p] != Free ==> mem'[p] == mem[p]
  }

  lemma CreatedGrew(m0: seq<Page>, g0: Ghosts, m1: seq<Page>, g1: Ghosts, m2: seq<Page>, g2: Ghosts, s: nat)
    requires Created(m0, g0, m1, g1, s) && Grew(m1, g1, m2, g2, s)
    ensures Created(m0, g0, m2, g2, s)
  {
  }

  lemma CreatedShrunk(m0: seq<Page>, g0: Ghosts, m1: seq<Page>, g1: Ghosts, m2: seq<Page>, g2: Ghosts, s: nat, dom: set<nat>)
    requires Created(m0, g0, m1, g1, s) && Shrunk(m1, g1, m2, g2, s, dom, false)
    ensures Created(m0, g0, m2, g2, s)
  {
  }

  /** A new address space that is freed again leaks nothing. */
  lemma CreatedGone(m0: seq<Page>, g0: Ghosts, m1: seq<Page>, g1: Ghosts, m2: seq<Page>, g2: Ghosts, s: nat)
    requires Created(m0, g0, m1, g1, s) && Gone(m1, g1, m2, g2, s)
    ensures AllReturned(m0, g0, m2, g2)
  {
    assert g2.spaces == g0.spaces;
    assert g2.role == g0.role;
  }

  lemma ShrunkGone(m0: seq<Page>, g0: Ghosts, m1: seq<Page>, g1: Ghosts, m2: seq<Page>, g2: Ghosts, s: nat, dom: set<nat>)
    requires Shrunk(m0, g0, m1, g1, s, dom, false) && Gone(m1, g1, m2, g2, s)
    ensures Gone(m0, g0, m2, g2, s)
  {
    assert g2.spaces == g0.spaces - {s};
  }

  lemma CreatedHas(m0: seq<Page>, g0: Ghosts, m1: seq<Page>, g1: Ghosts, s: nat)
    requires Created(m0, g0, m1, g1, s)
    ensures s in g1.spaces && g1.spaces[s].user == map[]
  {
  }

  lemma SpaceCreated(mem: seq<Page>, g: Ghosts, s: nat, p: nat)
    requires |g.role| == |mem| && p < |mem| && g.role[p] == Free && s !in g.spaces
    requires forall q :: 0 <= q < |g.role| ==> !OwnedBy(g.role[q], s)
    ensures Created(mem, g, mem[p := JUNKALLOC][p := ZEROPAGE], WithSpace(WithRole(g, p, Held), s, p), s)
  {
  }

  /** uvmcreate. */
  method Uvmcreate(m: Memory) returns (r: Option<nat>, ghost s: nat)
    requires m.Valid()
    modifies m
    ensures m.Valid()
    ensures r.None? ==> m.freelist == [] && m.mem == old(m.mem) && m.g == old(m.g)
    ensures r.Some? ==>
      && Created(old(m.mem), old(m.g), m.mem, m.g, s)
      && m.g.spaces[s] == Space(r.value, map[], map[], map[], map[])
  {
    hide Inv, Created;
    s := FreshName(m.mem, m.freelist, m.g);
    SameSize(m.mem, m.freelist, m.g);
    ghost var m0, g0 := m.mem, m.g;
    var page := m.Kalloc();
    if page.None? {
      return None, s;
    }
    var p := page.value;
    HeldWriteKeeps(m.mem, m.freelist, m.g, p, ZEROPAGE);
    m.mem := m.mem[p := ZEROPAGE];
    NewSpace(m.mem, m.freelist, m.g, s, p);
    m.g := WithSpace(m.g, s, p);
    SpaceCreated(m0, g0, s, p);
    r := Some(p);
  }

  /** The translations of a process without user memory. */
  ghost function ProcLeaves(trampoline: nat, trapframe: nat): map<nat, nat> {
    map[TRAMPOLINE / PGSIZE := Pte(trampoline, WithV(PTE_R + PTE_X)), TRAPFRAME / PGSIZE := Pte(trapframe, WithV(PTE_R + PTE_W))]
  }

  /** proc_pagetable: the two fixed pages are mapped, or every page is back where it was. */
  method ProcPagetable(m: Memory, trampoline: nat, trapframe: nat) returns (r: Option<nat>, ghost s: nat)
    requires m.Valid()
    modifies m
    ensures m.Valid()
    ensures r.None? ==> AllReturned(old(m.mem), old(m.g), m.mem, m.g)
    ensures r.Some? ==>
      && Created(old(m.mem), old(m.g), m.mem, m.g, s) && m.g.spaces[s].root == r.value
      && m.g.spaces[s].leaf == ProcLeaves(trampoline, trapframe)
    ensures r.Some? ==>
      var leaf := m.g.spaces[s].leaf;
      && leaf.Keys == {TRAMPOLINE / PGSIZE, TRAPFRAME / PGSIZE}
      && KernelEntry(leaf[TRAMPOLINE / PGSIZE], trampoline, false, true)
      && KernelEntry(leaf[TRAPFRAME / PGSIZE], trapframe, true, false)
  {
    hide Inv, Grew, Shrunk, Created, Gone, KernelEntry, AllCarry, TablesFor, FramesKept, WithV, Pte, Range, ProcLeaves, Interval;
    ProcRanges(trampoline, trapframe);
    ghost var m0, g0 := m.mem, m.g;
    SameSize(m0, m.freelist, g0);
    var pagetable;
    pagetable, s := Uvmcreate(m);
    if pagetable.None? {
      return None, s;
    }
    var root := pagetable.value;
    ghost var m1, g1 := m.mem, m.g;
    CreatedHas(m0, g0, m1, g1, s);
    var ok;
    ghost var done;
    ok, done := m.Mappages(root, TRAMPOLINE, 1, trampoline, PTE_R + PTE_X, s);
    ghost var m2, g2 := m.mem, m.g;
    CreatedGrew(m0, g0, m1, g1, m2, g2, s);
    GrewHas(m1, g1, m2, g2, s);
    if !ok {
      Uvmfree(m, root, 0, s);
      CreatedGone(m0, g0, m2, g2, m.mem, m.g, s);
      return None, s;
    }
    ok, done := m.Mappages(root, TRAPFRAME, 1, trapframe, PTE_R + PTE_W, s);
    ghost var m3, g3 := m.mem, m.g;
    CreatedGrew(m0, g0, m2, g2, m3, g3, s);
    GrewHas(m2, g2, m3, g3, s);
    if !ok {
      m.Uvmunmap(root, TRAMPOLINE, 1, false, s);
      ghost var m4, g4 := m.mem, m.g;
      CreatedShrunk(m0, g0, m3, g3, m4, g4, s, Interval(TRAMPOLINE / PGSIZE, 1));
      ShrunkLeaf(m3, g3, m4, g4, s, Interval(TRAMPOLINE / PGSIZE, 1), false);
      Uvmfree(m, root, 0, s);
      CreatedGone(m0, g0, m4, g4, m.mem, m.g, s);
      return None, s;
    }
    ProcEntries(trampoline, trapframe);
    r := Some(root);
  }

  lemma ProcRanges(trampoline: nat, trapframe: nat)
    ensures
      var a, b := Range(TRAMPOLINE / PGSIZE, 1, trampoline, WithV(PTE_R + PTE_X)), Range(TRAPFRAME / PGSIZE, 1, trapframe, WithV(PTE_R + PTE_W));
      && map[] + Range(TRAMPOLINE / PGSIZE, 0, trampoline, WithV(PTE_R + PTE_X)) == map[]
      && map[] + a + Range(TRAPFRAME / PGSIZE, 0, trapframe, WithV(PTE_R + PTE_W)) == map[] + a
      && map[] + a + b == ProcLeaves(trampoline, trapframe)
      && (map[] + a).Keys == Interval(TRAMPOLINE / PGSIZE, 1) == {TRAMPOLINE / PGSIZE}
  {
    hide WithV, Pte;
  }

  /** A readable page that the user cannot reach, writable or executable as given. */
  predicate KernelEntry(e: nat, page: nat, write: bool, exec: bool) {
    IsValid(e) && PageOf(e) == page && HasR(e) && !HasU(e) && (HasW(e) <==> write) && (HasX(e) <==> exec)
  }

  lemma ProcEntries(trampoline: nat, trapframe: nat)
    ensures
      var leaf := ProcLeaves(trampoline, trapframe);
      && leaf.Keys == {TRAMPOLINE / PGSIZE, TRAPFRAME / PGSIZE}
      && KernelEntry(leaf[TRAMPOLINE / PGSIZE], trampoline, false, true)
      && KernelEntry(leaf[TRAPFRAME / PGSIZE], trapframe, true, false)
  {
    EntryBits(trampoline, PTE_R + PTE_X);
    EntryBits(trapframe, PTE_R + PTE_W);
    CarriedBits(Pte(trampoline, WithV(PTE_R + PTE_X)), trampoline, PTE_R + PTE_X);
    CarriedBits(Pte(trapframe, WithV(PTE_R + PTE_W)), trapframe, PTE_R + PTE_W);
    hide Pte, WithV, PageOf;
  }

  /** proc_freepagetable: the process's pages and tables are freed; the trampoline and trapframe pages are not. */
  method ProcFreepagetable(m: Memory, root: nat, sz: nat, ghost s: nat)
    requires m.Valid() && s in m.g.spaces && m.g.spaces[s].root == root && sz <= TRAPFRAME
    requires forall v :: v in m.g.spaces[s].leaf ==>
               v == TRAMPOLINE / PGSIZE || v == TRAPFRAME / PGSIZE || (v < Pages(sz) && v in m.g.spaces[s].user)
    requires TRAMPOLINE / PGSIZE !in m.g.spaces[s].user && TRAPFRAME / PGSIZE !in m.g.spaces[s].user
    modifies m
    ensures m.Valid() && Gone(old(m.mem), old(m.g), m.mem, m.g, s)
  {
    hide Inv, Shrunk, Gone;
    ghost var m0, g0 := m.mem, m.g;
    ghost var d1, d2 := Interval(TRAMPOLINE / PGSIZE, 1), Interval(TRAPFRAME / PGSIZE, 1);
    m.Uvmunmap(root, TRAMPOLINE, 1, false, s);
    ghost var m1, g1 := m.mem, m.g;
    ShrunkKeeps(m0, g0, m1, g1, s, d1, false);
    OnlyLeaves(m0, g0, m1, g1, s, d1);
    m.Uvmunmap(root, TRAPFRAME, 1, false, s);
    ghost var m2, g2 := m.mem, m.g;
    ShrunkKeeps(m1, g1, m2, g2, s, d2, false);
    OnlyLeaves(m1, g1, m2, g2, s, d2);
    Uvmfree(m, root, sz, s);
    ShrunkGone(m1, g1, m2, g2, m.mem, m.g, s, d2);
    ShrunkGone(m0, g0, m1, g1, m.mem, m.g, s, d1);
  }

  lemma OnlyLeaves(mem: seq<Page>, g: Ghosts, mem': seq<Page>, g': Ghosts, s: nat, dom: set<nat>)
    requires Shrunk(mem, g, mem', g', s, dom, false)
    ensures s in g'.spaces && g'.spaces[s].user == g.spaces[s].user && g'.spaces[s].leaf == g.spaces[s].leaf - dom
  {
  }

  /** vmfault: a missing page below the process size gets a fresh zeroed page, whose number is returned. */
  method Vmfault(m: Memory, root: nat, va: nat, sz: nat, ghost s: nat) returns (r: Option<nat>)
    requires m.Valid() && s in m.g.spaces && m.g.spaces[s].root == root && sz <= MAXVA
    modifies m
    ensures m.Valid() && s in m.g.spaces
    ensures r.Some? ==>
      && va < sz && va / PGSIZE !in old(m.g.spaces[s].leaf)
      && GrewBy(old(m.mem), old(m.g), m.mem, m.g, s, map[va / PGSIZE := Fresh(WithV(PTE_W + PTE_U + PTE_R), ZEROPAGE)])
      && va / PGSIZE in m.g.spaces[s].user && m.g.spaces[s].user[va / PGSIZE] == r.value
    ensures r.None? ==> Grew(old(m.mem), old(m.g), m.mem, m.g, s) && m.g.spaces[s].leaf == old(m.g.spaces[s].leaf)
    ensures r.Some? ==>
      && va / PGSIZE in m.g.spaces[s].leaf
      && var e := m.g.spaces[s].leaf[va / PGSIZE]; IsValid(e) && PageOf(e) == r.value && HasR(e) && HasW(e) && HasU(e) && !HasX(e)
    ensures TablesFor(old(m.g.spaces[s]), m.g.spaces[s], va / PGSIZE, va / PGSIZE)
    ensures r.None? ==> va >= sz || va / PGSIZE in old(m.g.spaces[s].leaf) || |m.freelist| <= 1
    ensures va >= sz || va / PGSIZE in old(m.g.spaces[s].leaf) ==>
      r.None? && m.mem == old(m.mem) && m.freelist == old(m.freelist) && m.g == old(m.g)
  {
    hide Inv, Grew, GrewBy;
    SameSize(m.mem, m.freelist, m.g);
    GrewRefl(m.mem, m.g, s);
    if va >= sz {
      return None;
    }
    var va0 := va / PGSIZE * PGSIZE;
    assert va0 / PGSIZE == va / PGSIZE;
    LeafHasTable(m.mem, m.freelist, m.g, s, va / PGSIZE);
    var slot := m.Walk(root, va0, false, s);
    if slot.Some? {
      LeafEntry(m.mem, m.freelist, m.g, s, va / PGSIZE);
      if IsValid(m.mem[slot.value.table][slot.value.index]) {
        return None;
      }
    }
    var ok, p := AddPage(m, root, va0, PTE_W + PTE_U + PTE_R, ZEROPAGE, s);
    if ok {
      CarriedBits(m.g.spaces[s].leaf[va / PGSIZE], p, PTE_W + PTE_U + PTE_R);
    }
    r := if ok then Some(p) else None;
  }
}
