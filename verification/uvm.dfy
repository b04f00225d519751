/** Growing, shrinking, copying and freeing user address spaces (kernel/vm.c). */
module UserVm {
  import opened PageTable
  import opened Vm

  function PgRoundUp(sz: nat): (r: nat)
    ensures r % PGSIZE == 0 && sz <= r < sz + PGSIZE
  {
    (sz + PGSIZE - 1) / PGSIZE * PGSIZE
  }

  /** Pages needed for sz bytes. */
  function Pages(sz: nat): nat {
    (sz + PGSIZE - 1) / PGSIZE
  }

  // ----- Effects -----

  /** A free page became a table of s or a user page of s in `dom`; no other role changed. */
  ghost predicate RolesGrewBy(role: seq<Role>, role': seq<Role>, s: nat, dom: set<nat>) {
    && |role'| == |role|
    && forall p :: 0 <= p < |role| ==>
         role'[p] == role[p]
         || (role[p] == Free && OwnedBy(role'[p], s) && (role'[p].Mid? || role'[p].Low? || (role'[p].User? && role'[p].v in dom)))
  }

  /** What a fresh page is mapped with and what it holds. */
  datatype Fresh = Fresh(flags: nat, data: Page)

  /** Address space s got a page of its own for every virtual page in `news`, mapped and filled as it says;
      every other translation and every other page is as before. */
  ghost predicate GrewBy(mem: seq<Page>, g: Ghosts, mem': seq<Page>, g': Ghosts, s: nat, news: map<nat, Fresh>) {
    && s in g.spaces && s in g'.spaces && OnlySpace(g.spaces, g'.spaces, s)
    && SpaceGrewBy(g.spaces[s], g'.spaces[s], news.Keys)
    && (forall v :: v in news ==> FreshPage(mem', g.role, g'.spaces[s], v, news[v]))
    && RolesGrewBy(g.role, g'.role, s, news.Keys)
    && ContentsKept(mem, g.role, mem', s)
  }

  ghost predicate SpaceGrewBy(sp: Space, sp': Space, dom: set<nat>) {
    && sp'.root == sp.root
    && Extends(sp.mid, sp'.mid) && Extends(sp.low, sp'.low) && Extends(sp.leaf, sp'.leaf) && Extends(sp.user, sp'.user)
    && sp'.leaf.Keys == sp.leaf.Keys + dom && sp'.user.Keys == sp.user.Keys + dom
    && sp.leaf.Keys !! dom && sp.user.Keys !! dom
  }

  /** Virtual page v is mapped, with these flags, to a page of its own that was free before and holds the data. */
  ghost predicate FreshPage(mem': seq<Page>, role: seq<Role>, sp': Space, v: nat, f: Fresh) {
    && v in sp'.leaf && v in sp'.user
    && sp'.user[v] < |mem'| && sp'.user[v] < |role| && role[sp'.user[v]] == Free
    && sp'.leaf[v] == Pte(sp'.user[v], f.flags)
    && mem'[sp'.user[v]] == f.data
  }

  lemma GrewByNothing(mem: seq<Page>, g: Ghosts, s: nat)
    requires |g.role| == |mem| && s in g.spaces
    ensures GrewBy(mem, g, mem, g, s, map[])
  {
  }

  lemma GrewByMore(m0: seq<Page>, g0: Ghosts, m1: seq<Page>, g1: Ghosts, m2: seq<Page>, g2: Ghosts, s: nat,
                   f1: map<nat, Fresh>, f2: map<nat, Fresh>)
    requires GrewBy(m0, g0, m1, g1, s, f1) && GrewBy(m1, g1, m2, g2, s, f2)
    requires forall v :: v in f1 ==> g1.spaces[s].user[v] < |g1.role| && g1.role[g1.spaces[s].user[v]] == User(s, v)
    ensures GrewBy(m0, g0, m2, g2, s, f1 + f2)
  {
    hide SpaceGrewBy, FreshPage, RolesGrewBy, ContentsKept, OwnedBy;
    SpaceGrewMore(g0.spaces[s], g1.spaces[s], g2.spaces[s], f1.Keys, f2.Keys);
    assert (f1 + f2).Keys == f1.Keys + f2.Keys;
    RolesGrewMore(g0.role, g1.role, g2.role, s, f1.Keys, f2.Keys);
    ContentsKeptMore(m0, g0.role, m1, g1.role, m2, s, f1.Keys);
    forall v | v in f1 + f2
      ensures FreshPage(m2, g0.role, g2.spaces[s], v, (f1 + f2)[v])
    {
      FreshMore(m0, g0, m1, g1, m2, g2, s, f1, f2, v);
    }
  }

  lemma RolesGrewMore(r0: seq<Role>, r1: seq<Role>, r2: seq<Role>, s: nat, d1: set<nat>, d2: set<nat>)
    requires RolesGrewBy(r0, r1, s, d1) && RolesGrewBy(r1, r2, s, d2)
    ensures RolesGrewBy(r0, r2, s, d1 + d2)
  {
  }

  lemma ContentsKeptMore(m0: seq<Page>, r0: seq<Role>, m1: seq<Page>, r1: seq<Role>, m2: seq<Page>, s: nat, d: set<nat>)
    requires ContentsKept(m0, r0, m1, s) && ContentsKept(m1, r1, m2, s) && RolesGrewBy(r0, r1, s, d)
    ensures ContentsKept(m0, r0, m2, s)
  {
  }

  lemma SpaceGrewMore(sp0: Space, sp1: Space, sp2: Space, d1: set<nat>, d2: set<nat>)
    requires SpaceGrewBy(sp0, sp1, d1) && SpaceGrewBy(sp1, sp2, d2)
    ensures SpaceGrewBy(sp0, sp2, d1 + d2)
  {
  }

  lemma FreshMore(m0: seq<Page>, g0: Ghosts, m1: seq<Page>, g1: Ghosts, m2: seq<Page>, g2: Ghosts, s: nat,
                  f1: map<nat, Fresh>, f2: map<nat, Fresh>, v: nat)
    requires GrewBy(m0, g0, m1, g1, s, f1) && GrewBy(m1, g1, m2, g2, s, f2) && v in f1 + f2
    requires v in f1 ==> g1.spaces[s].user[v] < |g1.role| && g1.role[g1.spaces[s].user[v]] == User(s, v)
    ensures FreshPage(m2, g0.role, g2.spaces[s], v, (f1 + f2)[v])
  {
    if v in f2 {
      assert FreshPage(m2, g1.role, g2.spaces[s], v, f2[v]);
    } else {
      assert FreshPage(m1, g0.role, g1.spaces[s], v, f1[v]);
    }
  }

  // ----- One page -----

  /** The loop body shared by uvmalloc and uvmcopy: allocate a page, fill it, map it at va; if the mapping
      fails the page is freed again. */
  method AddPage(m: Memory, root: nat, va: nat, perm: nat, data: Page, ghost s: nat) returns (ok: bool, p: nat)
    requires m.Valid() && s in m.g.spaces && m.g.spaces[s].root == root
    requires va % PGSIZE == 0 && va < MAXVA && perm < 1024 && |data| == ENTRIES
    requires va / PGSIZE !in m.g.spaces[s].leaf
    modifies m
    ensures m.Valid() && s in m.g.spaces
    ensures ok ==> GrewBy(old(m.mem), old(m.g), m.mem, m.g, s, map[va / PGSIZE := Fresh(WithV(perm), data)])
    ensures ok ==> va / PGSIZE in m.g.spaces[s].user && m.g.spaces[s].user[va / PGSIZE] == p
    ensures !ok ==> Grew(old(m.mem), old(m.g), m.mem, m.g, s) && m.g.spaces[s].leaf == old(m.g.spaces[s].leaf)
    ensures !ok ==> |m.freelist| <= 1
    ensures ok ==> va / PGSIZE in m.g.spaces[s].leaf && Carries(m.g.spaces[s].leaf[va / PGSIZE], p, perm)
    ensures TablesFor(old(m.g.spaces[s]), m.g.spaces[s], va / PGSIZE, va / PGSIZE)
  {
    hide Inv, Grew, GrewBy, Carries;
    ghost var v := va / PGSIZE;
    ghost var m0, g0 := m.mem, m.g;
    SameSize(m.mem, m.freelist, m.g);
    GrewRefl(m.mem, m.g, s);
    UserIsLeaf(m.mem, m.freelist, m.g, s);
    var page := m.Kalloc();
    if page.None? {
      return false, 0;
    }
    p := page.value;
    HeldWriteKeeps(m.mem, m.freelist, m.g, p, data);
    m.mem := m.mem[p := data];
    ghost var m1, g1 := m.mem, m.g;
    ghost var done;
    ok, done := m.Mappages(root, va, 1, p, perm, s);
    HeldPageKept(m1, g1, m.mem, m.g, s, p);
    GrewHas(m1, g1, m.mem, m.g, s);
    if ok {
      assert m.g.spaces[s].leaf == g0.spaces[s].leaf[v := Pte(p, WithV(perm))];
      Adopt(m.mem, m.freelist, m.g, s, v, p);
      FreshlyMapped(m0, g0, m1, g1, m.mem, m.g, s, v, p, WithV(perm), data);
      m.g := Adopted(m.g, s, v, p);
    } else {
      assert m.g.spaces[s].leaf == g0.spaces[s].leaf;
      ghost var m2, g2 := m.mem, m.g;
      m.Kfree(p);
      GaveBack(m0, g0, m1, g1, m2, g2, s, p);
      GrewHas(m0, g0, m.mem, m.g, s);
    }
  }

  lemma HeldPageKept(mem: seq<Page>, g: Ghosts, mem': seq<Page>, g': Ghosts, s: nat, p: nat)
    requires Grew(mem, g, mem', g', s) && p < |g.role| && g.role[p] == Held
    ensures |mem'| == |mem| == |g'.role| == |g.role| && g'.role[p] == Held && mem'[p] == mem[p]
    ensures s in g'.spaces && s in g.spaces && g'.spaces[s].user == g.spaces[s].user
  {
  }

  lemma FreshlyMapped(m0: seq<Page>, g0: Ghosts, m1: seq<Page>, g1: Ghosts, m2: seq<Page>, g2: Ghosts, s: nat, v: nat, p: nat,
                      flags: nat, data: Page)
    requires |g0.role| == |m0| && p < |m0| && g0.role[p] == Free && s in g0.spaces
    requires g1 == WithRole(g0, p, Held) && m1 == m0[p := JUNKALLOC][p := data]
    requires Grew(m1, g1, m2, g2, s) && flags < 1024
    requires g2.spaces[s].leaf == g0.spaces[s].leaf[v := Pte(p, flags)] && v !in g0.spaces[s].leaf && v !in g0.spaces[s].user
    ensures p < |g2.role| && GrewBy(m0, g0, m2, Adopted(g2, s, v, p), s, map[v := Fresh(flags, data)])
  {
    hide RolesGrewBy, RolesGrew, ContentsKept, SpaceGrewBy;
    FreshRoles(m0, g0.role, m1, m2, g2.role, s, v, p);
    var g3 := Adopted(g2, s, v, p);
    FreshSpace(g0.spaces[s], g2.spaces[s], s, v, p, flags);
    assert map[v := Fresh(flags, data)].Keys == {v};
  }

  lemma FreshSpace(sp0: Space, sp2: Space, s: nat, v: nat, p: nat, flags: nat)
    requires sp2 == sp0.(mid := sp2.mid, low := sp2.low, leaf := sp0.leaf[v := Pte(p, flags)])
    requires Extends(sp0.mid, sp2.mid) && Extends(sp0.low, sp2.low) && v !in sp0.leaf && v !in sp0.user
    ensures SpaceGrewBy(sp0, sp2.(user := sp2.user[v := p]), {v})
  {
  }

  lemma FreshRoles(m0: seq<Page>, r0: seq<Role>, m1: seq<Page>, m2: seq<Page>, r2: seq<Role>, s: nat, v: nat, p: nat)
    requires |r0| == |m0| == |m1| && p < |m0| && r0[p] == Free && m1 == m0[p := m1[p]]
    requires RolesGrew(r0[p := Held], r2, s) && ContentsKept(m1, r0[p := Held], m2, s)
    ensures p < |r2| == |m2| && m2[p] == m1[p]
    ensures RolesGrewBy(r0, r2[p := User(s, v)], s, {v}) && ContentsKept(m0, r0, m2, s)
  {
  }

  lemma GaveBack(m0: seq<Page>, g0: Ghosts, m1: seq<Page>, g1: Ghosts, m2: seq<Page>, g2: Ghosts, s: nat, p: nat)
    requires |g0.role| == |m0| && p < |m0| && g0.role[p] == Free && s in g0.spaces
    requires |m1| == |m0| && g1 == WithRole(g0, p, Held) && forall q :: 0 <= q < |m0| && q != p ==> m1[q] == m0[q]
    requires Grew(m1, g1, m2, g2, s)
    ensures p < |g2.role| == |m2| && Grew(m0, g0, m2[p := JUNKFREE], WithRole(g2, p, Free), s)
  {
  }

  // ----- Whole ranges -----

  lemma UserRoles(mem: seq<Page>, freelist: seq<nat>, g: Ghosts, s: nat)
    requires Inv(mem, freelist, g) && s in g.spaces
    ensures |g.role| == |mem|
    ensures forall v :: v in g.spaces[s].user ==> g.spaces[s].user[v] < |g.role| && g.role[g.spaces[s].user[v]] == User(s, v)
  {
    TablePages(mem, freelist, g, s);
  }

  /** uvmdealloc: exactly the pages between the two sizes go. */
  method Uvmdealloc(m: Memory, root: nat, oldsz: nat, newsz: nat, ghost s: nat) returns (r: nat)
    requires m.Valid() && s in m.g.spaces && m.g.spaces[s].root == root && oldsz <= MAXVA
    requires forall v :: Pages(newsz) <= v < Pages(oldsz) && v in m.g.spaces[s].leaf ==> v in m.g.spaces[s].user
    modifies m
    ensures m.Valid()
    ensures r == if newsz >= oldsz then oldsz else newsz
    ensures newsz >= oldsz ==> Unchanged(old(m.mem), old(m.freelist), old(m.g), m.mem, m.freelist, m.g)
    ensures newsz < oldsz ==>
      Shrunk(old(m.mem), old(m.g), m.mem, m.g, s, Interval(Pages(newsz), Pages(oldsz) - Pages(newsz)), true)
    ensures s in m.g.spaces && FramesKept(old(m.freelist), old(m.g.spaces[s].leaf), m.freelist, m.g.spaces[s].leaf, true)
    ensures m.g.spaces[s].mid == old(m.g.spaces[s].mid) && m.g.spaces[s].low == old(m.g.spaces[s].low)
  {
    hide Inv, Shrunk, FramesKept, Interval, Pages, PgRoundUp;
    SameFrames(m.freelist, m.g.spaces[s].leaf, true);
    if newsz >= oldsz {
      return oldsz;
    }
    NoneShrunk(m.mem, m.freelist, m.g, s, true);
    PageSteps(newsz, oldsz, 0);
    PageSteps(oldsz, oldsz, 0);
    NoPages(Pages(newsz));
    if PgRoundUp(newsz) < PgRoundUp(oldsz) {
      var npages := (PgRoundUp(oldsz) - PgRoundUp(newsz)) / PGSIZE;
      m.Uvmunmap(root, PgRoundUp(newsz), npages, true, s);
      TablesStay(old(m.mem), old(m.g), m.mem, m.g, s, Interval(PgRoundUp(newsz) / PGSIZE, npages), true);
    }
    return newsz;
  }

  /** Facts about a grown range that the rollback needs. */
  lemma GrownRange(m0: seq<Page>, g0: Ghosts, m1: seq<Page>, g1: Ghosts, s: nat, news: map<nat, Fresh>)
    requires GrewBy(m0, g0, m1, g1, s, news)
    ensures s in g0.spaces && s in g1.spaces && g1.spaces[s].root == g0.spaces[s].root
    ensures g1.spaces[s].leaf.Keys == g0.spaces[s].leaf.Keys + news.Keys
    ensures g1.spaces[s].user.Keys == g0.spaces[s].user.Keys + news.Keys
  {
  }

  /** The failure path of uvmalloc and uvmcopy: a partly grown range, one failed attempt, and the rollback
      restore every translation; only table pages remain. */
  lemma Restored(m0: seq<Page>, g0: Ghosts, m1: seq<Page>, g1: Ghosts, m2: seq<Page>, g2: Ghosts, m3: seq<Page>, g3: Ghosts,
                 s: nat, done: map<nat, Fresh>, dom: set<nat>)
    requires GrewBy(m0, g0, m1, g1, s, done)
    requires Grew(m1, g1, m2, g2, s) && g2.spaces[s].leaf == g1.spaces[s].leaf
    requires Shrunk(m2, g2, m3, g3, s, dom, true)
    requires done.Keys <= dom && Unowned(g0, s, dom)
    ensures Grew(m0, g0, m3, g3, s)
    ensures g3.spaces[s].leaf == g0.spaces[s].leaf && g3.spaces[s].user == g0.spaces[s].user
  {
    RestoredPages(m0, g0, m1, g1, m2, g2, m3, g3, s, done, dom);
    hide RolesGrewBy, RolesGrew, ContentsKept;
    var sp0, sp1, sp3 := g0.spaces[s], g1.spaces[s], g3.spaces[s];
    assert sp3.leaf == sp1.leaf - dom == sp0.leaf;
    assert sp3.user == sp1.user - dom == sp0.user;
  }

  lemma RestoredPages(m0: seq<Page>, g0: Ghosts, m1: seq<Page>, g1: Ghosts, m2: seq<Page>, g2: Ghosts, m3: seq<Page>, g3: Ghosts,
                      s: nat, done: map<nat, Fresh>, dom: set<nat>)
    requires GrewBy(m0, g0, m1, g1, s, done) && Grew(m1, g1, m2, g2, s) && Shrunk(m2, g2, m3, g3, s, dom, true)
    requires done.Keys <= dom && Unowned(g0, s, dom)
    ensures RolesGrew(g0.role, g3.role, s) && ContentsKept(m0, g0.role, m3, s)
  {
    hide OnlySpace, SpaceGrewBy, FreshPage, Extends;
  }

  /** No virtual page in `dom` is mapped or owned in address space s. */
  ghost predicate Unowned(g: Ghosts, s: nat, dom: set<nat>) {
    && s in g.spaces && g.spaces[s].leaf.Keys !! dom && g.spaces[s].user.Keys !! dom
    && forall p :: 0 <= p < |g.role| ==> !Hit(g.role[p], s, dom)
  }

  lemma NoHit(mem: seq<Page>, freelist: seq<nat>, g: Ghosts, s: nat, dom: set<nat>)
    requires Inv(mem, freelist, g) && s in g.spaces && g.spaces[s].leaf.Keys !! dom
    ensures Unowned(g, s, dom)
  {
    UserIsLeaf(mem, freelist, g, s);
    hide SpaceOk, FreeOk;
    forall p | 0 <= p < |g.role|
      ensures !Hit(g.role[p], s, dom)
    {
      assert RoleOk(g, p);
    }
  }

  lemma UnownedPart(g: Ghosts, s: nat, dom: set<nat>, part: set<nat>)
    requires Unowned(g, s, dom) && part <= dom
    ensures Unowned(g, s, part)
  {
  }

  function UserFlags(xperm: nat): nat {
    WithV(PTE_R + PTE_U + xperm)
  }

  /** The same fresh page for n virtual pages from v on. */
  ghost function Alike(v: nat, n: nat, f: Fresh): (m: map<nat, Fresh>)
    ensures m.Keys == Interval(v, n)
    ensures forall u :: u in m ==> m[u] == f
  {
    if n == 0 then map[] else Alike(v, n - 1, f)[v + n - 1 := f]
  }

  lemma AlikeMore(v: nat, n: nat, f: Fresh)
    ensures Alike(v, 0, f) == map[]
    ensures Alike(v, n, f) + map[v + n := f] == Alike(v, n + 1, f)
  {
  }

  ghost predicate Unchanged(a: seq<Page>, f: seq<nat>, g: Ghosts, a': seq<Page>, f': seq<nat>, g': Ghosts) {
    a' == a && f' == f && g' == g
  }

  /** uvmalloc: fresh zeroed pages for the whole range, or every translation as before. */
  method Uvmalloc(m: Memory, root: nat, oldsz: nat, newsz: nat, xperm: nat, ghost s: nat) returns (r: nat, ghost ok: bool)
    requires m.Valid() && s in m.g.spaces && m.g.spaces[s].root == root && newsz <= MAXVA
    requires xperm in {0, PTE_W, PTE_X, PTE_W + PTE_X}
    requires forall v :: Pages(oldsz) <= v < Pages(newsz) ==> v !in m.g.spaces[s].leaf
    modifies m
    ensures m.Valid()
    ensures r == if newsz < oldsz then oldsz else if ok then newsz else 0
    ensures newsz < oldsz ==> Unchanged(old(m.mem), old(m.freelist), old(m.g), m.mem, m.freelist, m.g)
    ensures newsz >= oldsz && ok ==>
      GrewBy(old(m.mem), old(m.g), m.mem, m.g, s,
             Alike(Pages(oldsz), Pages(newsz) - Pages(oldsz), Fresh(UserFlags(xperm), ZEROPAGE)))
    ensures newsz > oldsz ==> s in m.g.spaces && TablesFor(old(m.g.spaces[s]), m.g.spaces[s], Pages(oldsz), Pages(newsz) - 1)
    ensures newsz >= oldsz && ok ==>
      s in m.g.spaces && AllPermit(m.g.spaces[s].leaf, Pages(oldsz), Pages(newsz), xperm)
    ensures newsz >= oldsz && !ok ==>
      && Grew(old(m.mem), old(m.g), m.mem, m.g, s)
      && m.g.spaces[s].leaf == old(m.g.spaces[s].leaf) && m.g.spaces[s].user == old(m.g.spaces[s].user)
      && |m.freelist| <= Pages(newsz) - Pages(oldsz)
  {
    hide Inv, Grew, GrewBy, Shrunk, Pages, PgRoundUp, Unowned, Alike, Interval, OwnedBy, AllPermit, Carries, TablesFor;
    ok := true;
    if newsz < oldsz {
      return oldsz, true;
    }
    ghost var m0, g0, lo, f := m.mem, m.g, Pages(oldsz), Fresh(UserFlags(xperm), ZEROPAGE);
    ghost var last := if Pages(newsz) == 0 then 0 else Pages(newsz) - 1;
    SameSize(m.mem, m.freelist, m.g);
    GrewByNothing(m.mem, m.g, s);
    NoTables(m.g.spaces[s], lo, last);
    AlikeMore(lo, 0, f);
    PageSteps(oldsz, newsz, 0);
    NoHit(m.mem, m.freelist, m.g, s, Interval(lo, Pages(newsz) - lo));
    var start := PgRoundUp(oldsz);
    var a := start;
    ghost var k := 0;
    while a < newsz
      invariant a == start + k * PGSIZE && k <= Pages(newsz) - lo
      invariant m.Valid() && GrewBy(m0, g0, m.mem, m.g, s, Alike(lo, k, f))
      invariant s in m.g.spaces && TablesFor(g0.spaces[s], m.g.spaces[s], lo, last)
      decreases newsz + PGSIZE - a
    {
      ghost var sp := m.g.spaces[s];
      PageSteps(oldsz, newsz, k);
      var added := GrowPage(m, root, oldsz, a, xperm, k, s, m0, g0, Pages(newsz));
      TablesIn(g0.spaces[s], sp, m.g.spaces[s], lo, last, lo + k);
      if !added {
        return 0, false;
      }
      a := a + PGSIZE;
      k := k + 1;
      PageSteps(oldsz, newsz, k);
    }
    PageSteps(oldsz, newsz, k);
    NewPermits(m0, g0, m.mem, m.g, s, lo, k, xperm);
    r := newsz;
  }

  /** The body of uvmalloc's loop, with its error exit. */
  method GrowPage(m: Memory, root: nat, oldsz: nat, a: nat, xperm: nat, ghost k: nat, ghost s: nat,
                  ghost m0: seq<Page>, ghost g0: Ghosts, ghost n: nat) returns (ok: bool)
    requires m.Valid() && s in g0.spaces && g0.spaces[s].root == root && xperm in {0, PTE_W, PTE_X, PTE_W + PTE_X}
    requires a == PgRoundUp(oldsz) + k * PGSIZE && a < MAXVA && oldsz <= a && Pages(oldsz) + k < n
    requires GrewBy(m0, g0, m.mem, m.g, s, Alike(Pages(oldsz), k, Fresh(UserFlags(xperm), ZEROPAGE)))
    requires Unowned(g0, s, Interval(Pages(oldsz), n - Pages(oldsz)))
    modifies m
    ensures m.Valid() && s in old(m.g.spaces) && s in m.g.spaces
    ensures ok ==> GrewBy(m0, g0, m.mem, m.g, s, Alike(Pages(oldsz), k + 1, Fresh(UserFlags(xperm), ZEROPAGE)))
    ensures !ok ==> Grew(m0, g0, m.mem, m.g, s) && |m.freelist| <= n - Pages(oldsz)
    ensures !ok ==> m.g.spaces[s].leaf == g0.spaces[s].leaf && m.g.spaces[s].user == g0.spaces[s].user
    ensures TablesFor(old(m.g.spaces[s]), m.g.spaces[s], Pages(oldsz) + k, Pages(oldsz) + k)
  {
    hide Inv, Grew, GrewBy, Shrunk, Pages, PgRoundUp, Unowned, Alike, Interval, OwnedBy, Carries, TablesFor;
    ghost var m1, g1, lo, f := m.mem, m.g, Pages(oldsz), Fresh(UserFlags(xperm), ZEROPAGE);
    GrownRange(m0, g0, m.mem, m.g, s, Alike(lo, k, f));
    AlikeMore(lo, k, f);
    UserRoles(m.mem, m.freelist, m.g, s);
    PageSteps(oldsz, a, k);
    InRange(lo, n - lo, lo + k);
    UnownedFacts(g0, s, Interval(lo, n - lo), lo + k);
    var page;
    ok, page := AddPage(m, root, a, PTE_R + PTE_U + xperm, ZEROPAGE, s);
    if ok {
      GrewByMore(m0, g0, m1, g1, m.mem, m.g, s, Alike(lo, k, f), map[lo + k := f]);
    } else {
      ghost var sp := m.g.spaces[s];
      UnownedPart(g0, s, Interval(lo, n - lo), Interval(lo, k));
      Rollback(m, root, oldsz, a, k, s, m0, g0, m1, g1, Alike(lo, k, f));
      SameTables(g1.spaces[s], sp, m.g.spaces[s], lo + k, lo + k);
    }
  }

  lemma InRange(lo: nat, n: nat, v: nat)
    requires lo <= v < lo + n
    ensures v in Interval(lo, n) && v !in Interval(lo, v - lo) && Interval(lo, v - lo) <= Interval(lo, n)
  {
  }

  lemma SameTables(a: Space, b: Space, c: Space, first: nat, last: nat)
    requires TablesFor(a, b, first, last) && c.mid == b.mid && c.low == b.low
    ensures TablesFor(a, c, first, last)
  {
  }

  /** The new pages can be read by the user, and written or executed exactly if that was asked for. */
  ghost predicate AllPermit(leaf: map<nat, nat>, lo: nat, hi: nat, xperm: nat) {
    forall v :: lo <= v < hi ==> v in leaf && Permits(leaf[v], xperm)
  }

  predicate Permits(e: nat, xperm: nat) {
    IsValid(e) && HasR(e) && HasU(e) && (HasW(e) <==> HasW(xperm)) && (HasX(e) <==> HasX(xperm))
  }

  lemma NewPermits(m0: seq<Page>, g0: Ghosts, m1: seq<Page>, g1: Ghosts, s: nat, lo: nat, n: nat, xperm: nat)
    requires xperm in {0, PTE_W, PTE_X, PTE_W + PTE_X}
    requires GrewBy(m0, g0, m1, g1, s, Alike(lo, n, Fresh(UserFlags(xperm), ZEROPAGE)))
    ensures s in g1.spaces && AllPermit(g1.spaces[s].leaf, lo, lo + n, xperm)
  {
    hide SpaceGrewBy, RolesGrewBy, ContentsKept, OnlySpace, Pte, HasR, HasW, HasX, HasU, IsValid, Carries;
    var news := Alike(lo, n, Fresh(UserFlags(xperm), ZEROPAGE));
    forall v | lo <= v < lo + n
      ensures v in g1.spaces[s].leaf && Permits(g1.spaces[s].leaf[v], xperm)
    {
      assert FreshPage(m1, g0.role, g1.spaces[s], v, news[v]);
      var p := g1.spaces[s].user[v];
      EntryBits(p, PTE_R + PTE_U + xperm);
      CarriedBits(Pte(p, UserFlags(xperm)), p, PTE_R + PTE_U + xperm);
      UserBits(xperm);
    }
  }

  lemma UserBits(xperm: nat)
    requires xperm in {0, PTE_W, PTE_X, PTE_W + PTE_X}
    ensures
      var perm := PTE_R + PTE_U + xperm;
      && perm < 1024 && HasR(perm) && HasU(perm) && (HasW(perm) <==> HasW(xperm)) && (HasX(perm) <==> HasX(xperm))
  {
  }

  /** Stepping by pages from the rounded-up old size reaches every page up to the new size. */
  lemma PageSteps(oldsz: nat, newsz: nat, k: nat)
    requires oldsz <= newsz <= MAXVA
    ensures PgRoundUp(oldsz) == Pages(oldsz) * PGSIZE && Pages(oldsz) <= Pages(newsz)
    ensures (PgRoundUp(oldsz) + k * PGSIZE) % PGSIZE == 0
    ensures (PgRoundUp(oldsz) + k * PGSIZE) / PGSIZE == Pages(oldsz) + k
    ensures Pages(PgRoundUp(oldsz)) == Pages(oldsz)
    ensures Pages(PgRoundUp(oldsz) + k * PGSIZE) == Pages(oldsz) + k
    ensures PgRoundUp(oldsz) + k * PGSIZE < newsz <==> Pages(oldsz) + k < Pages(newsz)
    ensures PgRoundUp(oldsz) + k * PGSIZE < newsz ==> PgRoundUp(oldsz) + k * PGSIZE < MAXVA
  {
  }

  /** The error exit of uvmalloc after k pages. */
  method Rollback(m: Memory, root: nat, oldsz: nat, a: nat, ghost k: nat, ghost s: nat,
                  ghost m0: seq<Page>, ghost g0: Ghosts, ghost m1: seq<Page>, ghost g1: Ghosts, ghost done: map<nat, Fresh>)
    requires m.Valid() && s in g0.spaces && s in g1.spaces && s in m.g.spaces && g0.spaces[s].root == root
    requires a == PgRoundUp(oldsz) + k * PGSIZE && a <= MAXVA && oldsz <= a
    requires GrewBy(m0, g0, m1, g1, s, done) && done.Keys == Interval(Pages(oldsz), k)
    requires Grew(m1, g1, m.mem, m.g, s) && m.g.spaces[s].leaf == g1.spaces[s].leaf
    requires Unowned(g0, s, done.Keys)
    modifies m
    ensures m.Valid() && Grew(m0, g0, m.mem, m.g, s) && s in m.g.spaces
    ensures m.g.spaces[s].leaf == g0.spaces[s].leaf && m.g.spaces[s].user == g0.spaces[s].user
    ensures |m.freelist| == old(|m.freelist|) + k
    ensures m.g.spaces[s].mid == old(m.g.spaces[s].mid) && m.g.spaces[s].low == old(m.g.spaces[s].low)
  {
    hide Inv, Grew, GrewBy, Shrunk, Pages, PgRoundUp, FramesKept;
    ghost var m2, g2 := m.mem, m.g;
    GrewHas(m1, g1, m2, g2, s);
    GrownRange(m0, g0, m1, g1, s, done);
    PageSteps(oldsz, a, k);
    NoneShrunk(m.mem, m.freelist, m.g, s, true);
    var _ := Uvmdealloc(m, root, a, PgRoundUp(oldsz), s);
    Restored(m0, g0, m1, g1, m2, g2, m.mem, m.g, s, done, done.Keys);
    GrewHas(m0, g0, m.mem, m.g, s);
    GivenBack(m0, g0, m1, g1, s, done, old(m.freelist), m.freelist);
    IntervalSize(Pages(oldsz), k);
  }

  /** Unmapping again the pages of `news` frees exactly that many. */
  lemma GivenBack(m0: seq<Page>, g0: Ghosts, m1: seq<Page>, g1: Ghosts, s: nat, news: map<nat, Fresh>, f: seq<nat>, f': seq<nat>)
    requires GrewBy(m0, g0, m1, g1, s, news)
    requires FramesKept(f, g1.spaces[s].leaf, f', g0.spaces[s].leaf, true)
    ensures |f'| == |f| + |news.Keys|
  {
    hide Extends, RolesGrewBy, ContentsKept, FreshPage, OnlySpace;
    var a, b := g0.spaces[s].leaf, g1.spaces[s].leaf;
    assert |a| == |a.Keys| && |b| == |b.Keys|;
    assert |a.Keys + news.Keys| == |a.Keys| + |news.Keys|;
  }

  lemma {:induction false} IntervalSize(v: nat, n: nat)
    ensures |Interval(v, n)| == n
  {
    if n > 0 {
      IntervalSize(v, n - 1);
    }
  }

  // ----- Copying an address space -----

  /** The first n virtual pages an address space owns, with their flags and contents. */
  ghost function Image(mem: seq<Page>, sp: Space, n: nat): map<nat, Fresh> {
    map v | v in sp.user && v < n :: PageImage(mem, sp, v)
  }

  ghost function PageImage(mem: seq<Page>, sp: Space, v: nat): Fresh {
    if v in sp.user && v in sp.leaf && sp.user[v] < |mem| then Fresh(FlagsOf(sp.leaf[v]), mem[sp.user[v]]) else Fresh(0, [])
  }

  lemma ImageMore(mem: seq<Page>, sp: Space, n: nat)
    ensures Image(mem, sp, 0) == map[]
    ensures n in sp.user ==> Image(mem, sp, n) + map[n := PageImage(mem, sp, n)] == Image(mem, sp, n + 1)
    ensures n !in sp.user ==> Image(mem, sp, n) == Image(mem, sp, n + 1)
    ensures Image(mem, sp, n).Keys <= Interval(0, n)
  {
  }

  /** How many of the first n virtual pages an address space owns. */
  ghost function OwnedBelow(sp: Space, n: nat): nat {
    if n == 0 then 0 else OwnedBelow(sp, n - 1) + if n - 1 in sp.user then 1 else 0
  }

  lemma {:induction false} OwnedCount(sp: Space, n: nat, s: set<nat>)
    requires forall v :: v in s <==> v in sp.user && v < n
    ensures |s| == OwnedBelow(sp, n)
  {
    if n == 0 {
      assert s == {};
    } else {
      OwnedCount(sp, n - 1, s - {n - 1});
      if n - 1 in s {
        assert s == s - {n - 1} + {n - 1};
      } else {
        assert s == s - {n - 1};
      }
    }
  }

  lemma ImageSize(mem: seq<Page>, sp: Space, n: nat)
    ensures |Image(mem, sp, n).Keys| == OwnedBelow(sp, n)
  {
    hide PageImage, OwnedBelow;
    OwnedCount(sp, n, Image(mem, sp, n).Keys);
  }

  lemma {:induction false} OneMoreOwned(sp: Space, k: nat, n: nat)
    requires k in sp.user && k < n
    ensures OwnedBelow(sp, k) + 1 <= OwnedBelow(sp, n)
  {
    if k < n - 1 {
      OneMoreOwned(sp, k, n - 1);
    }
  }

  /** Growing s leaves address space t and its pages alone. */
  lemma OtherKept(m0: seq<Page>, freelist: seq<nat>, g0: Ghosts, m1: seq<Page>, g1: Ghosts, s: nat, t: nat, news: map<nat, Fresh>)
    requires Inv(m0, freelist, g0) && GrewBy(m0, g0, m1, g1, s, news) && t in g0.spaces && t != s
    ensures t in g1.spaces && g1.spaces[t] == g0.spaces[t] && |m1| == |m0|
    ensures forall v :: v in g0.spaces[t].user ==> g0.spaces[t].user[v] < |m0| && m1[g0.spaces[t].user[v]] == m0[g0.spaces[t].user[v]]
  {
    hide Inv, SpaceGrewBy, FreshPage, RolesGrewBy, ContentsKept;
    UserRoles(m0, freelist, g0, t);
    OtherContents(m0, g0.role, m1, s, t, g0.spaces[t].user);
  }

  lemma OtherContents(m0: seq<Page>, role: seq<Role>, m1: seq<Page>, s: nat, t: nat, user: map<nat, nat>)
    requires ContentsKept(m0, role, m1, s) && t != s
    requires forall v :: v in user ==> user[v] < |role| && role[user[v]] == User(t, v)
    ensures |m1| == |m0| == |role|
    ensures forall v :: v in user ==> m1[user[v]] == m0[user[v]]
  {
  }

  /** The source's entry for virtual page v, as the walk finds it. */
  lemma OwnedEntry(mem: seq<Page>, freelist: seq<nat>, g: Ghosts, t: nat, v: nat)
    requires Inv(mem, freelist, g) && t in g.spaces && v in g.spaces[t].user
    ensures v in g.spaces[t].leaf && v / ENTRIES in g.spaces[t].low
    ensures g.spaces[t].user[v] == PageOf(g.spaces[t].leaf[v]) < |mem| == |g.role| && |mem[g.spaces[t].user[v]]| == ENTRIES
    ensures WithV(FlagsOf(g.spaces[t].leaf[v])) == FlagsOf(g.spaces[t].leaf[v])
  {
    LeafHasTable(mem, freelist, g, t, v);
    TablePages(mem, freelist, g, t);
    hide Inv, Level2, Level1, Level0, IsValid, PageOf, FlagsOf, WithV;
    assert UserPages(g.role, t, g.spaces[t].leaf, g.spaces[t].user);
    LeafEntry(mem, freelist, g, t, v);
    ValidFlags(g.spaces[t].leaf[v]);
  }

  lemma ValidFlags(e: nat)
    requires IsValid(e)
    ensures WithV(FlagsOf(e)) == FlagsOf(e)
  {
  }

  /** uvmcopy: the new address space gets a fresh copy, with equal flags and contents, of every page the old one
      has below sz; on failure its translations are as before. The old address space is not touched. */
  method Uvmcopy(m: Memory, parent: nat, child: nat, sz: nat, ghost t: nat, ghost s: nat) returns (ok: bool)
    requires m.Valid() && t in m.g.spaces && s in m.g.spaces && s != t && sz <= MAXVA
    requires m.g.spaces[t].root == parent && m.g.spaces[s].root == child
    requires forall v :: v < Pages(sz) && v in m.g.spaces[t].leaf ==> v in m.g.spaces[t].user
    requires forall v :: v < Pages(sz) ==> v !in m.g.spaces[s].leaf
    modifies m
    ensures m.Valid()
    ensures ok ==> GrewBy(old(m.mem), old(m.g), m.mem, m.g, s, Image(old(m.mem), old(m.g).spaces[t], Pages(sz)))
    ensures !ok ==>
      && Grew(old(m.mem), old(m.g), m.mem, m.g, s)
      && m.g.spaces[s].leaf == old(m.g.spaces[s].leaf) && m.g.spaces[s].user == old(m.g.spaces[s].user)
      && |m.freelist| <= OwnedBelow(old(m.g).spaces[t], Pages(sz))
    ensures sz > 0 ==> s in m.g.spaces && TablesFor(old(m.g.spaces[s]), m.g.spaces[s], 0, Pages(sz) - 1)
  {
    hide Inv, Grew, GrewBy, Shrunk, Pages, PgRoundUp, Unowned, Image, Interval, OwnedBy, OwnedBelow, TablesFor;
    ghost var m0, f0, g0, sp := m.mem, m.freelist, m.g, m.g.spaces[t];
    ghost var last := if Pages(sz) == 0 then 0 else Pages(sz) - 1;
    NoTables(m.g.spaces[s], 0, last);
    SameSize(m.mem, m.freelist, m.g);
    GrewByNothing(m.mem, m.g, s);
    ImageMore(m0, sp, 0);
    NoHit(m.mem, m.freelist, m.g, s, Interval(0, Pages(sz)));
    var i := 0;
    ghost var k := 0;
    PageSteps(0, sz, 0);
    while i < sz
      invariant i == k * PGSIZE && k <= Pages(sz)
      invariant m.Valid() && GrewBy(m0, g0, m.mem, m.g, s, Image(m0, sp, k))
      invariant s in m.g.spaces && TablesFor(g0.spaces[s], m.g.spaces[s], 0, last)
      decreases sz + PGSIZE - i
    {
      ghost var sp1 := m.g.spaces[s];
      PageSteps(0, sz, k);
      ImageMore(m0, sp, k);
      ok := CopyPage(m, parent, child, i, k, t, s, m0, f0, g0, Pages(sz));
      TablesIn(g0.spaces[s], sp1, m.g.spaces[s], 0, last, k);
      if !ok {
        return false;
      }
      i := i + PGSIZE;
      k := k + 1;
      PageSteps(0, sz, k);
    }
    PageSteps(0, sz, k);
    ok := true;
  }

  /** The body of uvmcopy's loop, with its error exit. */
  method CopyPage(m: Memory, parent: nat, child: nat, i: nat, ghost k: nat, ghost t: nat, ghost s: nat,
                  ghost m0: seq<Page>, ghost f0: seq<nat>, ghost g0: Ghosts, ghost n: nat) returns (ok: bool)
    requires Inv(m0, f0, g0) && t in g0.spaces && s in g0.spaces && s != t
    requires g0.spaces[t].root == parent && g0.spaces[s].root == child
    requires m.Valid() && GrewBy(m0, g0, m.mem, m.g, s, Image(m0, g0.spaces[t], k))
    requires i == k * PGSIZE && i < MAXVA && k < n
    requires k in g0.spaces[t].leaf ==> k in g0.spaces[t].user
    requires Unowned(g0, s, Interval(0, n))
    modifies m
    ensures m.Valid()
    ensures ok ==> GrewBy(m0, g0, m.mem, m.g, s, Image(m0, g0.spaces[t], k + 1))
    ensures !ok ==> s in m.g.spaces && Grew(m0, g0, m.mem, m.g, s)
    ensures !ok ==> m.g.spaces[s].leaf == g0.spaces[s].leaf && m.g.spaces[s].user == g0.spaces[s].user
    ensures !ok ==> |m.freelist| <= OwnedBelow(g0.spaces[t], n)
    ensures s in old(m.g.spaces) && s in m.g.spaces && TablesFor(old(m.g.spaces[s]), m.g.spaces[s], k, k)
  {
    hide Inv, Grew, GrewBy, Shrunk, Unowned, Image, Interval, OwnedBy, OwnedBelow, TablesFor, Carries;
    ghost var m1, g1, sp := m.mem, m.g, g0.spaces[t];
    GrownRange(m0, g0, m1, g1, s, Image(m0, sp, k));
    NoTables(g1.spaces[s], k, k);
    ImageMore(m0, sp, k);
    OtherKept(m0, f0, g0, m1, g1, s, t, Image(m0, sp, k));
    UserIsLeaf(m1, m.freelist, g1, t);
    LeafHasTable(m1, m.freelist, g1, t, k);
    var slot := m.Walk(parent, i, false, t);
    if slot.None? {
      return true;
    }
    LeafEntry(m1, m.freelist, g1, t, k);
    var pte := m.mem[slot.value.table][slot.value.index];
    if !IsValid(pte) {
      return true;
    }
    OwnedEntry(m1, m.freelist, g1, t, k);
    GrownRange(m0, g0, m1, g1, s, Image(m0, sp, k));
    UserRoles(m1, m.freelist, g1, s);
    UnownedFacts(g0, s, Interval(0, n), k);
    var page;
    ok, page := AddPage(m, child, i, FlagsOf(pte), m.mem[PageOf(pte)], s);
    if ok {
      GrewByMore(m0, g0, m1, g1, m.mem, m.g, s, Image(m0, sp, k), map[k := PageImage(m0, sp, k)]);
    } else {
      UnownedPart(g0, s, Interval(0, n), Interval(0, k));
      GrewHas(m1, g1, m.mem, m.g, s);
      ghost var sp2 := m.g.spaces[s];
      UncopyPages(m, child, i, k, s, m0, g0, m1, g1, Image(m0, sp, k));
      SameTables(g1.spaces[s], sp2, m.g.spaces[s], k, k);
      ImageSize(m0, sp, k);
      OneMoreOwned(sp, k, n);
    }
  }

  /** The error exit of uvmcopy after k pages. */
  method UncopyPages(m: Memory, child: nat, i: nat, ghost k: nat, ghost s: nat,
                     ghost m0: seq<Page>, ghost g0: Ghosts, ghost m1: seq<Page>, ghost g1: Ghosts, ghost done: map<nat, Fresh>)
    requires m.Valid() && s in g0.spaces && s in g1.spaces && s in m.g.spaces && g0.spaces[s].root == child
    requires i == k * PGSIZE && i <= MAXVA
    requires GrewBy(m0, g0, m1, g1, s, done) && done.Keys <= Interval(0, k)
    requires Grew(m1, g1, m.mem, m.g, s) && m.g.spaces[s].leaf == g1.spaces[s].leaf
    requires Unowned(g0, s, Interval(0, k))
    modifies m
    ensures m.Valid() && Grew(m0, g0, m.mem, m.g, s) && s in m.g.spaces
    ensures m.g.spaces[s].leaf == g0.spaces[s].leaf && m.g.spaces[s].user == g0.spaces[s].user
    ensures |m.freelist| == old(|m.freelist|) + |done.Keys|
    ensures m.g.spaces[s].mid == old(m.g.spaces[s].mid) && m.g.spaces[s].low == old(m.g.spaces[s].low)
  {
    hide Inv, Grew, GrewBy, Shrunk, Unowned, Interval, OwnedBy, FramesKept;
    ghost var m2, g2 := m.mem, m.g;
    GrewHas(m1, g1, m2, g2, s);
    GrownRange(m0, g0, m1, g1, s, done);
    OnlyGrown(g0, g1, g2, s, done, k);
    m.Uvmunmap(child, 0, i / PGSIZE, true, s);
    TablesStay(m2, g2, m.mem, m.g, s, Interval(0, k), true);
    Restored(m0, g0, m1, g1, m2, g2, m.mem, m.g, s, done, Interval(0, k));
    GrewHas(m0, g0, m.mem, m.g, s);
    GivenBack(m0, g0, m1, g1, s, done, old(m.freelist), m.freelist);
  }

  lemma UnownedFacts(g: Ghosts, s: nat, dom: set<nat>, v: nat)
    requires Unowned(g, s, dom) && v in dom
    ensures v !in g.spaces[s].leaf && v !in g.spaces[s].user
  {
  }

  /** Below k, every mapped page of s is one it was just given. */
  lemma OnlyGrown(g0: Ghosts, g1: Ghosts, g2: Ghosts, s: nat, news: map<nat, Fresh>, k: nat)
    requires Unowned(g0, s, Interval(0, k)) && s in g1.spaces && s in g2.spaces
    requires g1.spaces[s].leaf.Keys == g0.spaces[s].leaf.Keys + news.Keys
    requires g1.spaces[s].user.Keys == g0.spaces[s].user.Keys + news.Keys
    requires g2.spaces[s].leaf == g1.spaces[s].leaf && g2.spaces[s].user == g1.spaces[s].user
    ensures forall v :: 0 <= v < k && v in g2.spaces[s].leaf ==> v in g2.spaces[s].user
  {
  }
}
