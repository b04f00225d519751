/** Virtual memory of kernel/vm.c over the page allocator of kernel/kalloc.c. */
module Vm {
  import opened PageTable
  import opened Wrappers

  const PGSIZE := 4096
  const MAXVA := MAXVPN * PGSIZE

  /** The address of a page-table entry: table page and index. */
  datatype Slot = Slot(table: nat, index: nat)

  /** PX(level, va): nine bits of index for each level. */
  function Px(level: nat, va: nat): (i: nat)
    ensures i < ENTRIES
  {
    (if level == 0 then va / 4096 else if level == 1 then va / 2097152 else va / 1073741824) % ENTRIES
  }

  lemma PxIndices(va: nat)
    requires va < MAXVA
    ensures Px(0, va) == va / PGSIZE % ENTRIES
    ensures Px(1, va) == (va / PGSIZE / ENTRIES) % ENTRIES
    ensures Px(2, va) == va / PGSIZE / ENTRIES / ENTRIES < ENTRIES
  {
  }

  /** The table consulted at each level for virtual page v. */
  ghost predicate AtLevel(sp: Space, level: nat, v: nat, table: nat) {
    if level == 2 then table == sp.root
    else if level == 1 then v / ENTRIES / ENTRIES in sp.mid && sp.mid[v / ENTRIES / ENTRIES] == table
    else v / ENTRIES in sp.low && sp.low[v / ENTRIES] == table
  }

  ghost predicate Extends(a: map<nat, nat>, b: map<nat, nat>) {
    forall k :: k in a ==> k in b && b[k] == a[k]
  }

  /** A page that was free may have become a table page of s; nothing else changed role. */
  ghost predicate RolesGrew(role: seq<Role>, role': seq<Role>, s: nat) {
    && |role'| == |role|
    && forall p :: 0 <= p < |role| ==>
         role'[p] == role[p] || (role[p] == Free && OwnedBy(role'[p], s) && (role'[p].Mid? || role'[p].Low?))
  }

  /** Contents of pages that are neither free nor tables of s are unchanged. */
  ghost predicate ContentsKept(mem: seq<Page>, role: seq<Role>, mem': seq<Page>, s: nat) {
    && |mem'| == |mem| == |role|
    && forall p :: 0 <= p < |mem| && role[p] != Free && (role[p].User? || !OwnedBy(role[p], s)) ==> mem'[p] == mem[p]
  }

  /** Address space s got more tables, its leaf entries may have changed, and nothing else happened. */
  ghost predicate Grew(mem: seq<Page>, g: Ghosts, mem': seq<Page>, g': Ghosts, s: nat) {
    && s in g.spaces && s in g'.spaces
    && OnlySpace(g.spaces, g'.spaces, s)
    && g'.spaces[s] == g.spaces[s].(mid := g'.spaces[s].mid, low := g'.spaces[s].low, leaf := g'.spaces[s].leaf)
    && Extends(g.spaces[s].mid, g'.spaces[s].mid) && Extends(g.spaces[s].low, g'.spaces[s].low)
    && RolesGrew(g.role, g'.role, s)
    && ContentsKept(mem, g.role, mem', s)
  }

  /** New tables serve only the virtual pages from first to last. */
  ghost predicate TablesFor(sp: Space, sp': Space, first: nat, last: nat) {
    && (forall i :: i in sp'.mid && i !in sp.mid ==> first / ENTRIES / ENTRIES <= i <= last / ENTRIES / ENTRIES)
    && (forall k :: k in sp'.low && k !in sp.low ==> first / ENTRIES <= k <= last / ENTRIES)
  }

  /** More tables for page v are tables for a range around it. */
  lemma TablesIn(a: Space, b: Space, c: Space, first: nat, last: nat, v: nat)
    requires TablesFor(a, b, first, last) && TablesFor(b, c, v, v) && first <= v <= last
    ensures TablesFor(a, c, first, last)
  {
    DivGrows(first, v);
    DivGrows(v, last);
  }

  lemma TablesStay(m0: seq<Page>, g0: Ghosts, m1: seq<Page>, g1: Ghosts, s: nat, dom: set<nat>, free: bool)
    requires Shrunk(m0, g0, m1, g1, s, dom, free)
    ensures s in g0.spaces && s in g1.spaces && g1.spaces[s].mid == g0.spaces[s].mid && g1.spaces[s].low == g0.spaces[s].low
  {
  }

  lemma NoTables(sp: Space, first: nat, last: nat)
    ensures TablesFor(sp, sp, first, last)
  {
  }

  lemma DivGrows(x: nat, y: nat)
    requires x <= y
    ensures x / ENTRIES <= y / ENTRIES && x / ENTRIES / ENTRIES <= y / ENTRIES / ENTRIES
  {
  }

  lemma GrewRefl(mem: seq<Page>, g: Ghosts, s: nat)
    requires |g.role| == |mem| && s in g.spaces
    ensures Grew(mem, g, mem, g, s)
  {
  }

  lemma GrewTrans(m0: seq<Page>, g0: Ghosts, m1: seq<Page>, g1: Ghosts, m2: seq<Page>, g2: Ghosts, s: nat)
    requires Grew(m0, g0, m1, g1, s) && Grew(m1, g1, m2, g2, s)
    ensures Grew(m0, g0, m2, g2, s)
  {
  }

  class Memory {
    var mem: seq<Page>
    var freelist: seq<nat>
    ghost var g: Ghosts

    ghost predicate Valid()
      reads this
    {
      Inv(mem, freelist, g)
    }

    /** kinit with freerange: every whole page between the end of the kernel image and the top of memory is freed. */
    constructor (kernelEnd: nat, physTop: nat, initial: seq<Page>)
      requires MemOk(initial) && |initial| == physTop / PGSIZE
      ensures Valid() && g.spaces == map[] && |mem| == |g.role| == physTop / PGSIZE
      ensures forall p :: 0 <= p < |mem| ==> g.role[p] == if kernelEnd <= p * PGSIZE then Free else Kernel
    {
      mem := initial;
      freelist := [];
      g := Ghosts(seq(|initial|, p => if kernelEnd <= p * PGSIZE then Held else Kernel), map[]);
      new;
      hide SpaceOk;
      var p := (kernelEnd + PGSIZE - 1) / PGSIZE * PGSIZE;
      while p + PGSIZE <= physTop
        invariant p % PGSIZE == 0 && kernelEnd <= p
        invariant Valid() && g.spaces == map[] && |mem| == |g.role| == physTop / PGSIZE
        invariant forall q :: 0 <= q < |mem| ==>
          g.role[q] == if kernelEnd > q * PGSIZE then Kernel else if q * PGSIZE < p then Free else Held
      {
        hide Inv;
        Kfree(p / PGSIZE);
        p := p + PGSIZE;
      }
    }

    /** kalloc. */
    method Kalloc() returns (r: Option<nat>)
      requires Valid()
      modifies this
      ensures Valid()
      ensures r.None? ==> old(freelist) == [] && mem == old(mem) && freelist == old(freelist) && g == old(g)
      ensures r.Some? ==>
        && r.value < |old(mem)| && r.value < |old(g.role)| && old(g.role)[r.value] == Free
        && old(freelist) == [r.value] + freelist
        && mem == old(mem)[r.value := JUNKALLOC]
        && g == WithRole(old(g), r.value, Held)
    {
      if freelist == [] {
        return None;
      }
      AllocKeeps(mem, freelist, g);
      hide Inv;
      var p := freelist[0];
      freelist := freelist[1..];
      mem := mem[p := JUNKALLOC];
      g := WithRole(g, p, Held);
      r := Some(p);
    }

    /** kfree of a page the kernel holds. */
    method Kfree(p: nat)
      requires Valid() && p < |g.role| && g.role[p] == Held
      modifies this
      ensures Valid()
      ensures |old(mem)| == |old(g.role)|
      ensures freelist == [p] + old(freelist) && mem == old(mem)[p := JUNKFREE] && g == WithRole(old(g), p, Free)
    {
      SameSize(mem, freelist, g);
      FreeKeeps(mem, freelist, g, p);
      hide Inv;
      mem := mem[p := JUNKFREE];
      freelist := [p] + freelist;
      g := WithRole(g, p, Free);
    }

    /** One turn of walk's loop: from the table at `level` to the one below, allocated if need be. */
    method Descend(table: nat, level: nat, va: nat, alloc: bool, ghost s: nat) returns (r: Option<nat>)
      requires Valid() && s in g.spaces && va < MAXVA && 1 <= level <= 2
      requires AtLevel(g.spaces[s], level, va / PGSIZE, table)
      modifies this
      ensures Valid() && Grew(old(mem), old(g), mem, g, s) && s in g.spaces && g.spaces[s].leaf == old(g.spaces[s].leaf)
      ensures r.Some? ==> AtLevel(g.spaces[s], level - 1, va / PGSIZE, r.value)
      ensures r.None? && alloc ==> freelist == []
      ensures !alloc ==> mem == old(mem) && freelist == old(freelist) && g == old(g)
      ensures r.None? && !alloc ==> va / PGSIZE / ENTRIES !in g.spaces[s].low
      ensures TablesFor(old(g.spaces[s]), g.spaces[s], va / PGSIZE, va / PGSIZE)
    {
      hide Inv, SpaceOk, Grew;
      ghost var v := va / PGSIZE;
      PxIndices(va);
      SameSize(mem, freelist, g);
      GrewRefl(mem, g, s);
      TableEntry(mem, freelist, g, s, level, v, table);
      var i := Px(level, va);
      var pte := mem[table][i];
      if IsValid(pte) {
        return Some(PageOf(pte));
      }
      if !alloc {
        return None;
      }
      var page := Kalloc();
      if page.None? {
        return None;
      }
      var p := page.value;
      HeldWriteKeeps(mem, freelist, g, p, ZEROPAGE);
      mem := mem[p := ZEROPAGE];
      assert mem == old(mem)[p := ZEROPAGE];
      if level == 2 {
        AddMid(mem, freelist, g, s, i, p);
        g := WithMid(g, s, i, p);
        assert g == WithMid(old(g), s, i, p);
      } else {
        AddLow(mem, freelist, g, s, v / ENTRIES, p);
        g := WithLow(g, s, v / ENTRIES, p);
        assert g == WithLow(old(g), s, v / ENTRIES, p);
      }
      mem := Put(mem, table, i, Dir(p));
      GrewByTable(old(mem), old(g), mem, g, s, p, table, mem[table]);
      r := Some(p);
    }

    /** walk: the leaf slot for va, creating tables on the way if `alloc`. */
    method Walk(root: nat, va: nat, alloc: bool, ghost s: nat) returns (r: Option<Slot>)
      requires Valid() && s in g.spaces && g.spaces[s].root == root && va < MAXVA
      modifies this
      ensures Valid() && Grew(old(mem), old(g), mem, g, s) && s in g.spaces && g.spaces[s].leaf == old(g.spaces[s].leaf)
      ensures r.Some? ==>
        && va / PGSIZE / ENTRIES in g.spaces[s].low
        && r.value == Slot(g.spaces[s].low[va / PGSIZE / ENTRIES], va / PGSIZE % ENTRIES)
      ensures r.None? && alloc ==> freelist == []
      ensures !alloc ==> mem == old(mem) && freelist == old(freelist) && g == old(g)
      ensures r.None? && !alloc ==> va / PGSIZE / ENTRIES !in g.spaces[s].low
      ensures TablesFor(old(g.spaces[s]), g.spaces[s], va / PGSIZE, va / PGSIZE)
    {
      hide Inv, Grew;
      SameSize(mem, freelist, g);
      GrewRefl(mem, g, s);
      PxIndices(va);
      var pagetable := root;
      var level := 2;
      while level > 0
        invariant 0 <= level <= 2
        invariant Valid() && Grew(old(mem), old(g), mem, g, s)
        invariant s in g.spaces && g.spaces[s].leaf == old(g.spaces[s].leaf)
        invariant AtLevel(g.spaces[s], level, va / PGSIZE, pagetable)
        invariant TablesFor(old(g.spaces[s]), g.spaces[s], va / PGSIZE, va / PGSIZE)
        invariant !alloc ==> mem == old(mem) && freelist == old(freelist) && g == old(g)
      {
        ghost var m1, g1 := mem, g;
        var next := Descend(pagetable, level, va, alloc, s);
        GrewTrans(old(mem), old(g), m1, g1, mem, g, s);
        if next.None? {
          return None;
        }
        GrewHas(m1, g1, mem, g, s);
        pagetable := next.value;
        level := level - 1;
      }
      r := Some(Slot(pagetable, Px(0, va)));
    }

    /** The body of mappages' loop: one page. */
    method MapOne(root: nat, va: nat, page: nat, perm: nat, ghost s: nat) returns (ok: bool)
      requires Valid() && s in g.spaces && g.spaces[s].root == root && va < MAXVA && perm < 1024
      requires va / PGSIZE !in g.spaces[s].leaf
      modifies this
      ensures Valid() && Grew(old(mem), old(g), mem, g, s) && s in g.spaces
      ensures !ok ==> freelist == [] && g.spaces[s].leaf == old(g.spaces[s].leaf)
      ensures ok ==> g.spaces[s].leaf == old(g.spaces[s].leaf)[va / PGSIZE := Pte(page, WithV(perm))]
      ensures ok ==> Carries(g.spaces[s].leaf[va / PGSIZE], page, perm)
      ensures TablesFor(old(g.spaces[s]), g.spaces[s], va / PGSIZE, va / PGSIZE)
    {
      hide Inv, Grew;
      ghost var v := va / PGSIZE;
      UserIsLeaf(mem, freelist, g, s);
      var slot := Walk(root, va, true, s);
      if slot.None? {
        return false;
      }
      var t, i := slot.value.table, slot.value.index;
      GrewHas(old(mem), old(g), mem, g, s);
      ghost var m1, g1, e := mem, g, Pte(page, WithV(perm));
      EntryBits(page, perm);
      LeafEntry(mem, freelist, g, s, v);
      assert !IsValid(mem[t][i]);
      WriteLeaf(mem, freelist, g, s, v, e);
      mem := Put(mem, t, i, Pte(page, WithV(perm)));
      g := WithLeaf(g, s, v, e);
      GrewByLeaf(m1, g1, s, v, e, t, i);
      GrewTrans(old(mem), old(g), m1, g1, mem, g, s);
      ok := true;
    }

    /** mappages for `n` pages; it fails only when a table page cannot be allocated, after mapping `done` pages.
        Mapping a page that is already mapped panics. */
    method Mappages(root: nat, va: nat, n: nat, page: nat, perm: nat, ghost s: nat) returns (ok: bool, ghost done: nat)
      requires Valid() && s in g.spaces && g.spaces[s].root == root
      requires va % PGSIZE == 0 && n > 0 && va + n * PGSIZE <= MAXVA && perm < 1024
      requires forall v :: va / PGSIZE <= v < va / PGSIZE + n ==> v !in g.spaces[s].leaf
      modifies this
      ensures Valid() && Grew(old(mem), old(g), mem, g, s) && s in g.spaces
      ensures done <= n && (ok <==> done == n) && (!ok ==> freelist == [])
      ensures g.spaces[s].leaf == old(g.spaces[s].leaf) + Range(va / PGSIZE, done, page, WithV(perm))
      ensures AllCarry(g.spaces[s].leaf, va / PGSIZE, done, page, perm)
      ensures TablesFor(old(g.spaces[s]), g.spaces[s], va / PGSIZE, va / PGSIZE + n - 1)
    {
      hide Inv, Grew, WithV, Range, Pte, AllCarry, Carries, TablesFor;
      ghost var v, sp := va / PGSIZE, g.spaces[s];
      SameSize(mem, freelist, g);
      GrewRefl(mem, g, s);
      RangeMore(sp.leaf, v, 0, page, WithV(perm));
      NoTables(sp, v, v + n - 1);
      var a, pa := va, page;
      var last := va + n * PGSIZE - PGSIZE;
      done := 0;
      while true
        invariant done < n && a == va + done * PGSIZE && pa == page + done
        invariant Valid() && Grew(old(mem), old(g), mem, g, s) && s in g.spaces
        invariant g.spaces[s].leaf == sp.leaf + Range(v, done, page, WithV(perm))
        invariant TablesFor(sp, g.spaces[s], v, v + n - 1)
        decreases n - done
      {
        GrewHas(old(mem), old(g), mem, g, s);
        ghost var m1, g1 := mem, g;
        PageAfter(va, n, done);
        RangeMore(sp.leaf, v, done, page, WithV(perm));
        ok := MapOne(root, a, pa, perm, s);
        GrewTrans(old(mem), old(g), m1, g1, mem, g, s);
        TablesIn(sp, g1.spaces[s], g.spaces[s], v, v + n - 1, v + done);
        if !ok {
          RangeCarries(sp.leaf, v, done, page, perm);
          return;
        }
        done := done + 1;
        if a == last {
          break;
        }
        a := a + PGSIZE;
        pa := pa + 1;
      }
      RangeCarries(sp.leaf, v, done, page, perm);
    }

    /** The body of uvmunmap's loop: one page, mapped or not. */
    method UnmapOne(root: nat, va: nat, free: bool, ghost s: nat)
      requires Valid() && s in g.spaces && g.spaces[s].root == root && va < MAXVA
      requires free && va / PGSIZE in g.spaces[s].leaf ==> va / PGSIZE in g.spaces[s].user
      requires !free ==> va / PGSIZE !in g.spaces[s].user
      modifies this
      ensures s in g.spaces && FramesKept(old(freelist), old(g.spaces[s].leaf), freelist, g.spaces[s].leaf, free)
      ensures Valid() && Shrunk(old(mem), old(g), mem, g, s, {va / PGSIZE}, free)
    {
      hide Inv, Shrunk, Grew;
      ghost var v := va / PGSIZE;
      NotMapped(mem, freelist, g, s, v, free);
      OnlyUser(mem, freelist, g, s, v);
      var slot := Walk(root, va, false, s);
      if slot.None? {
        return;
      }
      var t, i := slot.value.table, slot.value.index;
      LeafEntry(mem, freelist, g, s, v);
      if !IsValid(mem[t][i]) {
        return;
      }
      if free {
        var p := PageOf(mem[t][i]);
        Disown(mem, freelist, g, s, v);
        g := Disowned(g, s, v);
        Kfree(p);
        LeafEntry(mem, freelist, g, s, v);
      }
      WriteLeaf(mem, freelist, g, s, v, 0);
      mem := Put(mem, t, i, 0);
      g := WithLeaf(g, s, v, 0);
      UnmapEffect(old(mem), old(g), s, v, free, t, i, mem, g);
      OneLess(old(g.spaces[s].leaf), v);
    }

    /** uvmunmap: removes exactly the given range. */
    method Uvmunmap(root: nat, va: nat, npages: nat, free: bool, ghost s: nat)
      requires Valid() && s in g.spaces && g.spaces[s].root == root
      requires va % PGSIZE == 0 && va + npages * PGSIZE <= MAXVA
      requires forall v :: va / PGSIZE <= v < va / PGSIZE + npages ==>
                 if free then v in g.spaces[s].leaf ==> v in g.spaces[s].user else v !in g.spaces[s].user
      modifies this
      ensures Valid() && Shrunk(old(mem), old(g), mem, g, s, Interval(va / PGSIZE, npages), free)
      ensures s in g.spaces && FramesKept(old(freelist), old(g.spaces[s].leaf), freelist, g.spaces[s].leaf, free)
    {
      hide Inv, Shrunk;
      SameSize(mem, freelist, g);
      NoneShrunk(mem, freelist, g, s, free);
      var a := va;
      ghost var k := 0;
      while a < va + npages * PGSIZE
        invariant k <= npages && a == va + k * PGSIZE
        invariant Valid() && Shrunk(old(mem), old(g), mem, g, s, Interval(va / PGSIZE, k), free)
        invariant s in g.spaces && FramesKept(old(freelist), old(g.spaces[s].leaf), freelist, g.spaces[s].leaf, free)
        decreases npages - k
      {
        assert a / PGSIZE == va / PGSIZE + k;
        ShrunkKeeps(old(mem), old(g), mem, g, s, Interval(va / PGSIZE, k), free);
        ghost var m1, g1 := mem, g;
        UnmapOne(root, a, free, s);
        ShrunkTrans(old(mem), old(g), m1, g1, mem, g, s, Interval(va / PGSIZE, k), {a / PGSIZE}, free);
        a := a + PGSIZE;
        k := k + 1;
      }
    }
  }

  // ----- Unmapping -----

  ghost function Interval(v: nat, n: nat): (r: set<nat>)
    ensures forall u :: u in r <==> v <= u < v + n
  {
    if n == 0 then {} else Interval(v, n - 1) + {v + n - 1}
  }

  /** Frames are conserved: each page unmapped with `free` is one more on the free list; without, the list stays. */
  ghost predicate FramesKept(freelist: seq<nat>, leaf: map<nat, nat>, freelist': seq<nat>, leaf': map<nat, nat>, free: bool) {
    if free then |freelist'| + |leaf'| == |freelist| + |leaf| else freelist' == freelist
  }

  lemma SameFrames(freelist: seq<nat>, leaf: map<nat, nat>, free: bool)
    ensures FramesKept(freelist, leaf, freelist, leaf, free)
  {
  }

  lemma NoPages(v: nat)
    ensures Interval(v, 0) == {}
  {
  }

  lemma OneLess(leaf: map<nat, nat>, v: nat)
    requires v in leaf
    ensures |leaf - {v}| == |leaf| - 1
  {
    assert leaf == (leaf - {v})[v := leaf[v]];
  }

  ghost predicate Hit(r: Role, s: nat, dom: set<nat>) {
    r.User? && r.s == s && r.v in dom
  }

  /** The pages in `dom` are unmapped in address space s, their frames freed if `free`, and nothing else happened. */
  ghost predicate Shrunk(mem: seq<Page>, g: Ghosts, mem': seq<Page>, g': Ghosts, s: nat, dom: set<nat>, free: bool) {
    && s in g.spaces && s in g'.spaces && OnlySpace(g.spaces, g'.spaces, s)
    && g'.spaces[s] == g.spaces[s].(leaf := g.spaces[s].leaf - dom, user := if free then g.spaces[s].user - dom else g.spaces[s].user)
    && |g'.role| == |g.role| == |mem| == |mem'|
    && (forall p :: 0 <= p < |mem| ==> g'.role[p] == if free && Hit(g.role[p], s, dom) then Free else g.role[p])
    && (forall p :: 0 <= p < |mem| && g'.role[p] == g.role[p] && !(g.role[p].Low? && g.role[p].s == s) ==> mem'[p] == mem[p])
  }

  lemma ShrunkNothing(mem: seq<Page>, g: Ghosts, s: nat, dom: set<nat>, free: bool)
    requires |g.role| == |mem| && s in g.spaces && g.spaces[s].leaf.Keys !! dom && g.spaces[s].user.Keys !! dom
    requires forall p :: 0 <= p < |mem| ==> !Hit(g.role[p], s, dom)
    ensures Shrunk(mem, g, mem, g, s, dom, free)
  {
    assert g.spaces[s].leaf - dom == g.spaces[s].leaf;
    assert g.spaces[s].user - dom == g.spaces[s].user;
  }

  lemma ShrunkTrans(m0: seq<Page>, g0: Ghosts, m1: seq<Page>, g1: Ghosts, m2: seq<Page>, g2: Ghosts, s: nat,
                    d1: set<nat>, d2: set<nat>, free: bool)
    requires Shrunk(m0, g0, m1, g1, s, d1, free) && Shrunk(m1, g1, m2, g2, s, d2, free)
    ensures Shrunk(m0, g0, m2, g2, s, d1 + d2, free)
  {
    var sp := g0.spaces[s];
    assert sp.leaf - d1 - d2 == sp.leaf - (d1 + d2);
    assert sp.user - d1 - d2 == sp.user - (d1 + d2);
  }

  lemma NoneShrunk(mem: seq<Page>, freelist: seq<nat>, g: Ghosts, s: nat, free: bool)
    requires Inv(mem, freelist, g) && s in g.spaces
    ensures Shrunk(mem, g, mem, g, s, {}, free)
  {
    SameSize(mem, freelist, g);
    ShrunkNothing(mem, g, s, {}, free);
  }

  /** The role of an owned page is backed by the address space. */
  lemma OnlyUser(mem: seq<Page>, freelist: seq<nat>, g: Ghosts, s: nat, v: nat)
    requires Inv(mem, freelist, g) && s in g.spaces
    ensures |g.role| == |mem|
    ensures forall p :: 0 <= p < |g.role| && g.role[p] == User(s, v) ==> v in g.spaces[s].user && g.spaces[s].user[v] == p
  {
    hide SpaceOk, FreeOk;
    forall p | 0 <= p < |g.role| && g.role[p] == User(s, v)
      ensures v in g.spaces[s].user && g.spaces[s].user[v] == p
    {
      assert RoleOk(g, p);
    }
  }

  /** If v is not mapped, unmapping it is already done. */
  lemma NotMapped(mem: seq<Page>, freelist: seq<nat>, g: Ghosts, s: nat, v: nat, free: bool)
    requires Inv(mem, freelist, g) && s in g.spaces
    ensures v !in g.spaces[s].leaf ==> Shrunk(mem, g, mem, g, s, {v}, free)
    ensures v in g.spaces[s].leaf ==> v / ENTRIES in g.spaces[s].low
  {
    hide Inv, Shrunk;
    OnlyUser(mem, freelist, g, s, v);
    UserIsLeaf(mem, freelist, g, s);
    LeafHasTable(mem, freelist, g, s, v);
    if v !in g.spaces[s].leaf {
      ShrunkNothing(mem, g, s, {v}, free);
    }
  }

  lemma LeafHasTable(mem: seq<Page>, freelist: seq<nat>, g: Ghosts, s: nat, v: nat)
    requires Inv(mem, freelist, g) && s in g.spaces
    ensures v in g.spaces[s].leaf ==> v / ENTRIES in g.spaces[s].low
  {
    hide Inv, Level2, Level1, Level0;
    TablePages(mem, freelist, g, s);
    if v in g.spaces[s].leaf {
      LeafInTable(mem, g.spaces[s].low, g.spaces[s].leaf, v);
    }
  }

  lemma LeafInTable(mem: seq<Page>, low: map<nat, nat>, leaf: map<nat, nat>, v: nat)
    requires Level0(mem, low, leaf) && v in leaf
    ensures v / ENTRIES in low
  {
    assert Slot0(mem, low, v) == leaf[v];
  }

  /** What remains to be unmapped is as it was. */
  lemma ShrunkKeeps(mem: seq<Page>, g: Ghosts, mem': seq<Page>, g': Ghosts, s: nat, dom: set<nat>, free: bool)
    requires Shrunk(mem, g, mem', g', s, dom, free)
    ensures s in g'.spaces && g'.spaces[s].root == g.spaces[s].root
    ensures forall v :: v !in dom ==> (v in g'.spaces[s].leaf <==> v in g.spaces[s].leaf) && (v in g'.spaces[s].user <==> v in g.spaces[s].user)
  {
  }

  lemma UnmapEffect(m0: seq<Page>, g0: Ghosts, s: nat, v: nat, free: bool, t: nat, i: nat, mem: seq<Page>, g: Ghosts)
    requires |g0.role| == |m0| && s in g0.spaces && v in g0.spaces[s].leaf
    requires t < |m0| && i < |m0[t]| && g0.role[t] == Low(s, v / ENTRIES)
    requires free ==> v in g0.spaces[s].user && g0.spaces[s].user[v] < |m0| && g0.role[g0.spaces[s].user[v]] == User(s, v)
    requires free ==> forall p :: 0 <= p < |m0| && g0.role[p] == User(s, v) ==> p == g0.spaces[s].user[v]
    requires !free ==> v !in g0.spaces[s].user && mem == Put(m0, t, i, 0) && g == WithLeaf(g0, s, v, 0)
    requires free ==>
      var p := g0.spaces[s].user[v];
      mem == Put(m0[p := JUNKFREE], t, i, 0) && g == WithLeaf(WithRole(Disowned(g0, s, v), p, Free), s, v, 0)
    ensures Shrunk(m0, g0, mem, g, s, {v}, free)
  {
  }

  /** Owned pages are mapped. */
  lemma UserIsLeaf(mem: seq<Page>, freelist: seq<nat>, g: Ghosts, s: nat)
    requires Inv(mem, freelist, g) && s in g.spaces
    ensures forall v :: v in g.spaces[s].user ==> v in g.spaces[s].leaf
  {
    TablePages(mem, freelist, g, s);
  }

  /** The walked-to entry is valid exactly when the page is mapped. */
  lemma LeafEntry(mem: seq<Page>, freelist: seq<nat>, g: Ghosts, s: nat, v: nat)
    requires Inv(mem, freelist, g) && s in g.spaces && v / ENTRIES in g.spaces[s].low
    ensures
      var t := g.spaces[s].low[v / ENTRIES];
      && t < |mem| == |g.role| && |mem[t]| == ENTRIES && g.role[t] == Low(s, v / ENTRIES)
      && (IsValid(mem[t][v % ENTRIES]) <==> v in g.spaces[s].leaf)
      && (v in g.spaces[s].leaf ==> mem[t][v % ENTRIES] == g.spaces[s].leaf[v])
  {
    TablePages(mem, freelist, g, s);
    assert Slot0(mem, g.spaces[s].low, v) == mem[g.spaces[s].low[v / ENTRIES]][v % ENTRIES];
  }

  lemma GrewByLeaf(mem: seq<Page>, g: Ghosts, s: nat, v: nat, e: nat, t: nat, i: nat)
    requires |g.role| == |mem| && s in g.spaces && t < |mem| && i < |mem[t]| && g.role[t] == Low(s, v / ENTRIES)
    ensures Grew(mem, g, Put(mem, t, i, e), WithLeaf(g, s, v, e), s)
  {
  }

  lemma GrewHas(mem: seq<Page>, g: Ghosts, mem': seq<Page>, g': Ghosts, s: nat)
    requires Grew(mem, g, mem', g', s)
    ensures s in g.spaces && s in g'.spaces
    ensures g'.spaces[s].root == g.spaces[s].root && g'.spaces[s].user == g.spaces[s].user
  {
  }

  lemma PageAfter(va: nat, n: nat, k: nat)
    requires va % PGSIZE == 0 && k < n && va + n * PGSIZE <= MAXVA
    ensures (va + k * PGSIZE) / PGSIZE == va / PGSIZE + k && va + k * PGSIZE < MAXVA
  {
  }

  /** Virtual pages v .. v+n-1 mapped to consecutive physical pages with the given flags. */
  ghost function Range(v: nat, n: nat, page: nat, flags: nat): (m: map<nat, nat>)
    ensures forall u :: u in m <==> v <= u < v + n
    ensures forall u :: v <= u < v + n ==> m[u] == Pte(page + (u - v), flags)
  {
    if n == 0 then map[] else Range(v, n - 1, page, flags)[v + n - 1 := Pte(page + n - 1, flags)]
  }

  lemma RangeMore(leaf: map<nat, nat>, v: nat, n: nat, page: nat, flags: nat)
    ensures leaf + Range(v, 0, page, flags) == leaf
    ensures (leaf + Range(v, n, page, flags))[v + n := Pte(page + n, flags)] == leaf + Range(v, n + 1, page, flags)
    ensures v + n !in leaf ==> v + n !in leaf + Range(v, n, page, flags)
  {
    hide Pte;
  }

  /** perm | PTE_V. */
  function WithV(perm: nat): (f: nat)
    ensures f % 2 == 1 && f / 2 == perm / 2 && (perm < 1024 ==> f < 1024)
  {
    if perm % 2 == 1 then perm else perm + 1
  }

  /** The entry is valid, names the page, and has exactly the permission bits of perm. */
  predicate Carries(e: nat, page: nat, perm: nat) {
    e % 2 == 1 && e / 2 == 512 * page + perm / 2
  }

  /** Virtual pages v .. v+n-1 are mapped to consecutive physical pages with the permission bits of perm. */
  ghost predicate AllCarry(leaf: map<nat, nat>, v: nat, n: nat, page: nat, perm: nat) {
    forall u :: v <= u < v + n ==> u in leaf && Carries(leaf[u], page + (u - v), perm)
  }

  lemma EntryBits(page: nat, perm: nat)
    ensures Carries(Pte(page, WithV(perm)), page, perm)
  {
    var x := 512 * page + perm / 2;
    assert Pte(page, WithV(perm)) == 2 * x + 1 by {
      assert WithV(perm) == 2 * (perm / 2) + 1;
    }
    assert (2 * x + 1) / 2 == x;
  }

  lemma RangeCarries(leaf: map<nat, nat>, v: nat, n: nat, page: nat, perm: nat)
    ensures AllCarry(leaf + Range(v, n, page, WithV(perm)), v, n, page, perm)
  {
    hide Pte, WithV, Carries;
    forall u | v <= u < v + n
      ensures Carries((leaf + Range(v, n, page, WithV(perm)))[u], page + (u - v), perm)
    {
      EntryBits(page + (u - v), perm);
    }
  }

  /** A virtual page's entry carries a permission bit exactly when it was asked for. */
  lemma CarriedBits(e: nat, page: nat, perm: nat)
    requires Carries(e, page, perm) && perm < 1024
    ensures IsValid(e) && PageOf(e) == page
    ensures HasR(e) == HasR(perm) && HasW(e) == HasW(perm) && HasX(e) == HasX(perm) && HasU(e) == HasU(perm)
  {
    PageCarried(e, page, perm);
    Quotients(e);
    Quotients(perm);
    Halved(e / 2, perm / 2, 128 * page);
    Halved(e / 4, perm / 4, 64 * page);
    Halved(e / 8, perm / 8, 32 * page);
    Halved(e / 16, perm / 16, 16 * page);
  }

  lemma PageCarried(e: nat, page: nat, perm: nat)
    requires e / 2 == 512 * page + perm / 2 && perm < 1024
    ensures PageOf(e) == page
  {
    var x := perm / 2;
    assert 0 <= x < 512 && 1024 * page + 2 * x <= e < 1024 * page + 2 * x + 2;
  }

  lemma Quotients(e: nat)
    ensures e / 4 == e / 2 / 2 && e / 8 == e / 4 / 2 && e / 16 == e / 8 / 2
  {
  }

  lemma Halved(q: nat, r: nat, m: nat)
    requires q == 4 * m + r
    ensures q % 2 == r % 2 && q / 2 == 2 * m + r / 2
  {
  }

  /** What the entry consulted at a level says. */
  lemma TableEntry(mem: seq<Page>, freelist: seq<nat>, g: Ghosts, s: nat, level: nat, v: nat, table: nat)
    requires Inv(mem, freelist, g) && s in g.spaces && 1 <= level <= 2 && AtLevel(g.spaces[s], level, v, table)
    requires v < MAXVPN
    ensures table < |mem| && |mem[table]| == ENTRIES && OwnedBy(g.role[table], s) && !g.role[table].User?
    ensures
      var i := if level == 2 then v / ENTRIES / ENTRIES else v / ENTRIES % ENTRIES;
      && i < ENTRIES
      && (IsValid(mem[table][i]) ==> AtLevel(g.spaces[s], level - 1, v, PageOf(mem[table][i])))
      && (!IsValid(mem[table][i]) ==> if level == 2 then i !in g.spaces[s].mid else v / ENTRIES !in g.spaces[s].low)
      && (!IsValid(mem[table][i]) ==> v / ENTRIES !in g.spaces[s].low)
  {
    if level == 2 {
      RootEntry(mem, freelist, g, s, v);
    } else {
      MidEntry(mem, freelist, g, s, v);
    }
  }

  lemma RootEntry(mem: seq<Page>, freelist: seq<nat>, g: Ghosts, s: nat, v: nat)
    requires Inv(mem, freelist, g) && s in g.spaces && v < MAXVPN
    ensures
      var t, i := g.spaces[s].root, v / ENTRIES / ENTRIES;
      && t < |mem| == |g.role| && |mem[t]| == ENTRIES && OwnedBy(g.role[t], s) && !g.role[t].User? && i < ENTRIES
      && (IsValid(mem[t][i]) ==> AtLevel(g.spaces[s], 1, v, PageOf(mem[t][i])))
      && (!IsValid(mem[t][i]) ==> i !in g.spaces[s].mid && v / ENTRIES !in g.spaces[s].low)
  {
    TablePages(mem, freelist, g, s);
    hide Inv, Level2, Level1, Level0, UserPages, IsValid, PageOf, Dir;
    var sp, i := g.spaces[s], v / ENTRIES / ENTRIES;
    RootSlot(mem, sp.root, sp.mid, i);
    if v / ENTRIES in sp.low {
      LowNeedsMid(mem, sp.mid, sp.low, v / ENTRIES);
    }
  }

  /** A level-2 entry names the level-1 table, if there is one. */
  lemma RootSlot(mem: seq<Page>, root: nat, mid: map<nat, nat>, i: nat)
    requires Level2(mem, root, mid) && root < |mem| && i < |mem[root]|
    ensures IsValid(mem[root][i]) <==> i in mid
    ensures i in mid ==> PageOf(mem[root][i]) == mid[i]
  {
    hide IsValid, PageOf, Dir;
    assert Entry(mem, root, i) == mem[root][i];
    if i in mid {
      Directory(mid[i]);
    }
  }

  lemma LowNeedsMid(mem: seq<Page>, mid: map<nat, nat>, low: map<nat, nat>, k: nat)
    requires Level1(mem, mid, low) && k in low
    ensures k / ENTRIES in mid
  {
    assert Slot1(mem, mid, k) == Dir(low[k]);
  }

  /** A level-1 entry names the level-0 table, if there is one. */
  lemma MidSlot(mem: seq<Page>, mid: map<nat, nat>, low: map<nat, nat>, k: nat)
    requires Level1(mem, mid, low) && k / ENTRIES in mid && mid[k / ENTRIES] < |mem| && |mem[mid[k / ENTRIES]]| == ENTRIES
    ensures IsValid(mem[mid[k / ENTRIES]][k % ENTRIES]) <==> k in low
    ensures k in low ==> PageOf(mem[mid[k / ENTRIES]][k % ENTRIES]) == low[k]
  {
    hide IsValid, PageOf, Dir;
    assert Slot1(mem, mid, k) == mem[mid[k / ENTRIES]][k % ENTRIES];
    if k in low {
      Directory(low[k]);
    }
  }

  lemma MidEntry(mem: seq<Page>, freelist: seq<nat>, g: Ghosts, s: nat, v: nat)
    requires Inv(mem, freelist, g) && s in g.spaces && v / ENTRIES / ENTRIES in g.spaces[s].mid
    ensures
      var t, i := g.spaces[s].mid[v / ENTRIES / ENTRIES], v / ENTRIES % ENTRIES;
      && t < |mem| == |g.role| && |mem[t]| == ENTRIES && OwnedBy(g.role[t], s) && !g.role[t].User?
      && (IsValid(mem[t][i]) ==> AtLevel(g.spaces[s], 0, v, PageOf(mem[t][i])))
      && (!IsValid(mem[t][i]) ==> v / ENTRIES !in g.spaces[s].low)
  {
    TablePages(mem, freelist, g, s);
    hide Inv, Level2, Level1, Level0, UserPages, IsValid, PageOf, Dir;
    MidSlot(mem, g.spaces[s].mid, g.spaces[s].low, v / ENTRIES);
  }

  /** A page taken from the free list and made a table of s, with one entry of another table of s written. */
  lemma GrewByTable(mem: seq<Page>, g: Ghosts, mem': seq<Page>, g': Ghosts, s: nat, p: nat, t: nat, page: Page)
    requires |g.role| == |mem| && s in g.spaces && p < |mem| && g.role[p] == Free
    requires t < |mem| && OwnedBy(g.role[t], s) && !g.role[t].User?
    requires mem' == mem[p := ZEROPAGE][t := page]
    requires
      || (exists i :: i !in g.spaces[s].mid && g' == WithMid(g, s, i, p))
      || (exists k :: k !in g.spaces[s].low && g' == WithLow(g, s, k, p))
    ensures Grew(mem, g, mem', g', s)
  {
  }
}
