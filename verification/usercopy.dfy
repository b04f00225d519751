/** Copying between the kernel and user memory (kernel/vm.c). */
module UserCopy {
  import opened PageTable
  import opened Vm
  import opened UserVm
  import opened FreeVm
  import opened Wrappers

  // ----- Bytes of a page -----

  /** Byte k of a word. */
  function WordByte(w: nat, k: nat): nat {
    if k == 0 then w % 256 else WordByte(w / 256, k - 1)
  }

  function SetWordByte(w: nat, k: nat, x: nat): nat {
    if k == 0 then w / 256 * 256 + x else w % 256 + 256 * SetWordByte(w / 256, k - 1, x)
  }

  lemma {:induction false} WordBytes(w: nat, k: nat, x: nat, j: nat)
    requires x < 256
    ensures WordByte(SetWordByte(w, k, x), j) == if j == k then x else WordByte(w, j)
  {
    if k > 0 && j > 0 {
      WordBytes(w / 256, k - 1, x, j - 1);
      assert SetWordByte(w, k, x) / 256 == SetWordByte(w / 256, k - 1, x);
    } else if k == 0 && j > 0 {
      assert SetWordByte(w, k, x) / 256 == w / 256;
    }
  }

  lemma {:induction false} ZeroByte(k: nat)
    ensures WordByte(0, k) == 0
  {
    if k > 0 {
      ZeroByte(k - 1);
    }
  }

  /** Byte o of a page. */
  function PageByte(page: Page, o: nat): nat
    requires |page| == ENTRIES && o < PGSIZE
  {
    WordByte(page[o / 8], o % 8)
  }

  function SetByte(page: Page, o: nat, x: nat): (r: Page)
    requires |page| == ENTRIES && o < PGSIZE
    ensures |r| == ENTRIES
  {
    page[o / 8 := SetWordByte(page[o / 8], o % 8, x)]
  }

  predicate Bytes(s: seq<nat>) {
    forall k :: 0 <= k < |s| ==> s[k] < 256
  }

  /** memmove into a page. */
  function Patched(page: Page, o: nat, src: seq<nat>): (r: Page)
    requires |page| == ENTRIES && o + |src| <= PGSIZE
    ensures |r| == ENTRIES
  {
    if src == [] then page
    else
      var n := |src| - 1;
      SetByte(Patched(page, o, src[..n]), o + n, src[n])
  }

  lemma SetByteBytes(page: Page, o: nat, x: nat, k: nat)
    requires |page| == ENTRIES && o < PGSIZE && k < PGSIZE && x < 256
    ensures PageByte(SetByte(page, o, x), k) == if k == o then x else PageByte(page, k)
  {
    if k / 8 == o / 8 {
      WordBytes(page[o / 8], o % 8, x, k % 8);
    }
  }

  lemma {:induction false} PatchedBytes(page: Page, o: nat, src: seq<nat>, k: nat)
    requires |page| == ENTRIES && o + |src| <= PGSIZE && k < PGSIZE && Bytes(src)
    ensures PageByte(Patched(page, o, src), k) == if o <= k < o + |src| then src[k - o] else PageByte(page, k)
  {
    hide PageByte, SetByte;
    if src != [] {
      var n := |src| - 1;
      PatchedBytes(page, o, src[..n], k);
      SetByteBytes(Patched(page, o, src[..n]), o + n, src[n], k);
    }
  }

  function ReadBytes(page: Page, o: nat, n: nat): (r: seq<nat>)
    requires |page| == ENTRIES && o + n <= PGSIZE
    ensures |r| == n && forall k :: 0 <= k < n ==> r[k] == PageByte(page, o + k)
  {
    if n == 0 then [] else ReadBytes(page, o, n - 1) + [PageByte(page, o + n - 1)]
  }

  // ----- The bytes of an address space -----

  /** Byte o of virtual page v; a page not there yet reads as zeros. */
  ghost function OnPage(mem: seq<Page>, sp: Space, v: nat, o: nat): nat {
    if v in sp.user && sp.user[v] < |mem| && |mem[sp.user[v]]| == ENTRIES && o < PGSIZE then PageByte(mem[sp.user[v]], o) else 0
  }

  /** The byte at va. */
  ghost function ByteAt(mem: seq<Page>, sp: Space, va: nat): nat {
    OnPage(mem, sp, va / PGSIZE, va % PGSIZE)
  }

  /** Pages mapped for the user are owned by the address space. */
  ghost predicate UserOwned(sp: Space) {
    forall v :: v in sp.leaf && HasU(sp.leaf[v]) ==> v in sp.user
  }

  ghost predicate SameBytes(m0: seq<Page>, sp0: Space, m1: seq<Page>, sp1: Space) {
    forall v: nat, o: nat :: OnPage(m1, sp1, v, o) == OnPage(m0, sp0, v, o)
  }

  /** Only address space s changed, and of its translations only new ones below sz, to pages of their own. */
  ghost predicate OnlyFaults(m0: seq<Page>, g0: Ghosts, m1: seq<Page>, g1: Ghosts, s: nat, sz: nat) {
    && s in g0.spaces && s in g1.spaces && OnlySpace(g0.spaces, g1.spaces, s) && OthersKept(m0, g0.role, m1, g1.role, s)
    && g1.spaces[s].root == g0.spaces[s].root
    && Extends(g0.spaces[s].leaf, g1.spaces[s].leaf) && UserOwned(g1.spaces[s])
    && forall v :: v in g1.spaces[s].leaf && v !in g0.spaces[s].leaf ==>
         v * PGSIZE < sz && HasU(g1.spaces[s].leaf[v]) && HasW(g1.spaces[s].leaf[v])
  }

  lemma NoFaults(m: seq<Page>, g: Ghosts, s: nat, sz: nat)
    requires s in g.spaces && |g.role| == |m| && UserOwned(g.spaces[s])
    ensures OnlyFaults(m, g, m, g, s, sz)
  {
  }

  lemma FaultsTrans(m0: seq<Page>, g0: Ghosts, m1: seq<Page>, g1: Ghosts, m2: seq<Page>, g2: Ghosts, s: nat, sz: nat)
    requires OnlyFaults(m0, g0, m1, g1, s, sz) && OnlyFaults(m1, g1, m2, g2, s, sz)
    ensures OnlyFaults(m0, g0, m2, g2, s, sz)
  {
    hide UserOwned, HasU, HasW;
  }

  lemma FaultFlags(p: nat)
    ensures HasU(Pte(p, WithV(PTE_W + PTE_U + PTE_R))) && HasW(Pte(p, WithV(PTE_W + PTE_U + PTE_R)))
  {
    OddSixteenths(p * 1024 + 23, 32 * p);
    OddQuarters(p * 1024 + 23, 128 * p + 2);
  }

  lemma OddSixteenths(e: nat, h: nat)
    requires 16 * (2 * h + 1) <= e < 16 * (2 * h + 2)
    ensures e / 16 % 2 == 1
  {
  }

  lemma OddQuarters(e: nat, h: nat)
    requires 4 * (2 * h + 1) <= e < 4 * (2 * h + 2)
    ensures e / 4 % 2 == 1
  {
  }

  /** Every page of the address space is as before, or new and zero. */
  lemma BytesStay(m0: seq<Page>, role: seq<Role>, sp0: Space, m1: seq<Page>, sp1: Space, s: nat)
    requires ContentsKept(m0, role, m1, s) && Extends(sp0.user, sp1.user)
    requires forall v :: v in sp0.user ==> sp0.user[v] < |role| && role[sp0.user[v]] == User(s, v)
    requires forall v :: v in sp1.user && v !in sp0.user ==> sp1.user[v] < |m1| && m1[sp1.user[v]] == ZEROPAGE
    ensures SameBytes(m0, sp0, m1, sp1)
  {
    hide PageByte;
    forall v: nat, o: nat
      ensures OnPage(m1, sp1, v, o) == OnPage(m0, sp0, v, o)
    {
      if v in sp0.user {
        assert m1[sp0.user[v]] == m0[sp0.user[v]];
      } else if v in sp1.user && o < PGSIZE {
        ZeroPageByte(o);
      }
    }
  }

  lemma OthersStay(m0: seq<Page>, role0: seq<Role>, m1: seq<Page>, role1: seq<Role>, s: nat, dom: set<nat>)
    requires RolesGrewBy(role0, role1, s, dom) && ContentsKept(m0, role0, m1, s)
    ensures OthersKept(m0, role0, m1, role1, s)
  {
  }

  lemma StillOwned(sp0: Space, sp1: Space)
    requires UserOwned(sp0) && Extends(sp0.leaf, sp1.leaf) && Extends(sp0.user, sp1.user)
    requires forall v :: v in sp1.leaf && v !in sp0.leaf ==> v in sp1.user
    ensures UserOwned(sp1)
  {
    hide HasU;
  }

  /** A page of zeros appears where there was none. */
  lemma FaultKeeps(m0: seq<Page>, freelist: seq<nat>, g0: Ghosts, m1: seq<Page>, g1: Ghosts, s: nat, sz: nat, v: nat)
    requires Inv(m0, freelist, g0) && s in g0.spaces && UserOwned(g0.spaces[s]) && v * PGSIZE < sz
    requires GrewBy(m0, g0, m1, g1, s, map[v := Fresh(WithV(PTE_W + PTE_U + PTE_R), ZEROPAGE)])
    ensures OnlyFaults(m0, g0, m1, g1, s, sz) && SameBytes(m0, g0.spaces[s], m1, g1.spaces[s])
  {
    hide *;
    FaultParts(m0, g0, m1, g1, s, v);
    var sp0, sp1 := g0.spaces[s], g1.spaces[s];
    UserRoles(m0, freelist, g0, s);
    BytesStay(m0, g0.role, sp0, m1, sp1, s);
    OthersStay(m0, g0.role, m1, g1.role, s, {v});
    StillOwned(sp0, sp1);
    FaultsAre(m0, g0, m1, g1, s, sz);
  }

  lemma FaultParts(m0: seq<Page>, g0: Ghosts, m1: seq<Page>, g1: Ghosts, s: nat, v: nat)
    requires GrewBy(m0, g0, m1, g1, s, map[v := Fresh(WithV(PTE_W + PTE_U + PTE_R), ZEROPAGE)])
    ensures s in g0.spaces && s in g1.spaces && OnlySpace(g0.spaces, g1.spaces, s)
    ensures RolesGrewBy(g0.role, g1.role, s, {v}) && ContentsKept(m0, g0.role, m1, s)
    ensures
      var sp0, sp1 := g0.spaces[s], g1.spaces[s];
      && sp1.root == sp0.root && Extends(sp0.leaf, sp1.leaf) && Extends(sp0.user, sp1.user)
      && (forall u :: u in sp1.user && u !in sp0.user ==> sp1.user[u] < |m1| && m1[sp1.user[u]] == ZEROPAGE)
      && (forall u :: u in sp1.leaf && u !in sp0.leaf ==> u == v && u in sp1.user && HasU(sp1.leaf[u]) && HasW(sp1.leaf[u]))
  {
    var f := Fresh(WithV(PTE_W + PTE_U + PTE_R), ZEROPAGE);
    assert map[v := f].Keys == {v} && v in map[v := f];
    assert FreshPage(m1, g0.role, g1.spaces[s], v, f);
    FaultFlags(g1.spaces[s].user[v]);
    hide HasU, HasW, WithV, Pte, RolesGrewBy, ContentsKept;
  }

  lemma FaultsAre(m0: seq<Page>, g0: Ghosts, m1: seq<Page>, g1: Ghosts, s: nat, sz: nat)
    requires s in g0.spaces && s in g1.spaces && OnlySpace(g0.spaces, g1.spaces, s) && OthersKept(m0, g0.role, m1, g1.role, s)
    requires g1.spaces[s].root == g0.spaces[s].root && Extends(g0.spaces[s].leaf, g1.spaces[s].leaf) && UserOwned(g1.spaces[s])
    requires forall u :: u in g1.spaces[s].leaf && u !in g0.spaces[s].leaf ==>
      u * PGSIZE < sz && HasU(g1.spaces[s].leaf[u]) && HasW(g1.spaces[s].leaf[u])
    ensures OnlyFaults(m0, g0, m1, g1, s, sz)
  {
  }

  lemma ZeroPageByte(o: nat)
    requires o < PGSIZE
    ensures PageByte(ZEROPAGE, o) == 0
  {
    ZeroByte(o % 8);
  }

  /** A failed fault may leave tables behind and nothing else. */
  lemma NoFaultKeeps(m0: seq<Page>, freelist: seq<nat>, g0: Ghosts, m1: seq<Page>, g1: Ghosts, s: nat, sz: nat)
    requires Inv(m0, freelist, g0) && s in g0.spaces && UserOwned(g0.spaces[s])
    requires Grew(m0, g0, m1, g1, s) && g1.spaces[s].leaf == g0.spaces[s].leaf
    ensures OnlyFaults(m0, g0, m1, g1, s, sz) && SameBytes(m0, g0.spaces[s], m1, g1.spaces[s])
  {
    UserRoles(m0, freelist, g0, s);
    hide Inv, HasU, HasW, ContentsKept, UserOwned, SameBytes, OthersKept;
    BytesStay(m0, g0.role, g0.spaces[s], m1, g1.spaces[s], s);
    OthersStay(m0, g0.role, m1, g1.role, s, {});
    StillOwned(g0.spaces[s], g1.spaces[s]);
  }

  // ----- walkaddr -----

  /** walkaddr: the page behind a virtual page that is mapped for the user. */
  method Walkaddr(m: Memory, root: nat, va: nat, ghost s: nat) returns (r: Option<nat>)
    requires m.Valid() && s in m.g.spaces && m.g.spaces[s].root == root
    modifies m
    ensures m.mem == old(m.mem) && m.freelist == old(m.freelist) && m.g == old(m.g)
    ensures r.Some? <==> va < MAXVA && va / PGSIZE in m.g.spaces[s].leaf && HasU(m.g.spaces[s].leaf[va / PGSIZE])
    ensures r.Some? ==> r.value == PageOf(m.g.spaces[s].leaf[va / PGSIZE])
  {
    hide Inv, Grew, HasU, PageOf;
    if va >= MAXVA {
      return None;
    }
    LeafHasTable(m.mem, m.freelist, m.g, s, va / PGSIZE);
    var slot := m.Walk(root, va, false, s);
    if slot.None? {
      return None;
    }
    LeafEntry(m.mem, m.freelist, m.g, s, va / PGSIZE);
    var e := m.mem[slot.value.table][slot.value.index];
    if !IsValid(e) || !HasU(e) {
      return None;
    }
    r := Some(PageOf(e));
  }

  /** A page the copy loops can use: mapped for the user, or below the size and not there yet. */
  ghost predicate Usable(sp: Space, sz: nat, v: nat) {
    if v in sp.leaf then v < MAXVPN && HasU(sp.leaf[v]) else v * PGSIZE < sz
  }

  /** The page of an address, faulted in if need be. */
  method PageFor(m: Memory, root: nat, va: nat, sz: nat, ghost s: nat) returns (r: Option<nat>)
    requires m.Valid() && s in m.g.spaces && m.g.spaces[s].root == root && sz <= MAXVA && UserOwned(m.g.spaces[s]) && va % PGSIZE == 0
    modifies m
    ensures m.Valid() && OnlyFaults(old(m.mem), old(m.g), m.mem, m.g, s, sz)
    ensures SameBytes(old(m.mem), old(m.g.spaces[s]), m.mem, m.g.spaces[s])
    ensures r.Some? ==> Usable(old(m.g.spaces[s]), sz, va / PGSIZE) && va < MAXVA
    ensures r.Some? ==> va / PGSIZE in m.g.spaces[s].user && m.g.spaces[s].user[va / PGSIZE] == r.value
    ensures va / PGSIZE in old(m.g.spaces[s].leaf) ==>
      && m.mem == old(m.mem) && m.g == old(m.g) && m.freelist == old(m.freelist)
      && (r.Some? <==> Usable(m.g.spaces[s], sz, va / PGSIZE))
    ensures r.None? ==> !Usable(old(m.g.spaces[s]), sz, va / PGSIZE) || |m.freelist| <= 1
    ensures forall v :: v in m.g.spaces[s].leaf && v !in old(m.g.spaces[s].leaf) ==> v == va / PGSIZE
  {
    hide Inv, Grew, GrewBy, HasU, HasW, PageOf, SameBytes, OnlyFaults, UserOwned;
    ghost var m0, fl0, g0 := m.mem, m.freelist, m.g;
    SameSize(m0, fl0, g0);
    NoFaults(m0, g0, s, sz);
    BytesRefl(m0, g0.spaces[s]);
    PageBound(va);
    r := Walkaddr(m, root, va, s);
    if r.Some? {
      Owned(m.mem, m.freelist, m.g, s, va / PGSIZE);
      return;
    }
    r := Vmfault(m, root, va, sz, s);
    if r.Some? {
      FaultKeeps(m0, fl0, g0, m.mem, m.g, s, sz, va / PGSIZE);
      GrownRange(m0, g0, m.mem, m.g, s, map[va / PGSIZE := Fresh(WithV(PTE_W + PTE_U + PTE_R), ZEROPAGE)]);
    } else {
      NoFaultKeeps(m0, fl0, g0, m.mem, m.g, s, sz);
    }
  }

  lemma BytesRefl(mem: seq<Page>, sp: Space)
    ensures SameBytes(mem, sp, mem, sp)
  {
  }

  lemma PageBound(va: nat)
    requires va % PGSIZE == 0
    ensures va / PGSIZE * PGSIZE == va && (va < MAXVA <==> va / PGSIZE < MAXVPN)
  {
  }

  lemma Owned(mem: seq<Page>, freelist: seq<nat>, g: Ghosts, s: nat, v: nat)
    requires Inv(mem, freelist, g) && s in g.spaces && UserOwned(g.spaces[s]) && v in g.spaces[s].leaf && HasU(g.spaces[s].leaf[v])
    ensures v in g.spaces[s].user && g.spaces[s].user[v] == PageOf(g.spaces[s].leaf[v])
  {
    hide Inv;
    OwnedEntry(mem, freelist, g, s, v);
  }

  lemma PageThere(mem: seq<Page>, freelist: seq<nat>, g: Ghosts, s: nat, v: nat)
    requires Inv(mem, freelist, g) && s in g.spaces && v in g.spaces[s].user
    ensures g.spaces[s].user[v] < |mem| == |g.role| && |mem[g.spaces[s].user[v]]| == ENTRIES && g.role[g.spaces[s].user[v]] == User(s, v)
    ensures v in g.spaces[s].leaf
  {
    UserRoles(mem, freelist, g, s);
    OwnedEntry(mem, freelist, g, s, v);
  }

  /** Page v holds some of the n bytes from va on. */
  predicate Touches(va: nat, n: nat, v: nat) {
    n > 0 && va / PGSIZE <= v && v * PGSIZE < va + n
  }

  /** All pages of the n bytes from va on are usable. */
  ghost predicate AllUsable(sp: Space, sz: nat, va: nat, n: nat) {
    forall v :: Touches(va, n, v) ==> Usable(sp, sz, v)
  }

  ghost predicate ForUser(sp: Space, v: nat) {
    v in sp.leaf && v < MAXVPN && HasU(sp.leaf[v])
  }

  /** All pages of the n bytes from va on are mapped for the user. */
  ghost predicate AllMapped(sp: Space, va: nat, n: nat) {
    forall v :: Touches(va, n, v) ==> ForUser(sp, v)
  }

  lemma TouchesPage(va: nat, n: nat, k: nat)
    requires k < n
    ensures Touches(va, n, (va + k) / PGSIZE)
  {
  }

  lemma TouchesMore(va: nat, t: nat, n: nat, v: nat)
    requires Touches(va, t + Chunk(va + t, n), v)
    ensures Touches(va, t, v) || v == (va + t) / PGSIZE
  {
    ChunkFits(va + t, n);
  }

  /** The part of n bytes from va on that lies in va's page. */
  function Chunk(va: nat, n: nat): (c: nat)
    ensures c <= n && va % PGSIZE + c <= PGSIZE && (n > 0 ==> c > 0) && (c < n ==> (va + c) % PGSIZE == 0)
  {
    var c := PGSIZE - va % PGSIZE;
    if c > n then n else c
  }

  lemma InChunk(va: nat, n: nat, k: nat)
    requires k < Chunk(va, n)
    ensures (va + k) / PGSIZE == va / PGSIZE && (va + k) % PGSIZE == va % PGSIZE + k
  {
  }

  // ----- copyin -----

  ghost predicate IsCopy(mem: seq<Page>, sp: Space, va: nat, dst: seq<nat>) {
    forall k :: 0 <= k < |dst| ==> dst[k] == ByteAt(mem, sp, va + k)
  }

  lemma CopyMore(m0: seq<Page>, sp0: Space, m1: seq<Page>, sp1: Space, va: nat, dst: seq<nat>, more: seq<nat>)
    requires IsCopy(m0, sp0, va, dst) && SameBytes(m0, sp0, m1, sp1) && (va + |dst|) % PGSIZE + |more| <= PGSIZE
    requires forall k :: 0 <= k < |more| ==> more[k] == OnPage(m1, sp1, (va + |dst|) / PGSIZE, (va + |dst|) % PGSIZE + k)
    ensures IsCopy(m0, sp0, va, dst + more)
  {
    hide OnPage;
    var at := va + |dst|;
    forall k | 0 <= k < |dst + more|
      ensures (dst + more)[k] == ByteAt(m0, sp0, va + k)
    {
      if k >= |dst| {
        WithinPage(at, |more|, k - |dst|);
      }
    }
  }

  lemma WithinPage(va: nat, c: nat, k: nat)
    requires va % PGSIZE + c <= PGSIZE && k < c
    ensures (va + k) / PGSIZE == va / PGSIZE && (va + k) % PGSIZE == va % PGSIZE + k
  {
  }

  /** What memmove reads from a page of the address space. */
  lemma ReadOn(mem: seq<Page>, sp: Space, v: nat, o: nat, n: nat)
    requires v in sp.user && sp.user[v] < |mem| && |mem[sp.user[v]]| == ENTRIES && o + n <= PGSIZE
    ensures |ReadBytes(mem[sp.user[v]], o, n)| == n
    ensures forall k :: 0 <= k < n ==> ReadBytes(mem[sp.user[v]], o, n)[k] == OnPage(mem, sp, v, o + k)
  {
    hide PageByte;
  }

  /** copyin: the bytes the user sees. Pages not there yet are faulted in, which changes no byte. */
  method Copyin(m: Memory, root: nat, srcva: nat, len: nat, sz: nat, ghost s: nat) returns (ok: bool, dst: seq<nat>)
    requires m.Valid() && s in m.g.spaces && m.g.spaces[s].root == root && sz <= MAXVA && UserOwned(m.g.spaces[s])
    modifies m
    ensures m.Valid() && OnlyFaults(old(m.mem), old(m.g), m.mem, m.g, s, sz)
    ensures SameBytes(old(m.mem), old(m.g.spaces[s]), m.mem, m.g.spaces[s])
    ensures ok ==> |dst| == len && IsCopy(old(m.mem), old(m.g.spaces[s]), srcva, dst)
    ensures ok ==> AllUsable(old(m.g.spaces[s]), sz, srcva, len)
    ensures AllMapped(old(m.g.spaces[s]), srcva, len) ==> ok && m.mem == old(m.mem) && m.g == old(m.g)
    ensures !ok ==> !AllUsable(old(m.g.spaces[s]), sz, srcva, len) || |m.freelist| <= 1
    ensures FaultsIn(old(m.g.spaces[s]), m.g.spaces[s], srcva, len)
  {
    hide FaultsIn, Inv, SameBytes, OnlyFaults, UserOwned, IsCopy, ReadBytes, AllUsable, AllMapped, Usable;
    ghost var m0, fl0, g0, sp0 := m.mem, m.freelist, m.g, m.g.spaces[s];
    SameSize(m0, fl0, g0);
    NoFaults(m0, g0, s, sz);
    BytesRefl(m0, sp0);
    NothingCopied(m0, sp0, sz, srcva);
    NoFaultIn(sp0, srcva, len);
    dst, ok := [], false;
    var va: nat, left: nat := srcva, len;
    while left > 0
      invariant va == srcva + |dst| && |dst| + left == len && m.Valid() && s in m.g.spaces && m.g.spaces[s].root == root
      invariant UserOwned(m.g.spaces[s]) && OnlyFaults(m0, g0, m.mem, m.g, s, sz) && SameBytes(m0, sp0, m.mem, m.g.spaces[s])
      invariant IsCopy(m0, sp0, srcva, dst) && AllUsable(sp0, sz, srcva, |dst|)
      invariant AllMapped(sp0, srcva, len) ==> m.mem == m0 && m.g == g0
      invariant FaultsIn(sp0, m.g.spaces[s], srcva, len)
      decreases left
    {
      ghost var m1, g1 := m.mem, m.g;
      var va0 := va / PGSIZE * PGSIZE;
      RoundDown(va);
      Mapped(sp0, sz, srcva, len, |dst|);
      StillUsable(m0, g0, m1, g1, s, sz, srcva, len, |dst|);
      var pa := PageFor(m, root, va0, sz, s);
      FaultsTrans(m0, g0, m1, g1, m.mem, m.g, s, sz);
      FaultFacts(m0, g0, m.mem, m.g, s, sz);
      BytesTrans(m0, sp0, m1, g1.spaces[s], m.mem, m.g.spaces[s]);
      MoreFaultsIn(sp0, g1.spaces[s], m.g.spaces[s], srcva, len, |dst|);
      if pa.None? {
        return;
      }
      PageThere(m.mem, m.freelist, m.g, s, va / PGSIZE);
      var n := Chunk(va, left);
      ReadOn(m.mem, m.g.spaces[s], va / PGSIZE, va % PGSIZE, n);
      CopyMore(m0, sp0, m.mem, m.g.spaces[s], srcva, dst, ReadBytes(m.mem[pa.value], va % PGSIZE, n));
      MoreUsable(m0, g0, m1, g1, s, sz, srcva, |dst|, left);
      dst := dst + ReadBytes(m.mem[pa.value], va % PGSIZE, n);
      left := left - n;
      va := va + n;
    }
    ok := true;
  }

  lemma NothingCopied(mem: seq<Page>, sp: Space, sz: nat, va: nat)
    ensures IsCopy(mem, sp, va, []) && AllUsable(sp, sz, va, 0)
  {
  }

  lemma RoundDown(va: nat)
    ensures va / PGSIZE * PGSIZE % PGSIZE == 0 && va / PGSIZE * PGSIZE / PGSIZE == va / PGSIZE
  {
  }

  lemma Mapped(sp: Space, sz: nat, va: nat, n: nat, k: nat)
    requires k < n
    ensures AllMapped(sp, va, n) ==> (va + k) / PGSIZE in sp.leaf && Usable(sp, sz, (va + k) / PGSIZE)
  {
    hide HasU;
    TouchesPage(va, n, k);
  }

  lemma BytesTrans(m0: seq<Page>, sp0: Space, m1: seq<Page>, sp1: Space, m2: seq<Page>, sp2: Space)
    requires SameBytes(m0, sp0, m1, sp1) && SameBytes(m1, sp1, m2, sp2)
    ensures SameBytes(m0, sp0, m2, sp2)
  {
    hide OnPage;
  }

  lemma FaultFacts(m0: seq<Page>, g0: Ghosts, m1: seq<Page>, g1: Ghosts, s: nat, sz: nat)
    requires OnlyFaults(m0, g0, m1, g1, s, sz)
    ensures s in g1.spaces && s in g0.spaces && g1.spaces[s].root == g0.spaces[s].root && UserOwned(g1.spaces[s])
  {
  }

  /** Only pages that hold some of the n bytes from va on were faulted in. */
  ghost predicate FaultsIn(sp0: Space, sp1: Space, va: nat, n: nat) {
    forall v :: v in sp1.leaf && v !in sp0.leaf ==> Touches(va, n, v)
  }

  lemma NoFaultIn(sp: Space, va: nat, n: nat)
    ensures FaultsIn(sp, sp, va, n)
  {
  }

  lemma MoreFaultsIn(sp0: Space, sp1: Space, sp2: Space, va: nat, n: nat, t: nat)
    requires FaultsIn(sp0, sp1, va, n) && t < n
    requires forall v :: v in sp2.leaf && v !in sp1.leaf ==> v == (va + t) / PGSIZE
    ensures FaultsIn(sp0, sp2, va, n)
  {
    TouchesPage(va, n, t);
    hide Touches;
  }

  /** With everything usable before, the next page still is. */
  lemma StillUsable(m0: seq<Page>, g0: Ghosts, m1: seq<Page>, g1: Ghosts, s: nat, sz: nat, va: nat, n: nat, t: nat)
    requires OnlyFaults(m0, g0, m1, g1, s, sz) && sz <= MAXVA && t < n
    ensures AllUsable(g0.spaces[s], sz, va, n) ==> Usable(g1.spaces[s], sz, (va + t) / PGSIZE)
  {
    hide HasU, HasW, OthersKept, UserOwned;
    TouchesPage(va, n, t);
  }

  /** A page that is usable after some faults was usable before. */
  lemma MoreUsable(m0: seq<Page>, g0: Ghosts, m1: seq<Page>, g1: Ghosts, s: nat, sz: nat, va: nat, t: nat, left: nat)
    requires OnlyFaults(m0, g0, m1, g1, s, sz) && AllUsable(g0.spaces[s], sz, va, t)
    requires Usable(g1.spaces[s], sz, (va + t) / PGSIZE)
    ensures AllUsable(g0.spaces[s], sz, va, t + Chunk(va + t, left))
  {
    hide HasU, HasW, Chunk, UserOwned, OthersKept;
    forall v: nat | Touches(va, t + Chunk(va + t, left), v)
      ensures Usable(g0.spaces[s], sz, v)
    {
      TouchesMore(va, t, left, v);
    }
  }

  // ----- copyout -----

  /** The first t bytes of src are at va; every other byte is as before. */
  ghost predicate WroteBytes(m0: seq<Page>, sp0: Space, m1: seq<Page>, sp1: Space, va: nat, t: nat, src: seq<nat>)
    requires t <= |src|
  {
    forall v: nat, o: nat :: o < PGSIZE ==>
      OnPage(m1, sp1, v, o) == if va <= v * PGSIZE + o < va + t then src[v * PGSIZE + o - va] else OnPage(m0, sp0, v, o)
  }

  /** Writing into a user page keeps the whole-memory invariant and everything but that page. */
  lemma UserWriteKeeps(mem: seq<Page>, freelist: seq<nat>, g: Ghosts, s: nat, v: nat, page: Page, sz: nat)
    requires Inv(mem, freelist, g) && s in g.spaces && v in g.spaces[s].user && |page| == ENTRIES && UserOwned(g.spaces[s])
    ensures g.spaces[s].user[v] < |mem| && Inv(mem[g.spaces[s].user[v] := page], freelist, g)
    ensures OnlyFaults(mem, g, mem[g.spaces[s].user[v] := page], g, s, sz)
  {
    hide Inv, SpaceOk, RoleOk, FreeOk, UserOwned, OthersKept, OnlySpace, OnlyFaults;
    PageThere(mem, freelist, g, s, v);
    UserWriteSpace(mem, freelist, g, s, v, page);
    SameSize(mem, freelist, g);
    UserWriteOthers(mem, g.role, s, v, g.spaces[s].user[v], page);
    AllRoles(mem, freelist, g, s);
    var mem' := mem[g.spaces[s].user[v] := page];
    LocalChange(mem, freelist, g, mem', freelist, g, s);
    FaultsAre(mem, g, mem', g, s, sz);
  }

  lemma AllRoles(mem: seq<Page>, freelist: seq<nat>, g: Ghosts, s: nat)
    requires Inv(mem, freelist, g) && s in g.spaces
    ensures OnlySpace(g.spaces, g.spaces, s) && forall p :: 0 <= p < |g.role| ==> RoleOk(g, p)
  {
  }

  lemma UserWriteOthers(mem: seq<Page>, role: seq<Role>, s: nat, v: nat, p: nat, page: Page)
    requires |role| == |mem| && p < |mem| && role[p] == User(s, v)
    ensures OthersKept(mem, role, mem[p := page], role, s)
  {
  }

  lemma UserWriteSpace(mem: seq<Page>, freelist: seq<nat>, g: Ghosts, s: nat, v: nat, page: Page)
    requires Inv(mem, freelist, g) && s in g.spaces && v in g.spaces[s].user && g.spaces[s].user[v] < |mem| == |g.role|
    requires g.role[g.spaces[s].user[v]] == User(s, v)
    ensures SpaceOk(mem[g.spaces[s].user[v] := page], g.role, s, g.spaces[s])
  {
    hide Inv, Level2, Level1, Level0;
    var sp := g.spaces[s];
    var mem' := mem[sp.user[v] := page];
    TheSpace(mem, freelist, g, s);
    SameLevel2(mem, mem', sp.root, sp.mid);
    SameLevel1(mem, mem', sp.mid, sp.low);
    SameLevel0(mem, mem', sp.low, sp.leaf);
  }

  lemma TheSpace(mem: seq<Page>, freelist: seq<nat>, g: Ghosts, s: nat)
    requires Inv(mem, freelist, g) && s in g.spaces
    ensures SpaceOk(mem, g.role, s, g.spaces[s])
  {
  }

  lemma WroteMore(m0: seq<Page>, sp0: Space, m1: seq<Page>, m2: seq<Page>, sp: Space, role: seq<Role>, s: nat,
                  va: nat, t: nat, src: seq<nat>, c: nat)
    requires t + c <= |src| && WroteBytes(m0, sp0, m1, sp, va, t, src) && Bytes(src) && (va + t) % PGSIZE + c <= PGSIZE
    requires |m1| == |m2| == |role| && forall u :: u in sp.user ==> sp.user[u] < |role| && role[sp.user[u]] == User(s, u)
    requires (va + t) / PGSIZE in sp.user && |m1[sp.user[(va + t) / PGSIZE]]| == ENTRIES
    requires m2[sp.user[(va + t) / PGSIZE]] == Patched(m1[sp.user[(va + t) / PGSIZE]], (va + t) % PGSIZE, src[t..t + c])
    requires forall q :: 0 <= q < |m1| && q != sp.user[(va + t) / PGSIZE] ==> m2[q] == m1[q]
    ensures WroteBytes(m0, sp0, m2, sp, va, t + c, src)
  {
    hide Patched, OnPage;
    var at, v := va + t, (va + t) / PGSIZE;
    forall u: nat, o: nat | o < PGSIZE
      ensures OnPage(m2, sp, u, o) == if va <= u * PGSIZE + o < va + t + c then src[u * PGSIZE + o - va] else OnPage(m0, sp0, u, o)
    {
      assert OnPage(m1, sp, u, o) == if va <= u * PGSIZE + o < va + t then src[u * PGSIZE + o - va] else OnPage(m0, sp0, u, o);
      if u == v {
        PatchedOn(m1, m2, sp, v, at % PGSIZE, src[t..t + c], o);
        SamePage(at, v, o, c);
      } else {
        OtherPage(m1, m2, sp, role, s, v, u, o);
        NotInPage(at, c, u, o);
      }
    }
  }

  lemma PatchedOn(m1: seq<Page>, m2: seq<Page>, sp: Space, v: nat, o: nat, data: seq<nat>, k: nat)
    requires v in sp.user && sp.user[v] < |m1| == |m2| && |m1[sp.user[v]]| == ENTRIES && o + |data| <= PGSIZE && k < PGSIZE && Bytes(data)
    requires m2[sp.user[v]] == Patched(m1[sp.user[v]], o, data)
    ensures OnPage(m2, sp, v, k) == if o <= k < o + |data| then data[k - o] else OnPage(m1, sp, v, k)
  {
    PatchedBytes(m1[sp.user[v]], o, data, k);
    hide Patched, PageByte;
  }

  lemma ChunkFits(at: nat, n: nat)
    ensures Chunk(at, n) <= n && at % PGSIZE + Chunk(at, n) <= PGSIZE
  {
  }

  lemma SamePage(at: nat, v: nat, o: nat, c: nat)
    requires v == at / PGSIZE && o < PGSIZE
    ensures at % PGSIZE <= o < at % PGSIZE + c <==> at <= v * PGSIZE + o < at + c
    ensures o - at % PGSIZE == v * PGSIZE + o - at
  {
  }

  lemma NotInPage(at: nat, c: nat, u: nat, o: nat)
    requires u != at / PGSIZE && o < PGSIZE && at % PGSIZE + c <= PGSIZE
    ensures !(at <= u * PGSIZE + o < at + c)
  {
  }

  lemma OtherPage(m1: seq<Page>, m2: seq<Page>, sp: Space, role: seq<Role>, s: nat, v: nat, u: nat, o: nat)
    requires v in sp.user && sp.user[v] < |m1| == |m2| == |role| && u != v
    requires forall u :: u in sp.user ==> sp.user[u] < |role| && role[sp.user[u]] == User(s, u)
    requires forall q :: 0 <= q < |m1| && q != sp.user[v] ==> m2[q] == m1[q]
    ensures OnPage(m2, sp, u, o) == OnPage(m1, sp, u, o)
  {
    hide PageByte;
    if u in sp.user {
      assert role[sp.user[u]] != role[sp.user[v]];
    }
  }

  /** All pages of the n bytes from va on are mapped for the user to write. */
  ghost predicate AllWritable(sp: Space, va: nat, n: nat) {
    forall v :: Touches(va, n, v) ==> ForUser(sp, v) && HasW(sp.leaf[v])
  }

  /** No page of the n bytes from va on is mapped read-only. */
  ghost predicate NoneReadOnly(sp: Space, va: nat, n: nat) {
    forall v :: Touches(va, n, v) ==> !ReadOnly(sp, v)
  }

  ghost predicate ReadOnly(sp: Space, v: nat) {
    v in sp.leaf && !HasW(sp.leaf[v])
  }

  /** One turn of copyout's loop, for bytes that lie in one page. */
  method CopyPage(m: Memory, root: nat, va: nat, data: seq<nat>, sz: nat, ghost s: nat) returns (ok: bool)
    requires m.Valid() && s in m.g.spaces && m.g.spaces[s].root == root && sz <= MAXVA && UserOwned(m.g.spaces[s])
    requires Bytes(data) && |data| > 0 && va % PGSIZE + |data| <= PGSIZE
    modifies m
    ensures m.Valid() && OnlyFaults(old(m.mem), old(m.g), m.mem, m.g, s, sz)
    ensures ok ==> WroteBytes(old(m.mem), old(m.g.spaces[s]), m.mem, m.g.spaces[s], va, |data|, data)
    ensures ok ==> Usable(old(m.g.spaces[s]), sz, va / PGSIZE) && !ReadOnly(old(m.g.spaces[s]), va / PGSIZE)
    ensures !ok ==> SameBytes(old(m.mem), old(m.g.spaces[s]), m.mem, m.g.spaces[s])
    ensures ForUser(old(m.g.spaces[s]), va / PGSIZE) && HasW(old(m.g.spaces[s]).leaf[va / PGSIZE]) ==> ok
    ensures ok ==> ForUser(m.g.spaces[s], va / PGSIZE)
    ensures !ok ==> !Usable(old(m.g.spaces[s]), sz, va / PGSIZE) || ReadOnly(old(m.g.spaces[s]), va / PGSIZE) || |m.freelist| <= 1
    ensures forall v :: v in m.g.spaces[s].leaf && v !in old(m.g.spaces[s].leaf) ==> v == va / PGSIZE
  {
    hide Inv, SameBytes, OnlyFaults, UserOwned, Patched, WroteBytes, HasW, HasU, Bytes;
    ghost var m0, g0, sp0 := m.mem, m.g, m.g.spaces[s];
    SameSize(m.mem, m.freelist, m.g);
    NoFaults(m0, g0, s, sz);
    BytesRefl(m0, sp0);
    NothingWritten(m0, sp0, sz, va, data);
    var va0 := va / PGSIZE * PGSIZE;
    RoundDown(va);
    PageBound(va0);
    ok := false;
    if va0 >= MAXVA {
      return;
    }
    var pa := PageFor(m, root, va0, sz, s);
    if pa.None? {
      return;
    }
    ghost var m1, g1 := m.mem, m.g;
    FaultFacts(m0, g0, m1, g1, s, sz);
    KeepsFlags(m0, g0, m1, g1, s, sz, va / PGSIZE);
    WroteSame(m0, sp0, m0, sp0, m1, g1.spaces[s], va, 0, data);
    PageThere(m.mem, m.freelist, m.g, s, va / PGSIZE);
    LeafHasTable(m.mem, m.freelist, m.g, s, va / PGSIZE);
    var slot := m.Walk(root, va0, false, s);
    LeafEntry(m.mem, m.freelist, m.g, s, va / PGSIZE);
    if !HasW(m.mem[slot.value.table][slot.value.index]) {
      return;
    }
    PutBytes(m, pa.value, va, data, sz, s, m0, sp0);
    FaultsTrans(m0, g0, m1, g1, m.mem, m.g, s, sz);
    ok := true;
  }

  /** The memmove of copyout, into a page that is there. */
  method PutBytes(m: Memory, p: nat, va: nat, data: seq<nat>, ghost sz: nat, ghost s: nat, ghost m0: seq<Page>, ghost sp0: Space)
    requires m.Valid() && s in m.g.spaces && UserOwned(m.g.spaces[s])
    requires va / PGSIZE in m.g.spaces[s].user && m.g.spaces[s].user[va / PGSIZE] == p
    requires Bytes(data) && va % PGSIZE + |data| <= PGSIZE
    requires WroteBytes(m0, sp0, m.mem, m.g.spaces[s], va, 0, data)
    modifies m
    ensures m.Valid() && m.g == old(m.g) && m.freelist == old(m.freelist)
    ensures OnlyFaults(old(m.mem), m.g, m.mem, m.g, s, sz)
    ensures WroteBytes(m0, sp0, m.mem, m.g.spaces[s], va, |data|, data)
  {
    hide Inv, OnlyFaults, UserOwned, Patched, WroteBytes, Bytes;
    ghost var m1 := m.mem;
    PageThere(m.mem, m.freelist, m.g, s, va / PGSIZE);
    UserRoles(m.mem, m.freelist, m.g, s);
    PatchedSize(m.mem[p], va % PGSIZE, data);
    var page := Patched(m.mem[p], va % PGSIZE, data);
    UserWriteKeeps(m.mem, m.freelist, m.g, s, va / PGSIZE, page, sz);
    m.mem := m.mem[p := page];
    assert data[0..0 + |data|] == data;
    WroteMore(m0, sp0, m1, m.mem, m.g.spaces[s], m.g.role, s, va, 0, data, |data|);
  }

  lemma KeepsFlags(m0: seq<Page>, g0: Ghosts, m1: seq<Page>, g1: Ghosts, s: nat, sz: nat, v: nat)
    requires OnlyFaults(m0, g0, m1, g1, s, sz)
    ensures v in g0.spaces[s].leaf ==> v in g1.spaces[s].leaf && g1.spaces[s].leaf[v] == g0.spaces[s].leaf[v]
    ensures v !in g0.spaces[s].leaf && v in g1.spaces[s].leaf ==>
      v * PGSIZE < sz && HasU(g1.spaces[s].leaf[v]) && HasW(g1.spaces[s].leaf[v])
  {
  }

  lemma WroteOn(m0: seq<Page>, sp0: Space, m1: seq<Page>, sp1: Space, m2: seq<Page>, sp2: Space, va: nat, t: nat, n: nat, src: seq<nat>)
    requires t + n <= |src| && WroteBytes(m0, sp0, m1, sp1, va, t, src) && WroteBytes(m1, sp1, m2, sp2, va + t, n, src[t..t + n])
    ensures WroteBytes(m0, sp0, m2, sp2, va, t + n, src)
  {
    hide OnPage;
  }

  /** copyout: the bytes of src at dstva, and no other byte of any address space. A failed copy leaves whole pages
      written. */
  method Copyout(m: Memory, root: nat, dstva: nat, src: seq<nat>, sz: nat, ghost s: nat) returns (ok: bool, ghost t: nat)
    requires m.Valid() && s in m.g.spaces && m.g.spaces[s].root == root && sz <= MAXVA && UserOwned(m.g.spaces[s]) && Bytes(src)
    modifies m
    ensures m.Valid() && OnlyFaults(old(m.mem), old(m.g), m.mem, m.g, s, sz)
    ensures t <= |src| && WroteBytes(old(m.mem), old(m.g.spaces[s]), m.mem, m.g.spaces[s], dstva, t, src)
    ensures ok <==> t == |src|
    ensures AllUsable(old(m.g.spaces[s]), sz, dstva, t) && NoneReadOnly(old(m.g.spaces[s]), dstva, t)
    ensures !ok ==> t == 0 || (dstva + t) % PGSIZE == 0
    ensures AllWritable(old(m.g.spaces[s]), dstva, |src|) ==> ok
    ensures AllMapped(m.g.spaces[s], dstva, t)
    ensures !ok ==>
      || !AllUsable(old(m.g.spaces[s]), sz, dstva, |src|)
      || !NoneReadOnly(old(m.g.spaces[s]), dstva, |src|)
      || |m.freelist| <= 1
    ensures FaultsIn(old(m.g.spaces[s]), m.g.spaces[s], dstva, |src|)
  {
    hide FaultsIn, Inv, SameBytes, OnlyFaults, UserOwned, AllUsable, AllMapped, AllWritable, NoneReadOnly, Usable, ReadOnly, ForUser, WroteBytes, HasW;
    ghost var m0, fl0, g0, sp0 := m.mem, m.freelist, m.g, m.g.spaces[s];
    SameSize(m0, fl0, g0);
    NoFaults(m0, g0, s, sz);
    NothingWritten(m0, sp0, sz, dstva, src);
    NoFaultIn(sp0, dstva, |src|);
    ok := false;
    t := 0;
    var va: nat, left: nat := dstva, |src|;
    while left > 0
      invariant va == dstva + t && t + left == |src| && m.Valid() && s in m.g.spaces && m.g.spaces[s].root == root
      invariant UserOwned(m.g.spaces[s]) && OnlyFaults(m0, g0, m.mem, m.g, s, sz)
      invariant WroteBytes(m0, sp0, m.mem, m.g.spaces[s], dstva, t, src)
      invariant AllMapped(m.g.spaces[s], dstva, t) && FaultsIn(sp0, m.g.spaces[s], dstva, |src|)
      invariant AllUsable(sp0, sz, dstva, t) && NoneReadOnly(sp0, dstva, t) && (t == 0 || left == 0 || va % PGSIZE == 0)
      decreases left
    {
      ghost var m1, g1 := m.mem, m.g;
      Writable(m0, g0, m1, g1, s, sz, dstva, |src|, t);
      StillUsable(m0, g0, m1, g1, s, sz, dstva, |src|, t);
      StillNotReadOnly(m0, g0, m1, g1, s, sz, dstva, |src|, t);
      var n := Chunk(va, left);
      assert src[t..t + n] == src[|src| - left..|src| - left + n];
      var done := CopyPage(m, root, va, src[|src| - left..|src| - left + n], sz, s);
      FaultsTrans(m0, g0, m1, g1, m.mem, m.g, s, sz);
      FaultFacts(m0, g0, m.mem, m.g, s, sz);
      StillMapped(m1, g1, m.mem, m.g, s, sz, dstva, t);
      MoreFaultsIn(sp0, g1.spaces[s], m.g.spaces[s], dstva, |src|, t);
      if !done {
        WroteSame(m0, sp0, m1, g1.spaces[s], m.mem, m.g.spaces[s], dstva, t, src);
        return;
      }
      WroteOn(m0, sp0, m1, g1.spaces[s], m.mem, m.g.spaces[s], dstva, t, n, src);
      MoreUsable(m0, g0, m1, g1, s, sz, dstva, t, left);
      MoreWritable(m0, g0, m1, g1, s, sz, dstva, t, left);
      MoreMapped(m.g.spaces[s], dstva, t, left);
      t := t + n;
      left := left - n;
      va := va + n;
    }
    ok := true;
  }

  lemma PatchedSize(page: Page, o: nat, src: seq<nat>)
    requires |page| == ENTRIES && o + |src| <= PGSIZE
    ensures |Patched(page, o, src)| == ENTRIES
  {
  }

  lemma NothingWritten(mem: seq<Page>, sp: Space, sz: nat, va: nat, src: seq<nat>)
    ensures WroteBytes(mem, sp, mem, sp, va, 0, src) && AllUsable(sp, sz, va, 0) && NoneReadOnly(sp, va, 0)
    ensures AllMapped(sp, va, 0)
  {
  }

  lemma WroteSame(m0: seq<Page>, sp0: Space, m1: seq<Page>, sp1: Space, m2: seq<Page>, sp2: Space, va: nat, t: nat, src: seq<nat>)
    requires t <= |src| && WroteBytes(m0, sp0, m1, sp1, va, t, src) && SameBytes(m1, sp1, m2, sp2)
    ensures WroteBytes(m0, sp0, m2, sp2, va, t, src)
  {
    hide OnPage;
  }

  /** With everything writable before, the next page still is. */
  lemma Writable(m0: seq<Page>, g0: Ghosts, m1: seq<Page>, g1: Ghosts, s: nat, sz: nat, va: nat, n: nat, t: nat)
    requires OnlyFaults(m0, g0, m1, g1, s, sz) && t < n
    ensures AllWritable(g0.spaces[s], va, n) ==>
      var v := (va + t) / PGSIZE;
      ForUser(g1.spaces[s], v) && HasW(g1.spaces[s].leaf[v])
  {
    hide HasU, HasW, OthersKept, UserOwned;
    TouchesPage(va, n, t);
  }

  lemma StillNotReadOnly(m0: seq<Page>, g0: Ghosts, m1: seq<Page>, g1: Ghosts, s: nat, sz: nat, va: nat, n: nat, t: nat)
    requires OnlyFaults(m0, g0, m1, g1, s, sz) && t < n
    ensures NoneReadOnly(g0.spaces[s], va, n) ==> !ReadOnly(g1.spaces[s], (va + t) / PGSIZE)
  {
    hide HasU, HasW, OthersKept, UserOwned;
    TouchesPage(va, n, t);
  }

  lemma StillMapped(m0: seq<Page>, g0: Ghosts, m1: seq<Page>, g1: Ghosts, s: nat, sz: nat, va: nat, t: nat)
    requires OnlyFaults(m0, g0, m1, g1, s, sz) && AllMapped(g0.spaces[s], va, t)
    ensures AllMapped(g1.spaces[s], va, t)
  {
    hide HasU, HasW, OthersKept, UserOwned, Touches;
  }

  lemma MoreMapped(sp: Space, va: nat, t: nat, left: nat)
    requires AllMapped(sp, va, t) && ForUser(sp, (va + t) / PGSIZE)
    ensures AllMapped(sp, va, t + Chunk(va + t, left))
  {
    hide ForUser, Chunk;
    forall v: nat | Touches(va, t + Chunk(va + t, left), v)
      ensures ForUser(sp, v)
    {
      TouchesMore(va, t, left, v);
    }
  }

  lemma MoreWritable(m0: seq<Page>, g0: Ghosts, m1: seq<Page>, g1: Ghosts, s: nat, sz: nat, va: nat, t: nat, left: nat)
    requires OnlyFaults(m0, g0, m1, g1, s, sz) && NoneReadOnly(g0.spaces[s], va, t)
    requires !ReadOnly(g1.spaces[s], (va + t) / PGSIZE)
    ensures NoneReadOnly(g0.spaces[s], va, t + Chunk(va + t, left))
  {
    hide HasU, HasW, Chunk, UserOwned, OthersKept;
    forall v: nat | Touches(va, t + Chunk(va + t, left), v)
      ensures !ReadOnly(g0.spaces[s], v)
    {
      TouchesMore(va, t, left, v);
    }
  }

  /** What was copied out is copied in again: the second copy succeeds whenever the first did. */
  method RoundTrip(m: Memory, root: nat, va: nat, src: seq<nat>, sz: nat, ghost s: nat) returns (written: bool, read: bool, dst: seq<nat>)
    requires m.Valid() && s in m.g.spaces && m.g.spaces[s].root == root && sz <= MAXVA && UserOwned(m.g.spaces[s]) && Bytes(src)
    modifies m
    ensures m.Valid() && read == written && (read ==> dst == src)
    ensures AllWritable(old(m.g.spaces[s]), va, |src|) ==> read
  {
    hide Inv, SameBytes, OnlyFaults, UserOwned, AllUsable, AllMapped, AllWritable, NoneReadOnly;
    ghost var m0, g0 := m.mem, m.g;
    ghost var t;
    written, t := Copyout(m, root, va, src, sz, s);
    FaultFacts(m0, g0, m.mem, m.g, s, sz);
    read, dst := false, [];
    if written {
      read, dst := Copyin(m, root, va, |src|, sz, s);
    }
  }

  // ----- copyinstr -----

  /** The bytes str from va on, none of them NUL, are followed by a NUL within max bytes, all on pages mapped for the user. */
  ghost predicate IsString(mem: seq<Page>, sp: Space, va: nat, max: nat, str: seq<nat>) {
    && |str| < max && AllMapped(sp, va, |str| + 1) && IsCopy(mem, sp, va, str) && NoNul(str)
    && ByteAt(mem, sp, va + |str|) == 0
  }

  ghost predicate NoNul(dst: seq<nat>) {
    forall k :: 0 <= k < |dst| ==> dst[k] != 0
  }

  /** A string does not end within bytes that are no NULs, and its next byte's page is mapped. */
  lemma NotEnded(mem: seq<Page>, sp: Space, va: nat, max: nat, dst: seq<nat>, str: seq<nat>)
    requires IsString(mem, sp, va, max, str) && IsCopy(mem, sp, va, dst) && NoNul(dst)
    ensures |dst| <= |str| < max && ForUser(sp, (va + |dst|) / PGSIZE)
  {
    hide OnPage;
    var k := if |str| < |dst| then |str| else 0;
    assert |dst| > 0 ==> dst[k] == ByteAt(mem, sp, va + k) != 0;
    TouchesPage(va, |str| + 1, |dst|);
  }

  lemma OneByte(mem: seq<Page>, sp: Space, va: nat, dst: seq<nat>, b: nat)
    requires IsCopy(mem, sp, va, dst) && NoNul(dst) && b == ByteAt(mem, sp, va + |dst|)
    ensures b != 0 ==> IsCopy(mem, sp, va, dst + [b]) && NoNul(dst + [b])
  {
    hide OnPage;
  }

  lemma OneMapped(sp: Space, va: nat, t: nat)
    requires AllMapped(sp, va, t) && ForUser(sp, (va + t) / PGSIZE)
    ensures AllMapped(sp, va, t + 1)
  {
    hide ForUser;
    forall v: nat | Touches(va, t + 1, v)
      ensures ForUser(sp, v)
    {
      OneTouched(va, t, v);
    }
  }

  lemma OneTouched(va: nat, t: nat, v: nat)
    requires Touches(va, t + 1, v)
    ensures Touches(va, t, v) || v == (va + t) / PGSIZE
  {
  }

  /** copyinstr: succeeds exactly when a string ends within max bytes on mapped pages, and returns it. */
  method Copyinstr(m: Memory, root: nat, srcva: nat, max: nat, ghost s: nat) returns (ok: bool, dst: seq<nat>)
    requires m.Valid() && s in m.g.spaces && m.g.spaces[s].root == root && UserOwned(m.g.spaces[s])
    modifies m
    ensures m.mem == old(m.mem) && m.freelist == old(m.freelist) && m.g == old(m.g)
    ensures ok <==> exists str :: IsString(m.mem, m.g.spaces[s], srcva, max, str)
    ensures ok ==> IsString(m.mem, m.g.spaces[s], srcva, max, dst)
  {
    hide Inv, UserOwned, IsCopy, NoNul, AllMapped, PageByte, HasU, OnPage;
    ghost var m0, g0, sp := m.mem, m.g, m.g.spaces[s];
    NoString(m0, sp, srcva);
    dst, ok := [], false;
    var va: nat := srcva;
    while |dst| < max
      invariant va == srcva + |dst| && |dst| <= max && !ok && m.mem == m0 && m.freelist == old(m.freelist) && m.g == g0
      invariant IsCopy(m0, sp, srcva, dst) && NoNul(dst) && AllMapped(sp, srcva, |dst|)
      decreases max - |dst|
    {
      var pa := Walkaddr(m, root, va / PGSIZE * PGSIZE, s);
      RoundDown(va);
      PageBound(va / PGSIZE * PGSIZE);
      if pa.None? {
        forall str | IsString(m0, sp, srcva, max, str)
          ensures false
        {
          NotEnded(m0, sp, srcva, max, dst, str);
        }
        return;
      }
      Owned(m.mem, m.freelist, m.g, s, va / PGSIZE);
      PageThere(m.mem, m.freelist, m.g, s, va / PGSIZE);
      var n, j := Chunk(va, max - |dst|), 0;
      while j < n
        invariant 0 <= j <= n && |dst| == va - srcva + j && |dst| <= max
        invariant !ok && m.mem == m0 && m.freelist == old(m.freelist) && m.g == g0
        invariant IsCopy(m0, sp, srcva, dst) && NoNul(dst) && AllMapped(sp, srcva, |dst|)
      {
        InChunk(va, max - (va - srcva), j);
        ByteThere(m.mem, sp, va / PGSIZE, va % PGSIZE + j);
        var b := PageByte(m.mem[pa.value], va % PGSIZE + j);
        OneMapped(sp, srcva, |dst|);
        if b == 0 {
          assert IsString(m0, sp, srcva, max, dst);
          return true, dst;
        }
        OneByte(m0, sp, srcva, dst, b);
        dst := dst + [b];
        j := j + 1;
      }
      va := va + n;
    }
    forall str | IsString(m0, sp, srcva, max, str)
      ensures false
    {
      NotEnded(m0, sp, srcva, max, dst, str);
    }
  }

  lemma NoString(mem: seq<Page>, sp: Space, va: nat)
    ensures IsCopy(mem, sp, va, []) && NoNul([]) && AllMapped(sp, va, 0)
  {
  }

  lemma ByteThere(mem: seq<Page>, sp: Space, v: nat, o: nat)
    requires v in sp.user && sp.user[v] < |mem| && |mem[sp.user[v]]| == ENTRIES && o < PGSIZE
    ensures OnPage(mem, sp, v, o) == PageByte(mem[sp.user[v]], o)
  {
  }
}
