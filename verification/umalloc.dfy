/** The storage allocator of user/umalloc.c. Addresses are counted in header-sized units. */
module Malloc {
  import opened Wrappers

  /** Address of the static header `base`, below every heap address; 0 is the null pointer. */
  const BASE := 1

  // ----- Blocks -----

  /** The size field of the header at a. */
  function SizeAt(size: map<nat, nat>, a: nat): nat {
    if a in size then size[a] else 0
  }

  function Next(fl: seq<nat>, k: nat): nat
    requires k < |fl|
  {
    if k + 1 < |fl| then fl[k + 1] else fl[0]
  }

  /** The headers on the free list are chained in a circle. */
  ghost predicate Chained(ptr: map<nat, nat>, fl: seq<nat>) {
    forall k: nat :: Linked(ptr, fl, k)
  }

  ghost predicate Linked(ptr: map<nat, nat>, fl: seq<nat>, k: nat) {
    k < |fl| ==> fl[k] in ptr && ptr[fl[k]] == Next(fl, k)
  }

  /** The list starts with `base`, which is empty, and is in address order without overlap. */
  ghost predicate Ordered(size: map<nat, nat>, fl: seq<nat>) {
    && fl != [] && fl[0] == BASE && BASE in size && size[BASE] == 0
    && (forall j :: 0 < j < |fl| ==> fl[j] > BASE && SizeAt(size, fl[j]) >= 1)
    && (forall j, k :: 0 <= j < k < |fl| ==> fl[j] + SizeAt(size, fl[j]) <= fl[k])
  }

  /** The heap blocks: those on the free list and those handed out. */
  ghost function Blocks(fl: seq<nat>, live: set<nat>): set<nat> {
    live + (set k | 0 < k < |fl| :: fl[k])
  }

  /** Every unit obtained from the system is in exactly one block, the one `own` names. */
  ghost predicate Tiled(size: map<nat, nat>, blocks: set<nat>, own: map<nat, nat>) {
    && (forall u: nat :: u in own ==> Within(size, blocks, own[u], u))
    && (forall a: nat :: a in blocks ==> a > BASE && SizeAt(size, a) >= 1 && Covers(own, a, SizeAt(size, a)))
  }

  ghost predicate Within(size: map<nat, nat>, blocks: set<nat>, a: nat, u: nat) {
    a in blocks && a <= u < a + SizeAt(size, a)
  }

  /** The n units from a on belong to block a. */
  ghost predicate Covers(own: map<nat, nat>, a: nat, n: nat) {
    forall u: nat :: a <= u < a + n ==> u in own && own[u] == a
  }

  ghost predicate Shape(ptr: map<nat, nat>, size: map<nat, nat>, fl: seq<nat>, live: set<nat>, own: map<nat, nat>) {
    && Chained(ptr, fl) && Ordered(size, fl) && Tiled(size, Blocks(fl, live), own)
    && forall k :: 0 <= k < |fl| ==> fl[k] !in live
  }

  /** The k-th free block ends where the next one starts. */
  ghost predicate Touches(size: map<nat, nat>, fl: seq<nat>, k: nat) {
    k + 1 < |fl| && fl[k] + SizeAt(size, fl[k]) == fl[k + 1]
  }

  ghost predicate NoneTouch(size: map<nat, nat>, fl: seq<nat>) {
    forall k: nat :: !Touches(size, fl, k)
  }

  // ----- Order -----

  lemma Increasing(size: map<nat, nat>, fl: seq<nat>, j: nat, k: nat)
    requires Ordered(size, fl) && j < k < |fl|
    ensures fl[j] < fl[k]
  {
  }

  /** Different blocks do not overlap. */
  lemma Apart(size: map<nat, nat>, blocks: set<nat>, own: map<nat, nat>, a: nat, b: nat)
    requires Tiled(size, blocks, own) && a in blocks && b in blocks && a < b
    ensures a + SizeAt(size, a) <= b
  {
    assert Covers(own, a, SizeAt(size, a)) && Covers(own, b, SizeAt(size, b));
    assert b in own && own[b] == b;
  }

  function InsertAt(fl: seq<nat>, t: nat, b: nat): (r: seq<nat>)
    requires t < |fl|
    ensures |r| == |fl| + 1
    ensures forall k :: 0 <= k < |r| ==> r[k] == if k <= t then fl[k] else if k == t + 1 then b else fl[k - 1]
  {
    fl[..t + 1] + [b] + fl[t + 1..]
  }

  function RemoveAt(fl: seq<nat>, t: nat): (r: seq<nat>)
    requires t < |fl|
    ensures |r| == |fl| - 1
    ensures forall k :: 0 <= k < |r| ==> r[k] == if k < t then fl[k] else fl[k + 1]
  {
    fl[..t] + fl[t + 1..]
  }

  // ----- Linking a block into the list -----

  lemma InsertChain(ptr: map<nat, nat>, size: map<nat, nat>, fl: seq<nat>, b: nat, t: nat)
    requires Chained(ptr, fl) && Ordered(size, fl) && t < |fl| && forall k :: 0 <= k < |fl| ==> fl[k] != b
    ensures Chained(ptr[b := Next(fl, t)][fl[t] := b], InsertAt(fl, t, b))
  {
    var fl' := InsertAt(fl, t, b);
    var ptr' := ptr[b := Next(fl, t)][fl[t] := b];
    hide InsertAt;
    forall k: nat
      ensures Linked(ptr', fl', k)
    {
      if k < t {
        Increasing(size, fl, k, t);
        assert Linked(ptr, fl, k);
      } else if t + 1 < k < |fl'| {
        Increasing(size, fl, t, k - 1);
        assert Linked(ptr, fl, k - 1);
      }
    }
  }

  /** Where the new block lies relative to the k-th block of the list. */
  lemma InsertBeside(size: map<nat, nat>, fl: seq<nat>, blocks: set<nat>, own: map<nat, nat>, b: nat, t: nat, k: nat)
    requires Ordered(size, fl) && Tiled(size, blocks, own) && b in blocks && (forall k :: 0 < k < |fl| ==> fl[k] in blocks)
    requires t < |fl| && fl[t] < b && (t + 1 < |fl| ==> b < fl[t + 1]) && k < |fl|
    ensures if k <= t then fl[k] + SizeAt(size, fl[k]) <= b else b + SizeAt(size, b) <= fl[k]
  {
    hide Tiled;
    if k < t {
      Increasing(size, fl, k, t);
    } else if k > t + 1 {
      Increasing(size, fl, t + 1, k);
    }
    if 0 < k <= t {
      Apart(size, blocks, own, fl[k], b);
    } else if k > t {
      Apart(size, blocks, own, b, fl[k]);
    }
  }

  /** One element is new, behind place t. */
  ghost predicate Inserted(fl: seq<nat>, fl': seq<nat>, t: nat, b: nat) {
    && t < |fl| == |fl'| - 1
    && forall k {:trigger fl'[k]} :: 0 <= k < |fl'| ==> fl'[k] == if k <= t then fl[k] else if k == t + 1 then b else fl[k - 1]
  }

  lemma InsertPair(size: map<nat, nat>, fl: seq<nat>, fl': seq<nat>, blocks: set<nat>, own: map<nat, nat>, b: nat, t: nat, i: nat, j: nat)
    requires Ordered(size, fl) && Tiled(size, blocks, own) && b in blocks && (forall k :: 0 < k < |fl| ==> fl[k] in blocks)
    requires t < |fl| && fl[t] < b && (t + 1 < |fl| ==> b < fl[t + 1]) && Inserted(fl, fl', t, b) && i < j < |fl'|
    ensures fl'[i] + SizeAt(size, fl'[i]) <= fl'[j]
  {
    hide Tiled, SizeAt;
    if i == t + 1 {
      InsertBeside(size, fl, blocks, own, b, t, j - 1);
    } else if j == t + 1 {
      InsertBeside(size, fl, blocks, own, b, t, i);
    }
  }

  lemma InsertOrdered(size: map<nat, nat>, fl: seq<nat>, fl': seq<nat>, blocks: set<nat>, own: map<nat, nat>, b: nat, t: nat)
    requires Ordered(size, fl) && Tiled(size, blocks, own) && b in blocks && (forall k :: 0 < k < |fl| ==> fl[k] in blocks)
    requires t < |fl| && fl[t] < b && (t + 1 < |fl| ==> b < fl[t + 1]) && Inserted(fl, fl', t, b)
    ensures Ordered(size, fl')
  {
    assert b > BASE && SizeAt(size, b) >= 1;
    forall i, j | 0 <= i < j < |fl'|
      ensures fl'[i] + SizeAt(size, fl'[i]) <= fl'[j]
    {
      hide *;
      InsertPair(size, fl, fl', blocks, own, b, t, i, j);
    }
    hide Tiled;
  }

  lemma InsertOrder(size: map<nat, nat>, fl: seq<nat>, blocks: set<nat>, own: map<nat, nat>, b: nat, t: nat)
    requires Ordered(size, fl) && Tiled(size, blocks, own) && b in blocks && (forall k :: 0 < k < |fl| ==> fl[k] in blocks)
    requires t < |fl| && fl[t] < b && (t + 1 < |fl| ==> b < fl[t + 1])
    ensures Ordered(size, InsertAt(fl, t, b))
  {
    hide Ordered, Tiled;
    InsertOrdered(size, fl, InsertAt(fl, t, b), blocks, own, b, t);
  }

  lemma InsertBlocks(fl: seq<nat>, live: set<nat>, b: nat, t: nat)
    requires t < |fl| && b in live
    ensures Blocks(InsertAt(fl, t, b), live - {b}) == Blocks(fl, live)
  {
    var fl' := InsertAt(fl, t, b);
    forall a: nat
      ensures a in Blocks(fl', live - {b}) <==> a in Blocks(fl, live)
    {
      if k :| 0 < k < |fl| && fl[k] == a {
        assert fl'[if k <= t then k else k + 1] == a;
      }
      assert fl'[t + 1] == b;
    }
  }

  lemma InFree(fl: seq<nat>, live: set<nat>)
    ensures forall k :: 0 < k < |fl| ==> fl[k] in Blocks(fl, live)
  {
  }

  /** A block handed out before is linked into the list at its place. */
  lemma Insert(ptr: map<nat, nat>, size: map<nat, nat>, fl: seq<nat>, live: set<nat>, own: map<nat, nat>, b: nat, t: nat)
    requires Shape(ptr, size, fl, live, own) && b in live && t < |fl| && fl[t] < b && (t + 1 < |fl| ==> b < fl[t + 1])
    ensures Shape(ptr[b := Next(fl, t)][fl[t] := b], size, InsertAt(fl, t, b), live - {b}, own)
  {
    hide Chained, Ordered, Tiled, Blocks;
    InFree(fl, live);
    LiveIsBlock(fl, live, b);
    InsertOrder(size, fl, Blocks(fl, live), own, b, t);
    InsertChain(ptr, size, fl, b, t);
    InsertBlocks(fl, live, b, t);
  }

  lemma LiveIsBlock(fl: seq<nat>, live: set<nat>, b: nat)
    requires b in live
    ensures b in Blocks(fl, live)
  {
  }

  // ----- Joining two neighbours -----

  /** Units of block b become units of block a. */
  ghost function Rename(own: map<nat, nat>, b: nat, a: nat): map<nat, nat> {
    map u | u in own :: if own[u] == b then a else own[u]
  }

  lemma JoinTiled(size: map<nat, nat>, blocks: set<nat>, own: map<nat, nat>, a: nat, b: nat)
    requires Tiled(size, blocks, own) && a in blocks && b in blocks && a + SizeAt(size, a) == b
    ensures Tiled(size[a := SizeAt(size, a) + SizeAt(size, b)], blocks - {b}, Rename(own, b, a))
  {
    var size', blocks', own' := size[a := SizeAt(size, a) + SizeAt(size, b)], blocks - {b}, Rename(own, b, a);
    assert SizeAt(size', a) == SizeAt(size, a) + SizeAt(size, b);
    assert forall x: nat :: x != a ==> SizeAt(size', x) == SizeAt(size, x);
    hide SizeAt, Covers;
    forall u: nat | u in own'
      ensures Within(size', blocks', own'[u], u)
    {
      JoinWithin(size, blocks, own, a, b, size', u);
    }
    hide Within;
    assert Covers(own, a, SizeAt(size, a)) && Covers(own, b, SizeAt(size, b));
    JoinCovers(own, a, b, SizeAt(size, a), SizeAt(size, b));
    forall x: nat | x in blocks' && x != a
      ensures Covers(own', x, SizeAt(size', x))
    {
      assert Covers(own, x, SizeAt(size, x));
      CoversKept(own, a, b, x, SizeAt(size, x));
    }
  }

  lemma JoinWithin(size: map<nat, nat>, blocks: set<nat>, own: map<nat, nat>, a: nat, b: nat, size': map<nat, nat>, u: nat)
    requires u in own && Within(size, blocks, own[u], u) && a in blocks && a != b && a + SizeAt(size, a) == b
    requires SizeAt(size', a) == SizeAt(size, a) + SizeAt(size, b)
    requires forall x: nat :: x != a ==> SizeAt(size', x) == SizeAt(size, x)
    ensures Within(size', blocks - {b}, Rename(own, b, a)[u], u)
  {
    hide SizeAt;
  }

  lemma JoinCovers(own: map<nat, nat>, a: nat, b: nat, m: nat, n: nat)
    requires Covers(own, a, m) && Covers(own, b, n) && a + m == b && a != b
    ensures Covers(Rename(own, b, a), a, m + n)
  {
  }

  lemma CoversKept(own: map<nat, nat>, a: nat, b: nat, x: nat, n: nat)
    requires Covers(own, x, n) && x != b
    ensures Covers(Rename(own, b, a), x, n)
  {
  }

  lemma JoinPair(size: map<nat, nat>, fl: seq<nat>, k: nat, i: nat, j: nat)
    requires Ordered(size, fl) && 0 < k && Touches(size, fl, k) && i < j < |fl| && i != k + 1 && j != k + 1
    ensures fl[i] + SizeAt(size[fl[k] := SizeAt(size, fl[k]) + SizeAt(size, fl[k + 1])], fl[i]) <= fl[j]
  {
    if i != k {
      Increasing(size, fl, if i < k then i else k, if i < k then k else i);
    }
  }

  /** One element is gone. */
  ghost predicate Removed(fl: seq<nat>, fl': seq<nat>, t: nat) {
    t < |fl| == |fl'| + 1 && forall k {:trigger fl'[k]} :: 0 <= k < |fl'| ==> fl'[k] == if k < t then fl[k] else fl[k + 1]
  }

  lemma JoinOrdered(size: map<nat, nat>, size': map<nat, nat>, fl: seq<nat>, fl': seq<nat>, k: nat)
    requires Ordered(size, fl) && 0 < k && Touches(size, fl, k) && Removed(fl, fl', k + 1)
    requires size' == size[fl[k] := SizeAt(size, fl[k]) + SizeAt(size, fl[k + 1])]
    ensures Ordered(size', fl')
  {
    assert BASE in size' && size'[BASE] == 0;
    forall j | 0 < j < |fl'|
      ensures fl'[j] > BASE && SizeAt(size', fl'[j]) >= 1
    {
      var j0 := if j <= k then j else j + 1;
      assert fl[j0] > BASE && SizeAt(size, fl[j0]) >= 1;
    }
    forall i, j | 0 <= i < j < |fl'|
      ensures fl'[i] + SizeAt(size', fl'[i]) <= fl'[j]
    {
      hide *;
      JoinPair(size, fl, k, if i <= k then i else i + 1, if j <= k then j else j + 1);
      RemovedAt(fl, fl', k + 1, i);
      RemovedAt(fl, fl', k + 1, j);
    }
  }

  lemma RemovedAt(fl: seq<nat>, fl': seq<nat>, t: nat, k: nat)
    requires Removed(fl, fl', t) && k < |fl'|
    ensures |fl| == |fl'| + 1 && fl'[k] == if k < t then fl[k] else fl[k + 1]
  {
  }

  lemma JoinOrder(size: map<nat, nat>, fl: seq<nat>, k: nat)
    requires Ordered(size, fl) && 0 < k && Touches(size, fl, k)
    ensures Ordered(size[fl[k] := SizeAt(size, fl[k]) + SizeAt(size, fl[k + 1])], RemoveAt(fl, k + 1))
  {
    hide Ordered;
    JoinOrdered(size, size[fl[k] := SizeAt(size, fl[k]) + SizeAt(size, fl[k + 1])], fl, RemoveAt(fl, k + 1), k);
  }

  lemma JoinChain(ptr: map<nat, nat>, size: map<nat, nat>, fl: seq<nat>, k: nat)
    requires Chained(ptr, fl) && Ordered(size, fl) && k + 1 < |fl|
    ensures fl[k + 1] in ptr && Chained(ptr[fl[k] := ptr[fl[k + 1]]], RemoveAt(fl, k + 1))
  {
    var fl' := RemoveAt(fl, k + 1);
    assert Linked(ptr, fl, k + 1);
    var ptr' := ptr[fl[k] := ptr[fl[k + 1]]];
    forall j: nat
      ensures Linked(ptr', fl', j)
    {
      if j < k {
        Increasing(size, fl, j, k);
        assert Linked(ptr, fl, j);
      } else if k < j < |fl'| {
        Increasing(size, fl, k, j + 1);
        assert Linked(ptr, fl, j + 1);
      }
    }
  }

  lemma RemoveBlocks(size: map<nat, nat>, fl: seq<nat>, live: set<nat>, k: nat)
    requires Ordered(size, fl) && 0 < k < |fl| && fl[k] !in live
    ensures Blocks(RemoveAt(fl, k), live) == Blocks(fl, live) - {fl[k]}
  {
    var fl' := RemoveAt(fl, k);
    forall a: nat
      ensures a in Blocks(fl', live) <==> a in Blocks(fl, live) - {fl[k]}
    {
      if j :| 0 < j < |fl| && fl[j] == a && j != k {
        assert fl'[if j < k then j else j - 1] == a;
        if j < k {
          Increasing(size, fl, j, k);
        } else {
          Increasing(size, fl, k, j);
        }
      }
      if j :| 0 < j < |fl'| && fl'[j] == a {
        if j < k {
          Increasing(size, fl, j, k);
        } else {
          Increasing(size, fl, k, j + 1);
        }
      }
    }
  }

  /** Two touching free blocks become one. */
  lemma Join(ptr: map<nat, nat>, size: map<nat, nat>, fl: seq<nat>, live: set<nat>, own: map<nat, nat>, k: nat)
    requires Shape(ptr, size, fl, live, own) && 0 < k && Touches(size, fl, k)
    ensures fl[k + 1] in ptr
    ensures
      var a, b := fl[k], fl[k + 1];
      Shape(ptr[a := ptr[b]], size[a := SizeAt(size, a) + SizeAt(size, b)], RemoveAt(fl, k + 1), live, Rename(own, b, a))
  {
    hide Chained, Ordered, Tiled, Blocks, Rename;
    InFree(fl, live);
    JoinTiled(size, Blocks(fl, live), own, fl[k], fl[k + 1]);
    JoinOrder(size, fl, k);
    JoinChain(ptr, size, fl, k);
    RemoveBlocks(size, fl, live, k + 1);
  }

  // ----- Touching neighbours -----

  /** Only the pairs starting at a place in `s` may touch. */
  ghost predicate TouchOnly(size: map<nat, nat>, fl: seq<nat>, s: set<nat>) {
    forall k: nat :: Touches(size, fl, k) ==> k in s
  }

  lemma InsertTouch(size: map<nat, nat>, fl: seq<nat>, t: nat, b: nat)
    requires t < |fl| && NoneTouch(size, fl)
    ensures TouchOnly(size, InsertAt(fl, t, b), {t, t + 1})
  {
    var fl' := InsertAt(fl, t, b);
    forall k: nat | Touches(size, fl', k)
      ensures k in {t, t + 1}
    {
      assert !Touches(size, fl, k);
      assert k > 0 ==> !Touches(size, fl, k - 1);
    }
  }

  lemma JoinTouch(size: map<nat, nat>, fl: seq<nat>, k: nat)
    requires Ordered(size, fl) && 0 < k && TouchOnly(size, fl, {k - 1, k}) && Touches(size, fl, k)
    ensures TouchOnly(size[fl[k] := SizeAt(size, fl[k]) + SizeAt(size, fl[k + 1])], RemoveAt(fl, k + 1), {k - 1})
  {
    hide Ordered;
    var fl', size' := RemoveAt(fl, k + 1), size[fl[k] := SizeAt(size, fl[k]) + SizeAt(size, fl[k + 1])];
    forall j: nat | Touches(size', fl', j)
      ensures j in {k - 1}
    {
      assert Touches(size, fl, j + 1) ==> j + 1 in {k - 1, k};
      if j < k {
        Increasing(size, fl, j, k);
        assert Touches(size, fl, j);
      } else if j > k {
        Increasing(size, fl, k, j + 1);
      }
    }
  }

  /** With the last touching pair joined, none touch. */
  lemma JoinLast(size: map<nat, nat>, fl: seq<nat>, k: nat)
    requires Ordered(size, fl) && 0 < k && TouchOnly(size, fl, {k}) && Touches(size, fl, k)
    ensures NoneTouch(size[fl[k] := SizeAt(size, fl[k]) + SizeAt(size, fl[k + 1])], RemoveAt(fl, k + 1))
  {
    hide Ordered;
    JoinTouch(size, fl, k);
    var fl', size' := RemoveAt(fl, k + 1), size[fl[k] := SizeAt(size, fl[k]) + SizeAt(size, fl[k + 1])];
    if Touches(size', fl', k - 1) {
      Increasing(size, fl, k - 1, k);
      assert Touches(size, fl, k - 1);
    }
  }

  // ----- free -----

  datatype Ghosts = Ghosts(fl: seq<nat>, live: set<nat>, own: map<nat, nat>)

  ghost predicate HeapOk(ptr: map<nat, nat>, size: map<nat, nat>, g: Ghosts) {
    Shape(ptr, size, g.fl, g.live, g.own) && NoneTouch(size, g.fl)
  }

  /** The place of address a in the list. */
  ghost function Spot(fl: seq<nat>, a: nat): (t: nat)
    requires fl != [] && fl[0] < a
    ensures t < |fl| && fl[t] < a && (t + 1 < |fl| ==> a <= fl[t + 1])
  {
    if |fl| == 1 || a <= fl[1] then 0 else 1 + Spot(fl[1..], a)
  }

  /** free's test tells the right place: between two neighbours, or at the end of the list. */
  lemma SpotTest(ptr: map<nat, nat>, size: map<nat, nat>, fl: seq<nat>, i: nat, b: nat)
    requires Chained(ptr, fl) && Ordered(size, fl) && i < |fl| && b > BASE && forall k :: 0 <= k < |fl| ==> fl[k] != b
    ensures fl[i] in ptr && ptr[fl[i]] == Next(fl, i)
    ensures
      var p, q := fl[i], ptr[fl[i]];
      (p < b < q) || (p >= q && (b > p || b < q)) <==> i == Spot(fl, b)
  {
    assert Linked(ptr, fl, i);
    var t := Spot(fl, b);
    if i < t {
      Increasing(size, fl, i, t);
      if i + 1 < t {
        Increasing(size, fl, i + 1, t);
      }
      Increasing(size, fl, i, i + 1);
    } else if i > t {
      Increasing(size, fl, t, i);
      if t + 1 < i {
        Increasing(size, fl, t + 1, i);
      }
      if i + 1 < |fl| {
        Increasing(size, fl, i, i + 1);
      }
    } else if i + 1 < |fl| {
      Increasing(size, fl, i, i + 1);
    }
  }

  /** Steps from place i to place t around a list of n. */
  function Around(i: nat, t: nat, n: nat): nat
    requires i < n && t < n
  {
    if i <= t then t - i else t + n - i
  }

  ghost function Joining(g: Ghosts, k: nat): Ghosts
    requires k + 1 < |g.fl|
  {
    Ghosts(RemoveAt(g.fl, k + 1), g.live, Rename(g.own, g.fl[k + 1], g.fl[k]))
  }

  lemma ShapeFacts(ptr: map<nat, nat>, size: map<nat, nat>, g: Ghosts)
    requires Shape(ptr, size, g.fl, g.live, g.own)
    ensures Chained(ptr, g.fl) && Ordered(size, g.fl) && g.fl != [] && g.fl[0] == BASE && SizeAt(size, BASE) == 0
    ensures forall k :: 0 <= k < |g.fl| ==> g.fl[k] in ptr && g.fl[k] !in g.live
    ensures forall a :: a in g.live ==> a > BASE && SizeAt(size, a) >= 1
  {
    forall k | 0 <= k < |g.fl|
      ensures g.fl[k] in ptr
    {
      assert Linked(ptr, g.fl, k);
    }
    forall a | a in g.live
      ensures a > BASE && SizeAt(size, a) >= 1
    {
      LiveIsBlock(g.fl, g.live, a);
    }
  }

  /** The n units from b on lie in one free block. */
  ghost predicate Holds(size: map<nat, nat>, fl: seq<nat>, b: nat, n: nat) {
    exists k :: 0 < k < |fl| && fl[k] <= b && b + n <= fl[k] + SizeAt(size, fl[k])
  }

  /** The first half of free: block b goes on the list behind p and takes in the block above it if they touch. */
  lemma FreeUpper(ptr: map<nat, nat>, size: map<nat, nat>, g: Ghosts, b: nat, t: nat) returns (g': Ghosts)
    requires HeapOk(ptr, size, g) && b in g.live && t < |g.fl| && g.fl[t] < b && (t + 1 < |g.fl| ==> b < g.fl[t + 1])
    ensures Next(g.fl, t) in ptr
    ensures
      var p, q := g.fl[t], Next(g.fl, t);
      var up := b + SizeAt(size, b) == q;
      var size' := if up then size[b := SizeAt(size, b) + SizeAt(size, q)] else size;
      var ptr' := if up then ptr[b := ptr[q]][p := b] else ptr[b := q][p := b];
      && Shape(ptr', size', g'.fl, g'.live, g'.own) && TouchOnly(size', g'.fl, {t})
      && SizeAt(size', b) >= SizeAt(size, b)
    ensures g'.live == g.live - {b} && g'.own.Keys == g.own.Keys
    ensures t + 1 < |g'.fl| && g'.fl[t] == g.fl[t] && g'.fl[t + 1] == b && b != g.fl[t]
  {
    hide Shape, Ordered, Chained, Touches, TouchOnly, Rename;
    ShapeFacts(ptr, size, g);
    var p: nat, q: nat := g.fl[t], Next(g.fl, t);
    var ptr1, g1 := ptr[b := q][p := b], Ghosts(InsertAt(g.fl, t, b), g.live - {b}, g.own);
    Insert(ptr, size, g.fl, g.live, g.own, b, t);
    InsertTouch(size, g.fl, t, b);
    UpperTouch(size, g.fl, t, b);
    if b + SizeAt(size, b) == q {
      ShapeFacts(ptr1, size, g1);
      Join(ptr1, size, g1.fl, g1.live, g1.own, t + 1);
      JoinTouch(size, g1.fl, t + 1);
      g' := Joining(g1, t + 1);
      RenameKeys(g1.own, q, b);
      Increasing(size, g.fl, t, t + 1);
      assert ptr1[b := ptr1[q]] == ptr[b := ptr[q]][p := b];
    } else {
      g' := g1;
      OneLess(size, g1.fl, t);
    }
  }

  lemma RenameKeys(own: map<nat, nat>, b: nat, a: nat)
    ensures Rename(own, b, a).Keys == own.Keys
  {
  }

  lemma OneLess(size: map<nat, nat>, fl: seq<nat>, t: nat)
    requires TouchOnly(size, fl, {t, t + 1}) && !Touches(size, fl, t + 1)
    ensures TouchOnly(size, fl, {t})
  {
  }

  /** The new block touches the one above it exactly when free's address test says so. */
  lemma UpperTouch(size: map<nat, nat>, fl: seq<nat>, t: nat, b: nat)
    requires Ordered(size, fl) && t < |fl| && fl[t] < b
    ensures
      var fl' := InsertAt(fl, t, b);
      && (Touches(size, fl', t + 1) <==> b + SizeAt(size, b) == Next(fl, t))
      && (Touches(size, fl', t + 1) ==> t + 1 < |fl| && fl'[t + 2] == fl[t + 1] && Next(fl, t) == fl[t + 1])
  {
    if t > 0 {
      Increasing(size, fl, 0, t);
    }
  }

  /** The second half of free: the block below takes b in if they touch. */
  lemma FreeLower(ptr: map<nat, nat>, size: map<nat, nat>, g: Ghosts, t: nat) returns (g': Ghosts)
    requires Shape(ptr, size, g.fl, g.live, g.own) && TouchOnly(size, g.fl, {t}) && t + 1 < |g.fl|
    ensures
      var p, b := g.fl[t], g.fl[t + 1];
      && b in ptr && p in g'.fl && g'.live == g.live && g'.own.Keys == g.own.Keys
      && var size' := if p + SizeAt(size, p) == b then size[p := SizeAt(size, p) + SizeAt(size, b)] else size;
         var ptr' := if p + SizeAt(size, p) == b then ptr[p := ptr[b]] else ptr;
         HeapOk(ptr', size', g') && Holds(size', g'.fl, b, SizeAt(size, b))
  {
    hide Shape, Ordered, TouchOnly, Rename;
    ShapeFacts(ptr, size, g);
    var p: nat, b: nat := g.fl[t], g.fl[t + 1];
    Increasing(size, g.fl, t, t + 1);
    if p + SizeAt(size, p) == b {
      assert Touches(size, g.fl, t);
      Join(ptr, size, g.fl, g.live, g.own, t);
      JoinLast(size, g.fl, t);
      g' := Joining(g, t);
      RenameKeys(g.own, b, p);
      assert g'.fl[t] == p;
    } else {
      g' := g;
      NoneLeft(size, g.fl, t);
      assert g'.fl[t + 1] == b;
    }
  }

  lemma NoneLeft(size: map<nat, nat>, fl: seq<nat>, t: nat)
    requires TouchOnly(size, fl, {t}) && !Touches(size, fl, t)
    ensures NoneTouch(size, fl)
  {
  }

  // ----- malloc -----

  /** A block that fits exactly leaves the list. */
  lemma TakeWhole(ptr: map<nat, nat>, size: map<nat, nat>, g: Ghosts, k: nat)
    requires HeapOk(ptr, size, g) && 0 < k < |g.fl|
    ensures g.fl[k] in ptr
    ensures HeapOk(ptr[g.fl[k - 1] := ptr[g.fl[k]]], size, Ghosts(RemoveAt(g.fl, k), g.live + {g.fl[k]}, g.own))
  {
    hide Shape, Ordered, Chained, Tiled, Blocks, NoneTouch;
    ShapeFacts(ptr, size, g);
    ShapeTiled(ptr, size, g);
    var a: nat, fl' := g.fl[k], RemoveAt(g.fl, k);
    JoinChain(ptr, size, g.fl, k - 1);
    RemoveOrder(size, g.fl, k);
    RemoveBlocks(size, g.fl, g.live, k);
    InFree(g.fl, g.live);
    MoreLive(fl', g.live, a);
    assert Blocks(fl', g.live + {a}) == Blocks(g.fl, g.live);
    forall j | 0 <= j < |fl'|
      ensures fl'[j] !in g.live + {a}
    {
      Increasing(size, g.fl, if j < k then j else k, if j < k then k else j + 1);
    }
    ShapeFrom(ptr[g.fl[k - 1] := ptr[a]], size, Ghosts(fl', g.live + {a}, g.own));
  }

  lemma RemoveOrder(size: map<nat, nat>, fl: seq<nat>, k: nat)
    requires Ordered(size, fl) && NoneTouch(size, fl) && 0 < k < |fl|
    ensures Ordered(size, RemoveAt(fl, k)) && NoneTouch(size, RemoveAt(fl, k))
  {
    var fl' := RemoveAt(fl, k);
    hide RemoveAt;
    assert Ordered(size, fl') by {
      hide NoneTouch;
    }
    forall j: nat
      ensures !Touches(size, fl', j)
    {
      assert !Touches(size, fl, j) && !Touches(size, fl, j + 1);
    }
  }

  /** The last n units of block p become a block of their own. */
  ghost function Carve(own: map<nat, nat>, p: nat, a: nat): map<nat, nat> {
    map u | u in own :: if own[u] == p && u >= a then a else own[u]
  }

  lemma CarveTiled(size: map<nat, nat>, blocks: set<nat>, own: map<nat, nat>, p: nat, a: nat, n: nat)
    requires Tiled(size, blocks, own) && p in blocks && 0 < n < SizeAt(size, p) && a == p + SizeAt(size, p) - n
    ensures a !in blocks
    ensures Tiled(size[p := SizeAt(size, p) - n][a := n], blocks + {a}, Carve(own, p, a))
  {
    var size', own', blocks' := size[p := SizeAt(size, p) - n][a := n], Carve(own, p, a), blocks + {a};
    assert Covers(own, p, SizeAt(size, p));
    assert a in own && own[a] == p;
    assert a in blocks ==> Covers(own, a, SizeAt(size, a));
    assert SizeAt(size', p) == SizeAt(size, p) - n && SizeAt(size', a) == n;
    assert forall x: nat :: x != p && x != a ==> SizeAt(size', x) == SizeAt(size, x);
    hide SizeAt, Covers;
    CarveParts(size, blocks, own, p, a, n, size');
  }

  lemma CarveParts(size: map<nat, nat>, blocks: set<nat>, own: map<nat, nat>, p: nat, a: nat, n: nat, size': map<nat, nat>)
    requires Tiled(size, blocks, own) && p in blocks && 0 < n < SizeAt(size, p) && a == p + SizeAt(size, p) - n && a !in blocks
    requires SizeAt(size', p) == SizeAt(size, p) - n && SizeAt(size', a) == n
    requires forall x: nat :: x != p && x != a ==> SizeAt(size', x) == SizeAt(size, x)
    ensures Tiled(size', blocks + {a}, Carve(own, p, a))
  {
    hide SizeAt, Covers;
    var own' := Carve(own, p, a);
    forall u: nat | u in own'
      ensures Within(size', blocks + {a}, own'[u], u)
    {
      CarveWithin(size, blocks, own, p, a, n, size', u);
    }
    hide Within;
    CarveCovers(own, p, a, SizeAt(size, p), n);
    forall x: nat | x in blocks && x != p
      ensures Covers(own', x, SizeAt(size', x))
    {
      assert Covers(own, x, SizeAt(size, x));
      CarveKept(own, p, a, x, SizeAt(size, x));
    }
  }

  lemma CarveWithin(size: map<nat, nat>, blocks: set<nat>, own: map<nat, nat>, p: nat, a: nat, n: nat, size': map<nat, nat>, u: nat)
    requires u in own && Within(size, blocks, own[u], u) && n < SizeAt(size, p) && a == p + SizeAt(size, p) - n && a !in blocks
    requires SizeAt(size', p) == SizeAt(size, p) - n && SizeAt(size', a) == n
    requires forall x: nat :: x != p && x != a ==> SizeAt(size', x) == SizeAt(size, x)
    ensures Within(size', blocks + {a}, Carve(own, p, a)[u], u)
  {
    hide SizeAt;
  }

  lemma CarveCovers(own: map<nat, nat>, p: nat, a: nat, m: nat, n: nat)
    requires Covers(own, p, m) && n < m && a == p + m - n
    ensures Covers(Carve(own, p, a), p, m - n) && Covers(Carve(own, p, a), a, n)
  {
  }

  lemma CarveKept(own: map<nat, nat>, p: nat, a: nat, x: nat, n: nat)
    requires Covers(own, x, n) && x != p
    ensures Covers(Carve(own, p, a), x, n)
  {
  }

  lemma TakeTail(ptr: map<nat, nat>, size: map<nat, nat>, g: Ghosts, k: nat, n: nat)
    requires HeapOk(ptr, size, g) && 0 < k < |g.fl| && 0 < n < SizeAt(size, g.fl[k])
    ensures
      var p := g.fl[k];
      var a := p + SizeAt(size, p) - n;
      && a !in g.live
      && HeapOk(ptr, size[p := SizeAt(size, p) - n][a := n], Ghosts(g.fl, g.live + {a}, Carve(g.own, p, a)))
  {
    hide Shape, Ordered, Chained, Tiled, Blocks, Carve, NoneTouch;
    ShapeFacts(ptr, size, g);
    ShapeTiled(ptr, size, g);
    var p: nat := g.fl[k];
    var a: nat := p + SizeAt(size, p) - n;
    InFree(g.fl, g.live);
    CarveTiled(size, Blocks(g.fl, g.live), g.own, p, a, n);
    MoreLive(g.fl, g.live, a);
    Increasing(size, g.fl, 0, k);
    CarveOrder(size, g.fl, k, a, n);
    ShapeFrom(ptr, size[p := SizeAt(size, p) - n][a := n], Ghosts(g.fl, g.live + {a}, Carve(g.own, p, a)));
  }

  lemma ShapeTiled(ptr: map<nat, nat>, size: map<nat, nat>, g: Ghosts)
    requires Shape(ptr, size, g.fl, g.live, g.own)
    ensures Tiled(size, Blocks(g.fl, g.live), g.own)
    ensures forall a :: a in g.live ==> a in Blocks(g.fl, g.live)
  {
  }

  lemma ShapeFrom(ptr: map<nat, nat>, size: map<nat, nat>, g: Ghosts)
    requires Chained(ptr, g.fl) && Ordered(size, g.fl) && Tiled(size, Blocks(g.fl, g.live), g.own)
    requires forall k :: 0 <= k < |g.fl| ==> g.fl[k] !in g.live
    ensures Shape(ptr, size, g.fl, g.live, g.own)
  {
  }

  lemma MoreLive(fl: seq<nat>, live: set<nat>, a: nat)
    ensures Blocks(fl, live + {a}) == Blocks(fl, live) + {a}
  {
  }

  lemma CarveOrder(size: map<nat, nat>, fl: seq<nat>, k: nat, a: nat, n: nat)
    requires Ordered(size, fl) && NoneTouch(size, fl) && 0 < k < |fl| && 0 < n < SizeAt(size, fl[k])
    requires forall j :: 0 <= j < |fl| ==> fl[j] != a
    ensures
      var size' := size[fl[k] := SizeAt(size, fl[k]) - n][a := n];
      Ordered(size', fl) && NoneTouch(size', fl)
  {
    var size' := size[fl[k] := SizeAt(size, fl[k]) - n][a := n];
    forall j | 0 <= j < |fl|
      ensures SizeAt(size', fl[j]) == if j == k then SizeAt(size, fl[j]) - n else SizeAt(size, fl[j])
    {
      if j != k {
        Increasing(size, fl, if j < k then j else k, if j < k then k else j);
      }
    }
    assert fl[k] != BASE && fl[0] != a;
    assert BASE in size' && size'[BASE] == 0;
    hide SizeAt;
    forall j: nat
      ensures !Touches(size', fl, j)
    {
      assert !Touches(size, fl, j);
    }
  }

  /** The n units from a on, all in block a. */
  ghost function Region(a: nat, n: nat): (m: map<nat, nat>)
    ensures forall u: nat :: u in m <==> a <= u < a + n
    ensures forall u: nat :: u in m ==> m[u] == a
  {
    if n == 0 then map[] else Region(a, n - 1)[a + n - 1 := a]
  }

  /** Memory from the system becomes a block handed out, about to be freed. */
  lemma NewRegion(ptr: map<nat, nat>, size: map<nat, nat>, g: Ghosts, a: nat, n: nat)
    requires HeapOk(ptr, size, g) && a > BASE && n > 0 && forall u: nat :: u in g.own ==> u < a
    ensures a !in g.live
    ensures HeapOk(ptr, size[a := n], Ghosts(g.fl, g.live + {a}, g.own + Region(a, n)))
  {
    ShapeFacts(ptr, size, g);
    var size', own', blocks := size[a := n], g.own + Region(a, n), Blocks(g.fl, g.live);
    forall x: nat | x in blocks
      ensures x != a && SizeAt(size', x) == SizeAt(size, x)
    {
      assert Covers(g.own, x, SizeAt(size, x));
      assert x in g.own;
    }
    InFree(g.fl, g.live);
    assert forall j :: 0 <= j < |g.fl| ==> g.fl[j] != a;
    assert Blocks(g.fl, g.live + {a}) == blocks + {a};
    RegionTiled(size, blocks, g.own, a, n);
    hide Shape, Blocks, Tiled, Region;
    SameSizes(size, size', g.fl);
  }

  lemma SameSizes(size: map<nat, nat>, size': map<nat, nat>, fl: seq<nat>)
    requires Ordered(size, fl) && NoneTouch(size, fl) && BASE in size' && size'[BASE] == 0
    requires forall j :: 0 <= j < |fl| ==> SizeAt(size', fl[j]) == SizeAt(size, fl[j])
    ensures Ordered(size', fl) && NoneTouch(size', fl)
  {
    hide SizeAt;
    forall j: nat
      ensures !Touches(size', fl, j)
    {
      assert !Touches(size, fl, j);
    }
  }

  lemma RegionTiled(size: map<nat, nat>, blocks: set<nat>, own: map<nat, nat>, a: nat, n: nat)
    requires Tiled(size, blocks, own) && a > BASE && n > 0 && forall u: nat :: u in own ==> u < a
    requires forall x: nat :: x in blocks ==> x != a && SizeAt(size[a := n], x) == SizeAt(size, x)
    ensures Tiled(size[a := n], blocks + {a}, own + Region(a, n))
  {
    var size', own' := size[a := n], own + Region(a, n);
    assert SizeAt(size', a) == n;
    hide SizeAt, Region;
    forall x: nat | x in blocks
      ensures Covers(own', x, SizeAt(size', x))
    {
      assert Covers(own, x, SizeAt(size, x));
    }
    forall u: nat | u in own'
      ensures Within(size', blocks + {a}, own'[u], u)
    {
      if u in own {
        assert Within(size, blocks, own[u], u);
      }
    }
  }

  // ----- The allocator -----

  const HEADER := 16
  const NALLOC := 4096

  /** Units for nbytes and a header. */
  function Units(nbytes: nat): (n: nat)
    ensures n >= 1 && (n - 1) * HEADER >= nbytes && (nbytes == 0 ==> n == 1) && (nbytes > 0 ==> (n - 2) * HEADER < nbytes)
  {
    (nbytes + HEADER - 1) / HEADER + 1
  }

  /** Bytes that malloc asks sbrk for when nothing fits. */
  function Asked(nbytes: nat): (r: nat)
    ensures r >= 65536 && r >= Units(nbytes) * 16 && (r == 65536 || r == Units(nbytes) * 16)
  {
    (if Units(nbytes) < NALLOC then NALLOC else Units(nbytes)) * HEADER
  }

  /** A number passed as a 32-bit int. */
  function AsInt(x: nat): int {
    var y := x % 0x1_0000_0000;
    if y < 0x8000_0000 then y else y - 0x1_0000_0000
  }

  /** sbrk is asked for what is wanted exactly below 2 GB; at and above, its argument is negative or much too small. */
  lemma AskedIff(nbytes: nat)
    requires nbytes < 0x1_0000_0000
    ensures AsInt(Asked(nbytes)) == Asked(nbytes) <==> Asked(nbytes) < 0x8000_0000
    ensures Asked(nbytes) >= 0x8000_0000 ==> AsInt(Asked(nbytes)) < NALLOC * HEADER
    ensures AsInt(Asked(nbytes)) < 0 <==> 0x8000_0000 <= Asked(nbytes) < 0x1_0000_0000
  {
    hide Units;
    UnitsBound(nbytes);
  }

  /** Where it goes wrong: one byte more than 0x7FFF_FFE0 and sbrk's argument is negative. */
  lemma NegativeRequest()
    ensures Asked(0x7FFF_FFE0) == 0x7FFF_FFF0 == AsInt(Asked(0x7FFF_FFE0))
    ensures Asked(0x7FFF_FFF0) == 0x8000_0000 && AsInt(Asked(0x7FFF_FFF0)) == -0x8000_0000
    ensures forall nbytes: nat :: nbytes <= 0x7FFF_FFE0 ==> AsInt(Asked(nbytes)) == Asked(nbytes)
    ensures AsInt(Asked(0x7FFF_FFE1)) < 0
  {
    assert Units(0x7FFF_FFE0) == 0x7FF_FFFF && Units(0x7FFF_FFF0) == Units(0x7FFF_FFE1) == 0x800_0000;
    hide Units;
    forall nbytes: nat | nbytes <= 0x7FFF_FFE0
      ensures AsInt(Asked(nbytes)) == Asked(nbytes)
    {
      UnitsGrow(nbytes, 0x7FFF_FFE0);
    }
  }

  lemma UnitsGrow(a: nat, b: nat)
    requires a <= b
    ensures Units(a) <= Units(b)
  {
  }

  lemma UnitsBound(nbytes: nat)
    requires nbytes < 0x1_0000_0000
    ensures Units(nbytes) <= 0x1000_0001
  {
  }

  lemma AtLeastOne(nbytes: nat)
    ensures Units(nbytes) >= 1
  {
  }

  /** No free block has n units. */
  ghost predicate NoneFits(size: map<nat, nat>, fl: seq<nat>, n: nat) {
    forall k :: 0 <= k < |fl| ==> SizeAt(size, fl[k]) < n
  }

  /** The d-th place after f, around a list of n. */
  function Rot(f: nat, d: nat, n: nat): nat
    requires f < n && d <= n
  {
    if f + d < n then f + d else f + d - n
  }

  /** Blocks handed out are as before, except that `gone` may be free now. */
  ghost predicate LiveKept(size: map<nat, nat>, g: Ghosts, size': map<nat, nat>, g': Ghosts, gone: set<nat>) {
    forall a :: a in g.live - gone ==> a in g'.live && SizeAt(size', a) == SizeAt(size, a)
  }

  class Heap {
    var ptr: map<nat, nat>
    var size: map<nat, nat>
    var freep: nat
    ghost var g: Ghosts

    ghost predicate Valid()
      reads this
    {
      if freep == 0 then g == Ghosts([], {}, map[]) else HeapOk(ptr, size, g) && freep in g.fl
    }

    constructor ()
      ensures Valid() && g == Ghosts([], {}, map[])
    {
      ptr, size, freep := map[], map[], 0;
      g := Ghosts([], {}, map[]);
    }

    /** free: the block goes back on the list and joins its free neighbours. */
    method Free(ap: nat)
      requires Valid() && ap > 0 && ap - 1 in g.live
      modifies this
      ensures Valid() && freep != 0
      ensures g.live == old(g.live) - {ap - 1} && g.own.Keys == old(g.own.Keys)
      ensures LiveKept(old(size), old(g), size, g, {ap - 1})
      ensures Holds(size, g.fl, ap - 1, SizeAt(old(size), ap - 1))
      ensures old(g.fl) != [] && old(g.fl)[0] < ap - 1 && freep == old(g.fl)[Spot(old(g.fl), ap - 1)]
    {
      hide HeapOk, Shape, TouchOnly, Spot, Holds, Ordered;
      var bp := ap - 1;
      var p, t := FindSpot(bp);
      SpotPlace(g.fl, bp);
      PlaceFacts(ptr, size, g, t);
      ghost var size0, g0 := size, g;
      ghost var g1 := JoinUpper(bp, p, t);
      ghost var size1 := size;
      ghost var g2 := JoinLower(bp, p, t, g1);
      HoldsMore(size, g2.fl, bp, SizeAt(size0, bp), SizeAt(size1, bp));
      OnlyFreed(size0, g0, size1, size, g2, bp, p);
      freep := p;
      g := g2;
    }

    /** free's test against the block above. */
    method JoinUpper(bp: nat, p: nat, ghost t: nat) returns (ghost g1: Ghosts)
      requires HeapOk(ptr, size, g) && bp in g.live && t < |g.fl| && p == g.fl[t] < bp && (t + 1 < |g.fl| ==> bp < g.fl[t + 1])
      modifies this`ptr, this`size
      ensures Shape(ptr[p := bp], size, g1.fl, g1.live, g1.own) && TouchOnly(size, g1.fl, {t})
      ensures g1.live == g.live - {bp} && g1.own.Keys == g.own.Keys
      ensures t + 1 < |g1.fl| && g1.fl[t] == p && g1.fl[t + 1] == bp && p !in g.live && bp in ptr
      ensures size == old(size)[bp := SizeAt(size, bp)] && SizeAt(size, bp) >= SizeAt(old(size), bp)
    {
      hide HeapOk, Shape, TouchOnly, Next;
      LiveFacts(ptr, size, g, bp);
      PlaceFacts(ptr, size, g, t);
      LinkFacts(ptr, size, g, t);
      g1 := FreeUpper(ptr, size, g, bp, t);
      if bp + size[bp] == ptr[p] {
        var q := ptr[p];
        size := size[bp := size[bp] + size[q]];
        ptr := ptr[bp := ptr[q]];
      } else {
        assert size[bp := size[bp]] == size;
        ptr := ptr[bp := ptr[p]];
      }
    }

    /** free's test against the block below. */
    method JoinLower(bp: nat, p: nat, ghost t: nat, ghost g1: Ghosts) returns (ghost g2: Ghosts)
      requires Shape(ptr[p := bp], size, g1.fl, g1.live, g1.own) && TouchOnly(size, g1.fl, {t})
      requires t + 1 < |g1.fl| && g1.fl[t] == p && g1.fl[t + 1] == bp && p != bp && bp in ptr
      modifies this`ptr, this`size
      ensures HeapOk(ptr, size, g2) && p in g2.fl && g2.live == g1.live && g2.own.Keys == g1.own.Keys
      ensures size == old(size)[p := SizeAt(size, p)] && Holds(size, g2.fl, bp, SizeAt(old(size), bp))
    {
      hide HeapOk, Shape, TouchOnly, Holds;
      ghost var ptr1 := ptr[p := bp];
      BothSized(ptr1, size, g1, t);
      g2 := FreeLower(ptr1, size, g1, t);
      if p + size[p] == bp {
        size := size[p := size[p] + size[bp]];
        assert ptr1[p := ptr1[bp]] == ptr[p := ptr[bp]];
        ptr := ptr[p := ptr[bp]];
      } else {
        assert size[p := size[p]] == size;
        ptr := ptr[p := bp];
      }
    }

    /** morecore: at least NALLOC units from the system; `grant` is what sbrk returns, if it does not fail. */
    method Morecore(nu: nat, grant: Option<nat>) returns (r: nat)
      requires Valid() && freep != 0 && nu > 0
      requires grant.Some? ==> grant.value > BASE && forall u: nat :: u in g.own ==> u < grant.value
      modifies this
      ensures Valid() && r == if grant.None? then 0 else freep
      ensures grant.None? ==> ptr == old(ptr) && size == old(size) && freep == old(freep) && g == old(g)
      ensures grant.Some? ==>
        && freep != 0 && g.live == old(g.live) && LiveKept(old(size), old(g), size, g, {})
        && g.own.Keys == old(g.own.Keys) + Region(grant.value, if nu < NALLOC then NALLOC else nu).Keys
        && !NoneFits(size, g.fl, nu)
    {
      hide HeapOk, NoneFits, LiveKept, Region;
      var n := if nu < NALLOC then NALLOC else nu;
      if grant.None? {
        return 0;
      }
      var hp := grant.value;
      NewRegion(ptr, size, g, hp, n);
      ghost var size0, g0 := size, g;
      size := size[hp := n];
      g := Ghosts(g.fl, g.live + {hp}, g.own + Region(hp, n));
      ghost var size1, g1 := size, g;
      Free(hp + 1);
      assert g.live == g0.live;
      KeptLive(size0, g0, size1, g1, size, g, hp);
      FitsNow(size, g.fl, hp, n, nu);
      r := freep;
    }

    /** Taking n units from the k-th free block. */
    method Take(prevp: nat, p: nat, n: nat, ghost k: nat) returns (a: nat)
      requires Valid() && freep != 0 && 0 < k < |g.fl| && g.fl[k] == p && g.fl[k - 1] == prevp && 0 < n <= SizeAt(size, p)
      modifies this
      ensures Valid() && freep != 0 && a !in old(g.live) && g.live == old(g.live) + {a} && SizeAt(size, a) == n
      ensures a + n == p + SizeAt(old(size), p) && freep == prevp
      ensures LiveKept(old(size), old(g), size, g, {}) && g.own.Keys == old(g.own.Keys)
    {
      hide HeapOk, Carve, Next;
      HeapFacts(ptr, size, g);
      a := p;
      if size[p] == n {
        TakeWhole(ptr, size, g, k);
        ptr := ptr[prevp := ptr[p]];
        g := Ghosts(RemoveAt(g.fl, k), g.live + {p}, g.own);
        assert g.fl[k - 1] == prevp;
      } else {
        TakeTail(ptr, size, g, k, n);
        size := size[p := size[p] - n];
        a := p + size[p];
        size := size[a := n];
        CarveKeys(g.own, p, a);
        g := Ghosts(g.fl, g.live + {a}, Carve(g.own, p, a));
      }
      freep := prevp;
    }

    /** The first call sets up the list with `base` alone. */
    method Initialise()
      requires freep == 0
      modifies this
      ensures Valid() && freep != 0 && g == Ghosts([BASE], {}, map[])
    {
      Initial(ptr, size);
      hide HeapOk;
      ptr, size, freep := ptr[BASE := BASE], size[BASE := 0], BASE;
      g := Ghosts([BASE], {}, map[]);
    }

    /** malloc: a block of its own for the caller, or nothing if no free block fits and the system refuses. */
    method Malloc(nbytes: nat, grant: Option<nat>) returns (r: Option<nat>)
      requires Valid() && nbytes < 0x1_0000_0000 && (NoneFits(size, g.fl, Units(nbytes)) ==> Asked(nbytes) < 0x8000_0000)
      requires grant.Some? ==> grant.value > BASE && forall u: nat :: u in g.own ==> u < grant.value
      modifies this
      ensures Valid() && freep != 0 && LiveKept(old(size), old(g), size, g, {})
      ensures r.None? ==>
        grant.None? && NoneFits(size, g.fl, Units(nbytes)) && g.live == old(g.live) && g.own == old(g.own)
      ensures r.Some? ==>
        && r.value > 0 && r.value - 1 !in old(g.live) && g.live == old(g.live) + {r.value - 1}
        && SizeAt(size, r.value - 1) == Units(nbytes)
      ensures !NoneFits(old(size), old(g.fl), Units(nbytes)) ==>
        r.Some? && NextFit(old(size), old(g.fl), old(freep), r.value - 1, Units(nbytes), freep)
      ensures Obtained(old(size), old(g), g, grant, Units(nbytes))
    {
      hide HeapOk, NoneFits, LiveKept, Obtained, Units, Scan, Progress, NextFit;
      var nunits := Units(nbytes);
      AtLeastOne(nbytes);
      ghost var size0, g0 := size, g;
      if freep == 0 {
        Initialise();
      }
      var prevp := freep;
      Started(size0, g0, size, g, grant, nunits);
      ghost var c, grown := 0, false;
      ScanStart(ptr, size, g, freep, nunits);
      var p := ptr[prevp];
      while true
        invariant Valid() && freep != 0 && Scan(size, g.fl, freep, c, prevp, p, nunits)
        invariant Progress(size0, g0, size, g, grant, nunits, grown) && (!grown && g0.fl != [] ==> freep == old(freep))
        decreases if grown then 0 else 1, |g.fl| - c
      {
        ghost var size1, g1 := size, g;
        ghost var k := ScanPlace(ptr, size, g, freep, c, prevp, p, nunits);
        if size[p] >= nunits {
          ghost var p1, freep1 := p, freep;
          p := Take(prevp, p, nunits, k);
          Taken(size0, g0, size1, g1, size, g, grant, nunits, grown);
          FoundFit(size0, g0, size1, g1, grant, nunits, grown, freep1, c, prevp, p1, p);
          return Some(p + 1);
        }
        ScanNext(ptr, size, g, freep, c, prevp, p, nunits);
        if p == freep {
          NotGrown(size0, g0, size, g, grant, nunits, grown);
          p := Morecore(nunits, grant);
          if p == 0 {
            return None;
          }
          MoreUnits(size0, g0, size1, g1, size, g, grant, nunits);
          ScanStart(ptr, size, g, freep, nunits);
          grown, c := true, 0;
        } else {
          c := c + 1;
        }
        prevp, p := p, ptr[p];
      }
    }

    /** The search loop of free. */
    method FindSpot(bp: nat) returns (p: nat, ghost t: nat)
      requires Valid() && bp in g.live
      ensures freep != 0 && g.fl != [] && g.fl[0] < bp && p == g.fl[Spot(g.fl, bp)]
      ensures t == Spot(g.fl, bp) && (t + 1 < |g.fl| ==> bp < g.fl[t + 1])
    {
      hide HeapOk, Shape, Chained, Ordered, NoneTouch;
      HeapFacts(ptr, size, g);
      ghost var fl := g.fl;
      p := freep;
      ghost var i: nat :| i < |fl| && fl[i] == freep;
      t := Spot(fl, bp);
      while true
        invariant i < |fl| && p == fl[i]
        decreases Around(i, t, |fl|)
      {
        SpotTest(ptr, size, fl, i, bp);
        if bp > p && bp < ptr[p] {
          break;
        }
        if p >= ptr[p] && (bp > p || bp < ptr[p]) {
          break;
        }
        p := ptr[p];
        i := if i + 1 < |fl| then i + 1 else 0;
      }
    }
  }

  lemma SpotPlace(fl: seq<nat>, a: nat)
    requires fl != [] && fl[0] < a
    ensures Spot(fl, a) < |fl| && fl[Spot(fl, a)] < a
  {
  }

  lemma BothSized(ptr: map<nat, nat>, size: map<nat, nat>, g: Ghosts, t: nat)
    requires Shape(ptr, size, g.fl, g.live, g.own) && t + 1 < |g.fl|
    ensures g.fl[t] in size && g.fl[t + 1] in size
  {
    assert SizeAt(size, g.fl[t + 1]) >= 1 && (t > 0 ==> SizeAt(size, g.fl[t]) >= 1);
  }

  lemma HoldsMore(size: map<nat, nat>, fl: seq<nat>, b: nat, m: nat, n: nat)
    requires Holds(size, fl, b, n) && m <= n
    ensures Holds(size, fl, b, m)
  {
  }

  /** Only the sizes of the freed block and of the one below it changed. */
  lemma OnlyFreed(size0: map<nat, nat>, g0: Ghosts, size1: map<nat, nat>, size: map<nat, nat>, g: Ghosts, bp: nat, p: nat)
    requires size1 == size0[bp := SizeAt(size1, bp)] && size == size1[p := SizeAt(size, p)]
    requires g.live == g0.live - {bp} && p !in g0.live
    ensures LiveKept(size0, g0, size, g, {bp})
  {
  }

  lemma HeapFacts(ptr: map<nat, nat>, size: map<nat, nat>, g: Ghosts)
    requires HeapOk(ptr, size, g)
    ensures Shape(ptr, size, g.fl, g.live, g.own) && Chained(ptr, g.fl) && Ordered(size, g.fl) && NoneTouch(size, g.fl)
    ensures g.fl != [] && g.fl[0] == BASE && BASE in size && size[BASE] == 0
    ensures forall k :: 0 <= k < |g.fl| ==> g.fl[k] in ptr && g.fl[k] in size && g.fl[k] !in g.live
    ensures forall a :: a in g.live ==> a > BASE && a in size && size[a] >= 1
  {
    ShapeFacts(ptr, size, g);
    forall k | 0 <= k < |g.fl|
      ensures g.fl[k] in size
    {
      assert k > 0 ==> SizeAt(size, g.fl[k]) >= 1;
    }
    assert forall a :: a in g.live ==> SizeAt(size, a) >= 1;
  }

  lemma PlaceFacts(ptr: map<nat, nat>, size: map<nat, nat>, g: Ghosts, k: nat)
    requires HeapOk(ptr, size, g) && k < |g.fl|
    ensures g.fl[k] in size && SizeAt(size, g.fl[k]) == size[g.fl[k]] && (size[g.fl[k]] >= 1 ==> k > 0) && Ordered(size, g.fl)
    ensures g.fl[k] !in g.live && g.fl[k] > 0
  {
    HeapFacts(ptr, size, g);
  }

  lemma LiveFacts(ptr: map<nat, nat>, size: map<nat, nat>, g: Ghosts, a: nat)
    requires HeapOk(ptr, size, g) && a in g.live
    ensures a in size && SizeAt(size, a) == size[a] && a > BASE
  {
    HeapFacts(ptr, size, g);
  }

  lemma LinkFacts(ptr: map<nat, nat>, size: map<nat, nat>, g: Ghosts, k: nat)
    requires HeapOk(ptr, size, g) && k < |g.fl|
    ensures g.fl[k] in ptr && ptr[g.fl[k]] == Next(g.fl, k) && Next(g.fl, k) in ptr && Next(g.fl, k) in size
  {
    HeapFacts(ptr, size, g);
    assert Linked(ptr, g.fl, k);
  }

  lemma KeptLive(size0: map<nat, nat>, g0: Ghosts, size1: map<nat, nat>, g1: Ghosts, size: map<nat, nat>, g: Ghosts, hp: nat)
    requires LiveKept(size1, g1, size, g, {hp}) && g1.live == g0.live + {hp} && hp !in g0.live
    requires size1 == size0[hp := SizeAt(size1, hp)]
    ensures LiveKept(size0, g0, size, g, {})
  {
  }

  /** Freed memory from the system is part of some free block at least as large. */
  lemma FitsNow(size: map<nat, nat>, fl: seq<nat>, hp: nat, n: nat, nu: nat)
    requires Holds(size, fl, hp, n) && nu <= n
    ensures !NoneFits(size, fl, nu)
  {
  }

  lemma CarveKeys(own: map<nat, nat>, p: nat, a: nat)
    ensures Carve(own, p, a).Keys == own.Keys
  {
  }

  /** The units of the heap: those it had, or, if nothing fitted, those and the ones sbrk granted. */
  ghost predicate Obtained(size0: map<nat, nat>, g0: Ghosts, g: Ghosts, grant: Option<nat>, n: nat) {
    || g.own.Keys == g0.own.Keys
    || (grant.Some? && NoneFits(size0, g0.fl, n)
        && g.own.Keys == g0.own.Keys + Region(grant.value, if n < NALLOC then NALLOC else n).Keys)
  }

  lemma Initial(ptr: map<nat, nat>, size: map<nat, nat>)
    ensures HeapOk(ptr[BASE := BASE], size[BASE := 0], Ghosts([BASE], {}, map[]))
  {
    assert Blocks([BASE], {}) == {};
  }

  lemma Started(size0: map<nat, nat>, g0: Ghosts, size: map<nat, nat>, g: Ghosts, grant: Option<nat>, n: nat)
    requires (g0 == Ghosts([], {}, map[]) && g.own == map[] && g.live == {}) || (g == g0 && size == size0)
    ensures Progress(size0, g0, size, g, grant, n, false)
  {
  }

  lemma NextRot(fl: seq<nat>, f: nat, c: nat)
    requires f < |fl| && c < |fl|
    ensures Rot(f, c, |fl|) < |fl| && Rot(f, c + 1, |fl|) < |fl| && Rot(f, 0, |fl|) == f
    ensures Next(fl, Rot(f, c, |fl|)) == fl[Rot(f, c + 1, |fl|)]
    ensures Rot(f, c + 1, |fl|) == f <==> c + 1 == |fl|
    ensures Rot(f, c + 1, |fl|) > 0 ==> Rot(f, c, |fl|) == Rot(f, c + 1, |fl|) - 1
  {
  }

  /** The first c blocks after place f are too small. */
  ghost predicate Tested(size: map<nat, nat>, fl: seq<nat>, f: nat, c: nat, n: nat) {
    f < |fl| && c <= |fl| && forall d: nat :: 1 <= d <= c ==> SizeAt(size, fl[Rot(f, d, |fl|)]) < n
  }

  lemma NoneTested(size: map<nat, nat>, fl: seq<nat>, f: nat, n: nat)
    requires f < |fl|
    ensures Tested(size, fl, f, 0, n)
  {
  }

  lemma MoreTested(size: map<nat, nat>, fl: seq<nat>, f: nat, c: nat, n: nat)
    requires Tested(size, fl, f, c, n) && c < |fl| && SizeAt(size, fl[Rot(f, c + 1, |fl|)]) < n
    ensures Tested(size, fl, f, c + 1, n) && (c + 1 == |fl| ==> NoneFits(size, fl, n))
  {
    if c + 1 == |fl| {
      forall k | 0 <= k < |fl|
        ensures SizeAt(size, fl[k]) < n
      {
        var d: nat := if k > f then k - f else k + |fl| - f;
        assert Rot(f, d, |fl|) == k;
      }
    }
  }

  lemma SamePlace(size: map<nat, nat>, fl: seq<nat>, i: nat, j: nat)
    requires Ordered(size, fl) && i < |fl| && j < |fl|
    ensures fl[i] == fl[j] <==> i == j
  {
    if i < j {
      Increasing(size, fl, i, j);
    } else if j < i {
      Increasing(size, fl, j, i);
    }
  }

  /** malloc's search: c blocks behind freep were too small, p comes next. */
  ghost predicate Scan(size: map<nat, nat>, fl: seq<nat>, freep: nat, c: nat, prevp: nat, p: nat, n: nat) {
    exists f: nat :: ScanFrom(size, fl, freep, f, c, prevp, p, n)
  }

  ghost predicate ScanFrom(size: map<nat, nat>, fl: seq<nat>, freep: nat, f: nat, c: nat, prevp: nat, p: nat, n: nat) {
    && f < |fl| && c < |fl| && fl[f] == freep && Tested(size, fl, f, c, n)
    && prevp == fl[Rot(f, c, |fl|)] && p == fl[Rot(f, c + 1, |fl|)]
  }

  /** The block at a is the end of the first block behind freep that is large enough; freep' is the one before it. */
  ghost predicate NextFit(size: map<nat, nat>, fl: seq<nat>, freep: nat, a: nat, n: nat, freep': nat) {
    exists c: nat, p: nat :: Scan(size, fl, freep, c, freep', p, n) && SizeAt(size, p) >= n && a + n == p + SizeAt(size, p)
  }

  lemma ScanStart(ptr: map<nat, nat>, size: map<nat, nat>, g: Ghosts, freep: nat, n: nat)
    requires HeapOk(ptr, size, g) && freep in g.fl
    ensures freep in ptr && Scan(size, g.fl, freep, 0, freep, ptr[freep], n)
  {
    hide HeapOk, Next, Rot;
    var f: nat :| f < |g.fl| && g.fl[f] == freep;
    LinkFacts(ptr, size, g, f);
    NextRot(g.fl, f, 0);
    NoneTested(size, g.fl, f, n);
    assert ScanFrom(size, g.fl, freep, f, 0, freep, ptr[freep], n);
  }

  lemma ScanPlace(ptr: map<nat, nat>, size: map<nat, nat>, g: Ghosts, freep: nat, c: nat, prevp: nat, p: nat, n: nat) returns (k: nat)
    requires HeapOk(ptr, size, g) && Scan(size, g.fl, freep, c, prevp, p, n) && n >= 1
    ensures c < |g.fl| && p in size && size[p] == SizeAt(size, p)
    ensures size[p] >= n ==> 0 < k < |g.fl| && g.fl[k] == p && g.fl[k - 1] == prevp
  {
    hide HeapOk, Next, Rot;
    var f: nat :| ScanFrom(size, g.fl, freep, f, c, prevp, p, n);
    NextRot(g.fl, f, c);
    k := Rot(f, c + 1, |g.fl|);
    PlaceFacts(ptr, size, g, k);
  }

  lemma ScanNext(ptr: map<nat, nat>, size: map<nat, nat>, g: Ghosts, freep: nat, c: nat, prevp: nat, p: nat, n: nat)
    requires HeapOk(ptr, size, g) && Scan(size, g.fl, freep, c, prevp, p, n) && SizeAt(size, p) < n
    ensures p == freep ==> NoneFits(size, g.fl, n)
    ensures p != freep ==> p in ptr && c + 1 < |g.fl| && Scan(size, g.fl, freep, c + 1, p, ptr[p], n)
  {
    hide HeapOk, Next, Rot, NoneFits, Tested, Ordered, SizeAt;
    var f: nat :| ScanFrom(size, g.fl, freep, f, c, prevp, p, n);
    NextRot(g.fl, f, c);
    MoreTested(size, g.fl, f, c, n);
    var k := Rot(f, c + 1, |g.fl|);
    PlaceFacts(ptr, size, g, k);
    SamePlace(size, g.fl, f, k);
    if p != freep {
      LinkFacts(ptr, size, g, k);
      NextRot(g.fl, f, c + 1);
      assert ScanFrom(size, g.fl, freep, f, c + 1, p, ptr[p], n);
    }
  }

  /** What malloc has done so far; memory is obtained at most once, and then some block fits. */
  ghost predicate Progress(size0: map<nat, nat>, g0: Ghosts, size: map<nat, nat>, g: Ghosts, grant: Option<nat>, n: nat, grown: bool) {
    && LiveKept(size0, g0, size, g, {}) && g.live == g0.live && Obtained(size0, g0, g, grant, n)
    && (!grown ==> g.own == g0.own && (NoneFits(size, g.fl, n) ==> NoneFits(size0, g0.fl, n)))
    && (!grown && g0.fl != [] ==> size == size0 && g == g0)
    && (grown ==> !NoneFits(size, g.fl, n) && NoneFits(size0, g0.fl, n))
  }

  lemma FoundFit(size0: map<nat, nat>, g0: Ghosts, size: map<nat, nat>, g: Ghosts, grant: Option<nat>, n: nat, grown: bool,
                 freep: nat, c: nat, prevp: nat, p: nat, a: nat)
    requires Progress(size0, g0, size, g, grant, n, grown) && Scan(size, g.fl, freep, c, prevp, p, n)
    requires SizeAt(size, p) >= n && a + n == p + SizeAt(size, p)
    ensures !NoneFits(size0, g0.fl, n) ==> g0.fl != [] && NextFit(size0, g0.fl, freep, a, n, prevp)
    ensures !NoneFits(size0, g0.fl, n) ==> !grown
  {
    hide Scan, LiveKept, Obtained;
  }

  lemma Taken(size0: map<nat, nat>, g0: Ghosts, size1: map<nat, nat>, g1: Ghosts, size: map<nat, nat>, g: Ghosts,
              grant: Option<nat>, n: nat, grown: bool)
    requires Progress(size0, g0, size1, g1, grant, n, grown)
    requires LiveKept(size1, g1, size, g, {}) && g.own.Keys == g1.own.Keys
    ensures LiveKept(size0, g0, size, g, {}) && Obtained(size0, g0, g, grant, n) && g1.live == g0.live
  {
    hide NoneFits;
  }

  lemma NotGrown(size0: map<nat, nat>, g0: Ghosts, size: map<nat, nat>, g: Ghosts, grant: Option<nat>, n: nat, grown: bool)
    requires Progress(size0, g0, size, g, grant, n, grown) && NoneFits(size, g.fl, n)
    ensures !grown && LiveKept(size0, g0, size, g, {}) && Obtained(size0, g0, g, grant, n)
    ensures g.own == g0.own && g.live == g0.live && NoneFits(size0, g0.fl, n)
  {
    hide NoneFits, LiveKept;
  }

  lemma MoreUnits(size0: map<nat, nat>, g0: Ghosts, size1: map<nat, nat>, g1: Ghosts, size: map<nat, nat>, g: Ghosts,
                  grant: Option<nat>, n: nat)
    requires g1.own == g0.own && grant.Some? && NoneFits(size0, g0.fl, n) && !NoneFits(size, g.fl, n)
    requires g.own.Keys == g1.own.Keys + Region(grant.value, if n < NALLOC then NALLOC else n).Keys
    requires LiveKept(size0, g0, size1, g1, {}) && LiveKept(size1, g1, size, g, {}) && g1.live == g0.live == g.live
    ensures Progress(size0, g0, size, g, grant, n, true)
  {
    hide NoneFits;
  }

  // ----- What the invariant says -----

  /** Blocks, free or handed out, never overlap; free blocks are in address order and never touch. */
  lemma HeapLayout(ptr: map<nat, nat>, size: map<nat, nat>, g: Ghosts)
    requires HeapOk(ptr, size, g)
    ensures forall a, b :: a in Blocks(g.fl, g.live) && b in Blocks(g.fl, g.live) && a < b ==> a + SizeAt(size, a) <= b
    ensures forall j, k :: 0 < j < k < |g.fl| ==> g.fl[j] + SizeAt(size, g.fl[j]) < g.fl[k]
  {
    hide Shape, Ordered, Tiled, Blocks, SizeAt, NoneTouch;
    ShapeFacts(ptr, size, g);
    ShapeTiled(ptr, size, g);
    forall a, b | a in Blocks(g.fl, g.live) && b in Blocks(g.fl, g.live) && a < b
      ensures a + SizeAt(size, a) <= b
    {
      Apart(size, Blocks(g.fl, g.live), g.own, a, b);
    }
    forall j, k | 0 < j < k < |g.fl|
      ensures g.fl[j] + SizeAt(size, g.fl[j]) < g.fl[k]
    {
      StrictlyBelow(size, g.fl, j, k);
    }
  }

  lemma StrictlyBelow(size: map<nat, nat>, fl: seq<nat>, j: nat, k: nat)
    requires Ordered(size, fl) && NoneTouch(size, fl) && j < k < |fl|
    ensures fl[j] + SizeAt(size, fl[j]) < fl[k]
  {
    assert !Touches(size, fl, j);
    if j + 1 < k {
      Increasing(size, fl, j + 1, k);
    }
  }

  /** Units in a set of blocks. */
  ghost function Total(size: map<nat, nat>, blocks: set<nat>): nat {
    if blocks == {} then 0 else
      var a := Pick(blocks);
      SizeAt(size, a) + Total(size, blocks - {a})
  }

  ghost function Pick(s: set<nat>): (a: nat)
    requires s != {}
    ensures a in s
  {
    var a :| a in s;
    a
  }

  lemma {:induction false} RegionCount(a: nat, n: nat)
    ensures |Region(a, n)| == n
  {
    if n > 0 {
      RegionCount(a, n - 1);
    }
  }

  /** Free and handed-out blocks together have exactly the units obtained from the system. */
  lemma {:induction false} UnitsConserved(size: map<nat, nat>, blocks: set<nat>, own: map<nat, nat>)
    requires Tiled(size, blocks, own)
    ensures Total(size, blocks) == |own|
    decreases |blocks|
  {
    if blocks == {} {
      assert forall u: nat, a: nat :: !Within(size, {}, a, u);
      assert own == map[];
    } else {
      var a := Pick(blocks);
      OneBlockLess(size, blocks, own, a);
      assert Covers(own, a, SizeAt(size, a));
      hide Tiled, SizeAt, Covers, Pick, Region;
      UnitsConserved(size, blocks - {a}, own - Region(a, SizeAt(size, a)).Keys);
      Peel(own, a, SizeAt(size, a));
    }
  }

  lemma Peel(own: map<nat, nat>, a: nat, n: nat)
    requires Covers(own, a, n)
    ensures |own| == |own - Region(a, n).Keys| + n
  {
    var region := Region(a, n);
    RegionCount(a, n);
    hide Region;
    assert own == (own - region.Keys) + region;
    SplitCount(own, own - region.Keys, region);
  }

  lemma SplitCount(own: map<nat, nat>, m: map<nat, nat>, n: map<nat, nat>)
    requires own == m + n && m.Keys !! n.Keys
    ensures |own| == |m| + |n|
  {
    assert own.Keys == m.Keys + n.Keys;
    assert |own| == |own.Keys| && |m| == |m.Keys| && |n| == |n.Keys|;
  }

  lemma OneBlockLess(size: map<nat, nat>, blocks: set<nat>, own: map<nat, nat>, a: nat)
    requires Tiled(size, blocks, own) && a in blocks
    ensures Tiled(size, blocks - {a}, own - Region(a, SizeAt(size, a)).Keys)
  {
    var n := SizeAt(size, a);
    var rest := own - Region(a, n).Keys;
    assert Covers(own, a, n);
    hide SizeAt;
    forall u: nat | u in rest
      ensures Within(size, blocks - {a}, rest[u], u)
    {
      assert Within(size, blocks, own[u], u);
    }
    forall x: nat | x in blocks - {a}
      ensures Covers(rest, x, SizeAt(size, x))
    {
      assert Covers(own, x, SizeAt(size, x));
      RestCovers(own, a, n, x, SizeAt(size, x));
    }
  }

  lemma RestCovers(own: map<nat, nat>, a: nat, n: nat, x: nat, m: nat)
    requires Covers(own, a, n) && Covers(own, x, m) && x != a
    ensures Covers(own - Region(a, n).Keys, x, m)
  {
    forall u: nat | x <= u < x + m
      ensures u in own && u !in Region(a, n).Keys
    {
      assert own[u] == x;
    }
  }
}
