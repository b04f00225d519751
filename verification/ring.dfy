/** The doubly linked list of kernel/bio.c, as two pointer fields over buffer indices.
    Index `head` stands for the sentinel `bcache.head`. */
module Ring {

  /** The sentinel, the listed buffers in order, and the sentinel again. */
  ghost function Loop(head: nat, list: seq<nat>): (r: seq<nat>)
    ensures |r| == |list| + 2
    ensures r[0] == head && r[|list| + 1] == head
    ensures forall k {:trigger r[k]} :: 1 <= k <= |list| ==> r[k] == list[k - 1]
  {
    [head] + list + [head]
  }

  ghost predicate Distinct(list: seq<nat>) {
    forall i, j :: 0 <= i < j < |list| ==> list[i] != list[j]
  }

  ghost predicate Below(list: seq<nat>, head: nat) {
    forall i :: 0 <= i < |list| ==> list[i] < head
  }

  /** Following `next` from the sentinel visits exactly `list`, and following `prev` visits it backwards. */
  ghost predicate Linked(next: seq<nat>, prev: seq<nat>, head: nat, list: seq<nat>) {
    && |next| == head + 1
    && |prev| == head + 1
    && Distinct(list)
    && Below(list, head)
    && var l := Loop(head, list);
       && (forall k {:trigger next[l[k]]} :: 0 <= k <= |list| ==> next[l[k]] == l[k + 1])
       && (forall k {:trigger prev[l[k]]} :: 1 <= k <= |list| + 1 ==> prev[l[k]] == l[k - 1])
  }

  /** `list` without its element at position `j`. */
  function Without(list: seq<nat>, j: nat): (r: seq<nat>)
    requires j < |list|
    ensures |r| == |list| - 1
    ensures forall k :: 0 <= k < j ==> r[k] == list[k]
    ensures forall k :: j <= k < |r| ==> r[k] == list[k + 1]
  {
    list[..j] + list[j + 1..]
  }

  /** Unlinking the j-th buffer, as brelse does first. */
  lemma UnlinkKeepsLinked(next: seq<nat>, prev: seq<nat>, head: nat, list: seq<nat>, j: nat)
    requires Linked(next, prev, head, list)
    requires j < |list|
    ensures next[list[j]] <= head && prev[list[j]] <= head
    ensures Linked(next[prev[list[j]] := next[list[j]]], prev[next[list[j]] := prev[list[j]]], head, Without(list, j))
  {
    var l, m := Loop(head, list), Loop(head, Without(list, j));
    var b := list[j];
    assert b == l[j + 1] && next[l[j + 1]] == l[j + 2] && prev[l[j + 1]] == l[j];
    var next' := next[prev[b] := next[b]];
    var prev' := prev[next[b] := prev[b]];
    forall k {:trigger next'[m[k]]} | 0 <= k < |list|
      ensures next'[m[k]] == m[k + 1]
    {
      NextUnlinked(next, prev, head, list, j, k);
    }
    forall k {:trigger prev'[m[k]]} | 1 <= k <= |list|
      ensures prev'[m[k]] == m[k - 1]
    {
      PrevUnlinked(next, prev, head, list, j, k);
    }
  }

  lemma NextUnlinked(next: seq<nat>, prev: seq<nat>, head: nat, list: seq<nat>, j: nat, k: nat)
    requires Linked(next, prev, head, list) && j < |list| && k < |list|
    ensures next[list[j]] <= head && prev[list[j]] <= head
    ensures
      var m := Loop(head, Without(list, j));
      m[k] <= head && next[prev[list[j]] := next[list[j]]][m[k]] == m[k + 1]
  {
    var l := Loop(head, list);
    assert list[j] == l[j + 1] && next[l[j + 1]] == l[j + 2] && prev[l[j + 1]] == l[j];
    assert next[l[k]] == l[k + 1] && next[l[k + 1]] == l[k + 2];
    WithoutLoop(head, list, j, k);
  }

  lemma PrevUnlinked(next: seq<nat>, prev: seq<nat>, head: nat, list: seq<nat>, j: nat, k: nat)
    requires Linked(next, prev, head, list) && j < |list| && 1 <= k <= |list|
    ensures next[list[j]] <= head && prev[list[j]] <= head
    ensures
      var m := Loop(head, Without(list, j));
      m[k] <= head && prev[next[list[j]] := prev[list[j]]][m[k]] == m[k - 1]
  {
    var l := Loop(head, list);
    assert list[j] == l[j + 1] && next[l[j + 1]] == l[j + 2] && prev[l[j + 1]] == l[j];
    assert prev[l[k]] == l[k - 1] && prev[l[k + 1]] == l[k];
    WithoutLoop(head, list, j, k - 1);
  }

  /** Leaving out the j-th buffer shifts the rest of the loop by one. */
  lemma WithoutLoop(head: nat, list: seq<nat>, j: nat, k: nat)
    requires Distinct(list) && Below(list, head)
    requires j < |list| && k < |list|
    ensures
      var l, m := Loop(head, list), Loop(head, Without(list, j));
      && m[k] == l[if k <= j then k else k + 1]
      && m[k + 1] == l[if k < j then k + 1 else k + 2]
      && (k != j ==> m[k] != l[j] && m[k + 1] != l[j + 2])
  {
    LoopDistinct(head, list, if k <= j then k else k + 1, j);
    LoopDistinct(head, list, if k < j then k else k + 1, j + 1);
  }

  /** The sentinel and the listed buffers are all different, seen from either end. */
  lemma LoopDistinct(head: nat, list: seq<nat>, x: nat, y: nat)
    requires Distinct(list) && Below(list, head)
    requires x <= |list| && y <= |list|
    ensures x != y ==> Loop(head, list)[x] != Loop(head, list)[y]
    ensures x != y ==> Loop(head, list)[x + 1] != Loop(head, list)[y + 1]
  {
  }

  /** Inserting a buffer right after the sentinel, as binit and brelse do. */
  lemma PushKeepsLinked(next: seq<nat>, prev: seq<nat>, head: nat, list: seq<nat>, b: nat)
    requires Linked(next, prev, head, list)
    requires b < head && b !in list
    ensures next[head] <= head
    ensures Linked(next[b := next[head]][head := b], prev[b := head][next[head] := b], head, [b] + list)
  {
    var l := Loop(head, list);
    assert next[l[0]] == l[1];
    var next' := next[b := next[head]][head := b];
    var prev' := prev[b := head][next[head] := b];
    var m := Loop(head, [b] + list);
    forall k {:trigger next'[m[k]]} | 0 <= k <= |list| + 1
      ensures next'[m[k]] == m[k + 1]
    {
      if k >= 2 {
        assert m[k] == l[k - 1] && m[k + 1] == l[k] && next[l[k - 1]] == l[k];
      }
    }
    forall k {:trigger prev'[m[k]]} | 1 <= k <= |list| + 2
      ensures prev'[m[k]] == m[k - 1]
    {
      if k >= 3 {
        assert m[k] == l[k - 1] && m[k - 1] == l[k - 2] && prev[l[k - 1]] == l[k - 2];
        LoopDistinct(head, list, k - 2, 0);
      }
    }
  }

  /** Where the sentinel's pointers lead. */
  lemma Ends(next: seq<nat>, prev: seq<nat>, head: nat, list: seq<nat>)
    requires Linked(next, prev, head, list)
    ensures next[head] == if list == [] then head else list[0]
    ensures prev[head] == if list == [] then head else list[|list| - 1]
  {
    var l := Loop(head, list);
    assert next[l[0]] == l[1];
    assert prev[l[|list| + 1]] == l[|list|];
  }

  /** Where the pointers of the k-th listed buffer lead. */
  lemma Neighbours(next: seq<nat>, prev: seq<nat>, head: nat, list: seq<nat>, k: nat)
    requires Linked(next, prev, head, list) && k < |list|
    ensures next[list[k]] == if k + 1 < |list| then list[k + 1] else head
    ensures prev[list[k]] == if k > 0 then list[k - 1] else head
  {
    var l := Loop(head, list);
    assert next[l[k + 1]] == l[k + 2];
    assert prev[l[k + 1]] == l[k];
  }
}
