/** The byte ring of kernel/pipe.c, with its 32-bit read and write counters. */
module PipeRing {
  const PIPESIZE := 512
  const WRAP := 0x1_0000_0000

  datatype Ring = Ring(data: seq<int>, nread: nat, nwrite: nat)

  /** Unread bytes, by unsigned 32-bit subtraction. */
  function Count(r: Ring): (c: nat)
    ensures c < WRAP
  {
    (r.nwrite - r.nread) % WRAP
  }

  ghost predicate RingOk(r: Ring) {
    && |r.data| == PIPESIZE
    && r.nread < WRAP && r.nwrite < WRAP
    && Count(r) <= PIPESIZE
  }

  /** The array index of the k-th unread byte. */
  function Slot(r: Ring, k: nat): (i: nat)
    ensures i < PIPESIZE
  {
    ((r.nread + k) % WRAP) % PIPESIZE
  }

  function Unread(r: Ring): (s: seq<int>)
    requires RingOk(r)
    ensures |s| == Count(r)
    ensures forall k :: 0 <= k < |s| ==> s[k] == r.data[Slot(r, k)]
  {
    seq(Count(r), k requires 0 <= k < Count(r) => r.data[Slot(r, k)])
  }

  /** The test "nwrite == nread + PIPESIZE" in 32-bit arithmetic. */
  predicate Full(r: Ring) {
    r.nwrite == (r.nread + PIPESIZE) % WRAP
  }

  function Put(r: Ring, b: int): Ring
    requires |r.data| == PIPESIZE
  {
    Ring(r.data[r.nwrite % PIPESIZE := b], r.nread, (r.nwrite + 1) % WRAP)
  }

  function Take(r: Ring): Ring {
    r.(nread := (r.nread + 1) % WRAP)
  }

  /** The array size divides the counter range, so wrap-around keeps the index. */
  lemma ModMod(x: nat)
    ensures (x % WRAP) % PIPESIZE == x % PIPESIZE
  {
    var q := x / WRAP;
    assert x % WRAP == x - q * 8388608 * PIPESIZE;
    ModShift(x, q * 8388608);
  }

  lemma ModShift(x: int, m: int)
    ensures (x - m * PIPESIZE) % PIPESIZE == x % PIPESIZE
  {
    var a := x / PIPESIZE;
    assert x - m * PIPESIZE == (a - m) * PIPESIZE + x % PIPESIZE;
  }

  /** Counters that are c apart: nwrite is nread + c, wrapped. */
  lemma WriteEnd(r: Ring)
    requires RingOk(r)
    ensures r.nwrite == (r.nread + Count(r)) % WRAP
    ensures Count(r) == if r.nwrite >= r.nread then r.nwrite - r.nread else r.nwrite + WRAP - r.nread
  {
  }

  /** The full test is exact, and so is the empty test. */
  lemma FullIff(r: Ring)
    requires RingOk(r)
    ensures Full(r) <==> Count(r) == PIPESIZE
    ensures r.nread == r.nwrite <==> Count(r) == 0
  {
    WriteEnd(r);
  }

  /** Different unread bytes sit in different slots, all different from the next free one. */
  lemma SlotsDiffer(r: Ring, j: nat, k: nat)
    requires j < k < j + PIPESIZE
    ensures Slot(r, j) != Slot(r, k)
  {
    SlotMod(r, j);
    SlotMod(r, k);
    hide Slot;
    ModApart(r.nread + j, k - j);
  }

  lemma SlotMod(r: Ring, k: nat)
    ensures Slot(r, k) == (r.nread + k) % PIPESIZE
  {
    ModMod(r.nread + k);
  }

  lemma ModApart(x: nat, d: nat)
    requires 0 < d < PIPESIZE
    ensures x % PIPESIZE != (x + d) % PIPESIZE
  {
  }

  /** Writing a byte appends it to the unread bytes. */
  lemma PutAppends(r: Ring, b: int)
    requires RingOk(r) && !Full(r)
    ensures RingOk(Put(r, b))
    ensures Unread(Put(r, b)) == Unread(r) + [b]
  {
    FullIff(r);
    WriteEnd(r);
    var t := Put(r, b);
    var c := Count(r);
    assert Count(t) == c + 1;
    ModMod(r.nread + c);
    assert r.nwrite % PIPESIZE == Slot(r, c);
    assert forall k: nat :: Slot(t, k) == Slot(r, k);
    hide Slot, Count;
    forall k | 0 <= k < c + 1
      ensures Unread(t)[k] == (Unread(r) + [b])[k]
    {
      if k < c {
        SlotsDiffer(r, k, c);
      }
    }
  }

  /** Reading a byte removes the first unread one. */
  lemma TakeRemoves(r: Ring)
    requires RingOk(r) && r.nread != r.nwrite
    ensures RingOk(Take(r)) && |Unread(r)| > 0
    ensures r.data[r.nread % PIPESIZE] == Unread(r)[0]
    ensures Unread(Take(r)) == Unread(r)[1..]
  {
    FullIff(r);
    TakeCount(r);
    FirstSlot(r);
    hide Slot, Count;
    var t := Take(r);
    forall k | 0 <= k < |Unread(t)|
      ensures Unread(t)[k] == Unread(r)[1..][k]
    {
      NextSlot(r, k);
    }
  }

  lemma TakeCount(r: Ring)
    requires RingOk(r) && r.nread != r.nwrite
    ensures RingOk(Take(r)) && Count(r) > 0 && Count(Take(r)) == Count(r) - 1
  {
    WriteEnd(r);
  }

  lemma FirstSlot(r: Ring)
    requires RingOk(r)
    ensures Slot(r, 0) == r.nread % PIPESIZE
  {
  }

  lemma NextSlot(r: Ring, k: nat)
    ensures Slot(Take(r), k) == Slot(r, k + 1)
  {
    ModMod(r.nread + 1 + k);
    ModMod(r.nread + 1);
    ModMod((r.nread + 1) % WRAP + k);
    AddMod((r.nread + 1) % WRAP, r.nread + 1, k);
  }

  lemma AddMod(x: nat, y: nat, k: nat)
    requires x % PIPESIZE == y % PIPESIZE
    ensures (x + k) % PIPESIZE == (y + k) % PIPESIZE
  {
    ModShift(x + k, x / PIPESIZE);
    ModShift(y + k, y / PIPESIZE);
  }

  /** The copy loops of pipewrite and piperead, inside the critical section. */
  class Pipe {
    var ring: Ring
    var readopen: bool
    var writeopen: bool

    constructor ()
      ensures RingOk(ring) && Unread(ring) == [] && readopen && writeopen
    {
      ring := Ring(seq(PIPESIZE, _ => 0), 0, 0);
      readopen := true;
      writeopen := true;
    }

    /** pipewrite up to the point where it would block: `valid` is how many user bytes can be copied in.
        The result is -1 for a closed reader or a killed writer, otherwise the number of bytes appended. */
    method PipeWrite(bytes: seq<int>, valid: nat, killed: bool) returns (n: int, blocked: bool)
      requires RingOk(ring) && valid <= |bytes|
      modifies this`ring
      ensures RingOk(ring)
      ensures |bytes| > 0 && (!readopen || killed) ==> n == -1 && !blocked && ring == old(ring)
      ensures |bytes| == 0 || (readopen && !killed) ==>
        && 0 <= n <= valid
        && Unread(ring) == old(Unread(ring)) + bytes[..n]
        && (blocked <==> n < |bytes| && |Unread(ring)| == PIPESIZE)
        && (!blocked ==> n == valid)
    {
      var i := 0;
      blocked := false;
      while i < |bytes|
        invariant i <= valid && RingOk(ring)
        invariant i > 0 ==> readopen && !killed
        invariant Unread(ring) == old(Unread(ring)) + bytes[..i]
        invariant !readopen || killed ==> ring == old(ring)
      {
        FullIff(ring);
        if !readopen || killed {
          return -1, false;
        }
        if Full(ring) {
          blocked := true;
          break;
        }
        if i >= valid {
          break;
        }
        PutAppends(ring, bytes[i]);
        assert bytes[..i + 1] == bytes[..i] + [bytes[i]];
        ring := Put(ring, bytes[i]);
        i := i + 1;
      }
      n := i;
    }

    /** The copy loop of piperead: `valid` is how many bytes can be copied out. */
    method PipeRead(want: nat, valid: nat) returns (n: int, out: seq<int>)
      requires RingOk(ring)
      modifies this`ring
      ensures RingOk(ring)
      ensures |out| == Min(want, Min(valid, old(|Unread(ring)|)))
      ensures out == old(Unread(ring))[..|out|] && Unread(ring) == old(Unread(ring))[|out|..]
      ensures n == if want > 0 && valid == 0 && old(|Unread(ring)|) > 0 then -1 else |out|
    {
      out := [];
      n := 0;
      ghost var before := Unread(ring);
      while n < want
        invariant 0 <= n <= want && n == |out| <= |before| && n <= valid
        invariant RingOk(ring)
        invariant out == before[..n] && Unread(ring) == before[n..]
      {
        FullIff(ring);
        if ring.nread == ring.nwrite {
          break;
        }
        TakeRemoves(ring);
        var ch := ring.data[ring.nread % PIPESIZE];
        if n >= valid {
          if n == 0 {
            n := -1;
          }
          break;
        }
        assert before[..n + 1] == before[..n] + [before[n]];
        assert before[n..][1..] == before[n + 1..];
        ring := Take(ring);
        out := out + [ch];
        n := n + 1;
      }
    }
  }

  function Min(a: int, b: int): int {
    if a < b then a else b
  }
}
