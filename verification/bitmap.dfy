/** The free-block bitmap of kernel/fs.c: one bit per disk block, eight to a byte. */
module Bitmap {
  import opened InodeMap

  const BPB := BSIZE * 8

  /** Is bit k of x set: x & (1 << k). */
  predicate Bit(x: nat, k: nat) {
    if k == 0 then x % 2 == 1 else Bit(x / 2, k - 1)
  }

  /** x | (1 << k). */
  function SetBit(x: nat, k: nat): nat {
    if k == 0 then x / 2 * 2 + 1 else x % 2 + 2 * SetBit(x / 2, k - 1)
  }

  /** x & ~(1 << k). */
  function ClearBit(x: nat, k: nat): nat {
    if k == 0 then x / 2 * 2 else x % 2 + 2 * ClearBit(x / 2, k - 1)
  }

  lemma Halves(b: nat, h: nat)
    requires b < 2
    ensures (b + 2 * h) / 2 == h && (b + 2 * h) % 2 == b
  {
  }

  lemma {:induction false} BitAfterSet(x: nat, k: nat, j: nat)
    ensures Bit(SetBit(x, k), j) <==> j == k || Bit(x, j)
  {
    Halves(x % 2, if k > 0 then SetBit(x / 2, k - 1) else x / 2);
    Halves(1, x / 2);
    if k > 0 && j > 0 {
      BitAfterSet(x / 2, k - 1, j - 1);
    }
  }

  lemma {:induction false} BitAfterClear(x: nat, k: nat, j: nat)
    ensures Bit(ClearBit(x, k), j) <==> j != k && Bit(x, j)
  {
    Halves(x % 2, if k > 0 then ClearBit(x / 2, k - 1) else x / 2);
    Halves(0, x / 2);
    if k > 0 && j > 0 {
      BitAfterClear(x / 2, k - 1, j - 1);
    }
  }

  function Pow2(k: nat): nat {
    if k == 0 then 1 else 2 * Pow2(k - 1)
  }

  /** Bit k is the k-th binary digit, so setting it in a zero byte gives 1 << k. */
  lemma {:induction false} BitIsDigit(x: nat, k: nat)
    ensures Pow2(k) > 0 && SetBit(0, k) == Pow2(k)
    ensures Bit(x, k) <==> x / Pow2(k) % 2 == 1
  {
    if k > 0 {
      BitIsDigit(x / 2, k - 1);
      DivTwice(x, Pow2(k - 1));
    }
  }

  lemma DivTwice(x: nat, p: nat)
    requires p > 0
    ensures x / 2 / p == x / (2 * p)
  {
    var q := x / 2 / p;
    var r := x / 2 - q * p;
    assert 0 <= r < p;
    assert x == 2 * p * q + (2 * r + x % 2);
    assert 0 <= 2 * r + x % 2 < 2 * p;
    Quotient(x, 2 * p, q, 2 * r + x % 2);
  }

  lemma Quotient(x: nat, d: nat, q: nat, r: nat)
    requires d > 0 && x == d * q + r && r < d
    ensures x / d == q
  {
    var e := x / d;
    assert d * e <= x < d * e + d;
    NextMultiple(d, e, q);
    NextMultiple(d, q, e);
  }

  lemma NextMultiple(d: nat, a: nat, b: nat)
    ensures a < b ==> d * a + d <= d * b
  {
    if a < b {
      assert d * (a + 1) <= d * b;
    }
  }

  lemma {:induction false} ZeroBits(k: nat)
    ensures !Bit(0, k)
  {
    if k > 0 {
      ZeroBits(k - 1);
    }
  }

  // ----- The bitmap on disk -----

  /** The bit of block p. */
  predicate Marked(disk: seq<Block>, start: nat, p: nat) {
    && start + p / BPB < |disk| && p % BPB / 8 < |disk[start + p / BPB]|
    && Bit(disk[start + p / BPB][p % BPB / 8], p % BPB % 8)
  }

  /** The disk after one byte of the bitmap is written. */
  function PutByte(disk: seq<Block>, t: nat, k: nat, x: nat): (r: seq<Block>)
    requires t < |disk| && k < |disk[t]|
    ensures |r| == |disk|
  {
    var page: Block := disk[t][k := x];
    disk[t := page]
  }

  /** Two blocks with the same place in the bitmap are the same block. */
  lemma SamePlace(p: nat, q: nat)
    requires p / BPB == q / BPB && p % BPB / 8 == q % BPB / 8 && p % BPB % 8 == q % BPB % 8
    ensures p == q
  {
  }

  lemma MarkOne(disk: seq<Block>, start: nat, p: nat)
    requires start + p / BPB < |disk| && |disk[start + p / BPB]| == BSIZE
    ensures
      var t, k := start + p / BPB, p % BPB / 8;
      var disk' := PutByte(disk, t, k, SetBit(disk[t][k], p % BPB % 8));
      forall q: nat :: Marked(disk', start, q) <==> q == p || Marked(disk, start, q)
  {
    var t, k := start + p / BPB, p % BPB / 8;
    var disk' := PutByte(disk, t, k, SetBit(disk[t][k], p % BPB % 8));
    hide Bit, SetBit;
    forall q: nat
      ensures Marked(disk', start, q) <==> q == p || Marked(disk, start, q)
    {
      BitAfterSet(disk[t][k], p % BPB % 8, q % BPB % 8);
      if q / BPB == p / BPB && q % BPB / 8 == k && q % BPB % 8 == p % BPB % 8 {
        SamePlace(p, q);
      }
    }
  }

  lemma ClearOne(disk: seq<Block>, start: nat, p: nat)
    requires start + p / BPB < |disk| && |disk[start + p / BPB]| == BSIZE
    ensures
      var t, k := start + p / BPB, p % BPB / 8;
      var disk' := PutByte(disk, t, k, ClearBit(disk[t][k], p % BPB % 8));
      forall q: nat :: Marked(disk', start, q) <==> q != p && Marked(disk, start, q)
  {
    var t, k := start + p / BPB, p % BPB / 8;
    var disk' := PutByte(disk, t, k, ClearBit(disk[t][k], p % BPB % 8));
    hide Bit, ClearBit;
    forall q: nat
      ensures Marked(disk', start, q) <==> q != p && Marked(disk, start, q)
    {
      BitAfterClear(disk[t][k], p % BPB % 8, q % BPB % 8);
      if q / BPB == p / BPB && q % BPB / 8 == k && q % BPB % 8 == p % BPB % 8 {
        SamePlace(p, q);
      }
    }
  }

  /** The bitmap blocks are metadata. */
  ghost predicate MapInMeta(start: nat, nmeta: nat, size: nat) {
    forall p: nat :: p < size ==> start + p / BPB < nmeta
  }

  /** The marked bits are exactly metadata and blocks in use. */
  ghost predicate BitmapOk(disk: seq<Block>, start: nat, role: seq<Owner>) {
    forall p: nat :: p < |role| ==> (Marked(disk, start, p) <==> role[p] != Unused)
  }
}
