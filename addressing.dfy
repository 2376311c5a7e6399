/**
 * The addressing function of the BCDMS array: a closed-form map from a
 * logical index to (data block, offset in that block), and its agreement
 * with the block layout of module Layout.
 */
module Addressing {
  import opened Layout

  /** Shift right by l bits: x >> l. */
  function Shr(x: nat, l: nat): (r: nat)
    ensures r * Pow2(l) <= x < (r + 1) * Pow2(l)
  {
    if l == 0 then x
    else
      var r := Shr(x / 2, l - 1);
      Halve(x, r, Pow2(l - 1));
      r
  }

  /** If x / 2 lies in [r * p, (r + 1) * p), then x lies in [r * 2p, (r + 1) * 2p). */
  lemma Halve(x: nat, r: nat, p: nat)
    requires r * p <= x / 2 < (r + 1) * p
    ensures r * (2 * p) <= x < (r + 1) * (2 * p)
  {
    assert r * (2 * p) == 2 * (r * p) && (r + 1) * (2 * p) == 2 * ((r + 1) * p);
  }

  /** The low l bits of x: x & (2^l - 1). */
  function Low(x: nat, l: nat): (r: nat)
    ensures r < Pow2(l)
  {
    if l == 0 then 0 else x % 2 + 2 * Low(x / 2, l - 1)
  }

  /** x is its high part shifted back plus its low l bits, and the low part has l bits. */
  lemma {:induction false} ShrLow(x: nat, l: nat)
    ensures x == Shr(x, l) * Pow2(l) + Low(x, l) && Low(x, l) < Pow2(l)
  {
    if l > 0 {
      ShrLow(x / 2, l - 1);
      var high := Shr(x / 2, l - 1);
      var p := Pow2(l - 1);
      var low := Low(x / 2, l - 1);
      assert Shr(x, l) == high && Low(x, l) == x % 2 + 2 * low && Pow2(l) == 2 * p;
      Recombine(x, high, p, low);
    }
  }

  /** Putting back the lowest bit of x onto x / 2 = high * p + low. */
  lemma Recombine(x: nat, high: nat, p: nat, low: nat)
    requires x / 2 == high * p + low && low < p
    ensures x == high * (2 * p) + (x % 2 + 2 * low) && x % 2 + 2 * low < 2 * p
  {
    assert high * (2 * p) == 2 * (high * p);
  }

  /** Shifting right by l a number below 2^(z + l) leaves a number below 2^z. */
  lemma {:induction false} ShrBelow(x: nat, l: nat, z: nat)
    requires x < Pow2(z + l)
    ensures Shr(x, l) < Pow2(z)
  {
    if l > 0 {
      assert Pow2(z + l) == 2 * Pow2(z + l - 1);
      ShrBelow(x / 2, l - 1, z);
    }
  }

  /** Adding a multiple of 2^l leaves the low l bits unchanged. */
  lemma {:induction false} LowShift(x: nat, w: nat, l: nat)
    ensures Low(x + w * Pow2(l), l) == Low(x, l)
  {
    if l > 0 {
      var p := Pow2(l - 1);
      var y := x + w * Pow2(l);
      assert Pow2(l) == 2 * p;
      HalveShifted(x, w, p, y);
      LowShift(x / 2, w, l - 1);
      assert Low(y, l) == y % 2 + 2 * Low(y / 2, l - 1);
    }
  }

  /** Halving x + w * 2p gives x / 2 + w * p and keeps the parity of x. */
  lemma HalveShifted(x: nat, w: nat, p: nat, y: nat)
    requires y == x + w * (2 * p)
    ensures y / 2 == x / 2 + w * p && y % 2 == x % 2
  {
    assert w * (2 * p) == 2 * (w * p);
  }

  /** Number of data blocks before superblock 2t and before superblock 2t + 1. */
  lemma {:induction false} BlocksBeforeClosed(t: nat)
    ensures BlocksBefore(2 * t) == 2 * Pow2(t) - 2
    ensures BlocksBefore(2 * t + 1) == 3 * Pow2(t) - 2
  {
    if t > 0 {
      var p := Pow2(t - 1);
      BlocksBeforeClosed(t - 1);
      var j := 2 * t - 1;
      assert j == 2 * (t - 1) + 1 && j / 2 == t - 1;
      assert BlocksBefore(j) == 3 * p - 2;
      assert BlocksBefore(2 * t) == BlocksBefore(j) + SuperBlocks(j);
      assert Pow2(t) == 2 * p;
    }
    assert (2 * t) / 2 == t;
    assert BlocksBefore(2 * t + 1) == BlocksBefore(2 * t) + SuperBlocks(2 * t);
  }

  /**
   * The closed form used by locate for the number of data blocks in
   * superblocks 0 .. k-1: with l = ceil(k/2) it is 2(2^l - 1), less 2^l / 2
   * when k is odd.
   */
  lemma FirstBlockFormula(k: nat)
    ensures var l := (k + 1) / 2;
      && 2 * (Pow2(l) - 1) - (k % 2) * (Pow2(l) / 2) == BlocksBefore(k)
      && 2 * (Pow2(l) - 1) - (if k % 2 == 1 then Pow2(l) / 2 else 0) == BlocksBefore(k)
  {
    var t := k / 2;
    BlocksBeforeClosed(t);
    if k % 2 == 0 {
      assert k == 2 * t && (k + 1) / 2 == t;
      assert (k % 2) * (Pow2(t) / 2) == 0;
    } else {
      assert k == 2 * t + 1 && (k + 1) / 2 == t + 1;
      assert Pow2(t + 1) / 2 == Pow2(t);
      assert (k % 2) * (Pow2(t + 1) / 2) == Pow2(t);
    }
  }

  /**
   * The block and the offset that the bit manipulation of locate extracts
   * from m = i + 1 with k = floor(log2 m): the block is the b-th of
   * superblock k and the offset is within that superblock's block size.
   */
  lemma SlotOf(m: nat, k: nat, l: nat, b: nat, e: nat)
    requires m >= 1 && Pow2(k) <= m < Pow2(k + 1)
    requires l == (k + 1) / 2 && b == Shr(m - Pow2(k), l) && e == Low(m, l)
    ensures 2 * (Pow2(l) - 1) - (k % 2) * (Pow2(l) / 2) == BlocksBefore(k)
    ensures b < SuperBlocks(k) && e < BlockSize(k)
    ensures Cap(BlocksBefore(k) + b) == BlockSize(k)
    ensures Start(BlocksBefore(k) + b) + e == m - 1
  {
    var r := m - Pow2(k);
    FirstBlockFormula(k);
    assert k / 2 + l == k;
    assert Pow2(k + 1) == 2 * Pow2(k);
    ShrBelow(r, l, k / 2);
    Pow2Add(k / 2, l);
    assert m == r + SuperBlocks(k) * Pow2(l);
    LowShift(r, SuperBlocks(k), l);
    ShrLow(r, l);
    CapInSuperblock(k, b);
    StartInSuperblock(k, b);
  }

  /**
   * locate: the data block and offset of logical index i. Only the range of
   * the native word is left out: i is unbounded here.
   */
  function Locate(i: nat): (r: (nat, nat))
    ensures r.1 < Cap(r.0) && Start(r.0) + r.1 == i
  {
    var m := i + 1;
    var k := Log2(m);
    var l := (k + 1) / 2;
    // the bits of m after its leading one, without the low l bits
    var b := Shr(m - Pow2(k), l);
    // the low l bits of m
    var e := Low(m, l);
    // the number of data blocks in superblocks 0 .. k-1
    var p := 2 * (Pow2(l) - 1) - (k % 2) * (Pow2(l) / 2);
    SlotOf(m, k, l, b, e);
    assert p == BlocksBefore(k);
    (p + b, e)
  }

  /** Two slots of the layout with the same logical index are the same slot. */
  lemma SlotsDistinct(a: nat, b: nat, r: (nat, nat))
    requires b < Cap(a) && r.1 < Cap(r.0) && Start(r.0) + r.1 == Start(a) + b
    ensures r == (a, b)
  {
    if r.0 < a {
      StartMonotone(r.0, a);
    } else if a < r.0 {
      StartMonotone(a, r.0);
    }
  }

  /** Every slot of the layout is reached by exactly the index that Start assigns to it. */
  lemma LocateAt(i: nat, a: nat, b: nat)
    requires b < Cap(a) && Start(a) + b == i
    ensures Locate(i) == (a, b)
  {
    var r := Locate(i);
    assert r.1 < Cap(r.0) && Start(r.0) + r.1 == i;
    SlotsDistinct(a, b, r);
  }

  /** Index 0 is the first slot of the first block. */
  lemma LocateFirst()
    ensures Locate(0) == (0, 0)
  {
    LocateAt(0, 0, 0);
  }

  /** The next index is the next slot of the same block, or the first slot of the next block. */
  lemma LocateNext(i: nat)
    ensures var (a, b) := Locate(i);
      Locate(i + 1) == if b + 1 < Cap(a) then (a, b + 1) else (a + 1, 0)
  {
    var r := Locate(i);
    var q := Locate(i + 1);
    assert r.1 < Cap(r.0) && Start(r.0) + r.1 == i;
    assert q.1 < Cap(q.0) && Start(q.0) + q.1 == i + 1;
    NextSlot(r.0, r.1, q);
  }

  /** The slot after slot (a, b) in index order. */
  lemma NextSlot(a: nat, b: nat, q: (nat, nat))
    requires b < Cap(a) && q.1 < Cap(q.0) && Start(q.0) + q.1 == Start(a) + b + 1
    ensures q == if b + 1 < Cap(a) then (a, b + 1) else (a + 1, 0)
  {
    if b + 1 < Cap(a) {
      SlotsDistinct(a, b + 1, q);
    } else {
      SlotsDistinct(a + 1, 0, q);
    }
  }

  /**
   * Index i lies in superblock k = floor(log2(i + 1)), and its offset is
   * below that superblock's block size 2^ceil(k/2).
   */
  lemma LocateInSuperblock(i: nat)
    ensures BlocksBefore(Log2(i + 1)) <= Locate(i).0 < BlocksBefore(Log2(i + 1) + 1)
    ensures Locate(i).1 < Pow2((Log2(i + 1) + 1) / 2)
  {
    var r := Locate(i);
    assert r.1 < Cap(r.0) && Start(r.0) + r.1 == i;
    SlotInSuperblock(i, r);
  }

  /** The slot of index i lies in superblock floor(log2(i + 1)). */
  lemma SlotInSuperblock(i: nat, r: (nat, nat))
    requires r.1 < Cap(r.0) && Start(r.0) + r.1 == i
    ensures BlocksBefore(Log2(i + 1)) <= r.0 < BlocksBefore(Log2(i + 1) + 1)
    ensures r.1 < Pow2((Log2(i + 1) + 1) / 2)
  {
    var k := Log2(i + 1);
    var b, e := SlotParts(i, k);
    SlotsDistinct(BlocksBefore(k) + b, e, r);
    SuperblockRange(k, b, r);
  }

  /** Index i is slot e of block b of superblock k = floor(log2(i + 1)). */
  lemma SlotParts(i: nat, k: nat) returns (b: nat, e: nat)
    requires k == Log2(i + 1)
    ensures b < SuperBlocks(k) && e < BlockSize(k)
    ensures Cap(BlocksBefore(k) + b) == BlockSize(k) && Start(BlocksBefore(k) + b) + e == i
  {
    var m := i + 1;
    var l := (k + 1) / 2;
    b := Shr(m - Pow2(k), l);
    e := Low(m, l);
    SlotOf(m, k, l, b, e);
  }

  /** Block b of superblock k lies between the superblocks' first blocks. */
  lemma SuperblockRange(k: nat, b: nat, r: (nat, nat))
    requires r.0 == BlocksBefore(k) + b && b < SuperBlocks(k) && r.1 < BlockSize(k)
    ensures BlocksBefore(k) <= r.0 < BlocksBefore(k + 1) && r.1 < Pow2((k + 1) / 2)
  {
    assert BlocksBefore(k + 1) == BlocksBefore(k) + SuperBlocks(k);
  }
}
