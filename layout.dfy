/**
 * The block layout of a BCDMS array (Brodnik, Carlsson, Demaine, Munro, Sedgewick).
 *
 * Data blocks are grouped into superblocks. Superblock j (counting from 0)
 * holds SuperBlocks(j) = 2^floor(j/2) data blocks, each of capacity
 * BlockSize(j) = 2^ceil(j/2), so it holds 2^j elements in all. Data blocks
 * are numbered globally in storage order; Cap(a) is the capacity of data
 * block a and Start(a) the logical index of its first slot.
 */
module Layout {

  /** 2^e */
  function Pow2(e: nat): (r: nat)
    ensures r >= 1
  {
    if e == 0 then 1 else 2 * Pow2(e - 1)
  }

  lemma {:induction false} Pow2Add(x: nat, y: nat)
    ensures Pow2(x + y) == Pow2(x) * Pow2(y)
  {
    if x > 0 {
      Pow2Add(x - 1, y);
      calc {
        Pow2(x + y);
        2 * Pow2(x - 1 + y);
        2 * (Pow2(x - 1) * Pow2(y));
        (2 * Pow2(x - 1)) * Pow2(y);
      }
    }
  }

  /** The position of the highest set bit of m, that is floor(log2 m). */
  function Log2(m: nat): (k: nat)
    requires m >= 1
    ensures Pow2(k) <= m < Pow2(k + 1)
  {
    if m == 1 then 0 else 1 + Log2(m / 2)
  }

  /** Number of data blocks in superblock j. */
  function SuperBlocks(j: nat): nat {
    Pow2(j / 2)
  }

  /** Capacity of every data block of superblock j. */
  function BlockSize(j: nat): nat {
    Pow2((j + 1) / 2)
  }

  /** Superblock j holds 2^j elements. */
  lemma {:induction false} SuperblockElements(j: nat)
    ensures SuperBlocks(j) * BlockSize(j) == Pow2(j)
  {
    assert j / 2 + (j + 1) / 2 == j;
    Pow2Add(j / 2, (j + 1) / 2);
  }

  /**
   * Opening superblock j+1 doubles the block count when j is odd and the
   * block size when j is even; the other parameter is kept.
   */
  lemma {:induction false} NextSuperblock(j: nat)
    ensures SuperBlocks(j + 1) == if j % 2 == 1 then 2 * SuperBlocks(j) else SuperBlocks(j)
    ensures BlockSize(j + 1) == if j % 2 == 0 then 2 * BlockSize(j) else BlockSize(j)
  {
    if j % 2 == 1 {
      assert (j + 1) / 2 == j / 2 + 1;
      assert (j + 2) / 2 == (j + 1) / 2;
    } else {
      assert (j + 1) / 2 == j / 2;
      assert (j + 2) / 2 == (j + 1) / 2 + 1;
    }
  }

  /** Number of data blocks in superblocks 0 .. j-1. */
  function BlocksBefore(j: nat): nat {
    if j == 0 then 0 else BlocksBefore(j - 1) + SuperBlocks(j - 1)
  }

  lemma {:induction false} BlocksBeforeMonotone(x: nat, y: nat)
    requires x <= y
    ensures BlocksBefore(x) <= BlocksBefore(y)
    ensures x < y ==> BlocksBefore(x + 1) <= BlocksBefore(y)
    decreases y
  {
    if x < y {
      BlocksBeforeMonotone(x, y - 1);
    }
  }

  /**
   * The superblock that contains data block a: the superblock of block a-1,
   * or the next one when block a is the first block of that next superblock.
   */
  function SuperOf(a: nat): nat {
    if a == 0 then 0
    else
      var j := SuperOf(a - 1);
      if a == BlocksBefore(j + 1) then j + 1 else j
  }

  /** The superblock SuperOf gives contains a. */
  lemma {:induction false} SuperOfBounds(a: nat)
    ensures BlocksBefore(SuperOf(a)) <= a < BlocksBefore(SuperOf(a) + 1)
  {
    if a == 0 {
      assert BlocksBefore(1) == 1;
    } else {
      SuperOfBounds(a - 1);
      var j := SuperOf(a - 1);
      assert BlocksBefore(j + 2) == BlocksBefore(j + 1) + SuperBlocks(j + 1);
    }
  }

  /** A data block lies in exactly one superblock. */
  lemma {:induction false} SuperOfUnique(a: nat, j: nat)
    requires BlocksBefore(j) <= a < BlocksBefore(j + 1)
    ensures SuperOf(a) == j
  {
    var r := SuperOf(a);
    SuperOfBounds(a);
    if r < j {
      BlocksBeforeMonotone(r, j);
    } else if j < r {
      BlocksBeforeMonotone(j, r);
    }
  }

  /** Capacity of data block a. */
  function Cap(a: nat): nat {
    BlockSize(SuperOf(a))
  }

  /** Logical index of the first slot of data block a. */
  function Start(a: nat): nat {
    if a == 0 then 0 else Start(a - 1) + Cap(a - 1)
  }

  /** Every block of superblock j has that superblock's block size. */
  lemma {:induction false} CapInSuperblock(j: nat, c: nat)
    requires c < SuperBlocks(j)
    ensures Cap(BlocksBefore(j) + c) == BlockSize(j)
  {
    var a := BlocksBefore(j) + c;
    assert BlocksBefore(j + 1) == BlocksBefore(j) + SuperBlocks(j);
    SuperOfUnique(a, j);
    assert SuperOf(a) == j;
  }

  /**
   * The c-th block of superblock j starts after the 2^j - 1 elements of the
   * earlier superblocks and the c full blocks before it in superblock j.
   */
  lemma {:induction false} StartInSuperblock(j: nat, c: nat)
    requires c <= SuperBlocks(j)
    ensures Start(BlocksBefore(j) + c) == Pow2(j) - 1 + c * BlockSize(j)
    decreases j, c + 1
  {
    if c == 0 {
      StartOfSuperblock(j);
    } else {
      var c0 := c - 1;
      StartInSuperblock(j, c0);
      StartInSuperblockStep(j, c0, c);
    }
  }

  lemma StartInSuperblockStep(j: nat, c0: nat, c: nat)
    requires c == c0 + 1 && c <= SuperBlocks(j)
    requires Start(BlocksBefore(j) + c0) == Pow2(j) - 1 + c0 * BlockSize(j)
    ensures Start(BlocksBefore(j) + c) == Pow2(j) - 1 + c * BlockSize(j)
  {
    var x := BlocksBefore(j) + c0;
    var y := BlocksBefore(j) + c;
    CapInSuperblock(j, c0);
    StartStep(x, y, c0, c, Pow2(j) - 1, BlockSize(j));
  }

  /** Superblock j starts after the 2^j - 1 elements of the superblocks before it. */
  lemma {:induction false} StartOfSuperblock(j: nat)
    ensures Start(BlocksBefore(j)) == Pow2(j) - 1
    decreases j, 0
  {
    if j > 0 {
      var i := j - 1;
      var x := SuperBlocks(i);
      StartInSuperblock(i, x);
      StartOfNextSuperblock(i, j, x);
    }
  }

  /** Superblock i + 1 starts where the last block of superblock i ends. */
  lemma StartOfNextSuperblock(i: nat, j: nat, x: nat)
    requires j == i + 1 && x == SuperBlocks(i)
    requires Start(BlocksBefore(i) + x) == Pow2(i) - 1 + x * BlockSize(i)
    ensures Start(BlocksBefore(j)) == Pow2(j) - 1
  {
    SuperblockElements(i);
    assert BlocksBefore(j) == BlocksBefore(i) + x;
    assert Pow2(j) == 2 * Pow2(i);
  }

  /** A block of capacity size after c0 such blocks starts c0 + 1 sizes past base. */
  lemma StartStep(x: nat, y: nat, c0: nat, c: nat, base: nat, size: nat)
    requires y == x + 1 && c == c0 + 1 && Start(x) == base + c0 * size && Cap(x) == size
    ensures Start(y) == base + c * size
  {
    StartAfter(x, y, size);
    MulSucc(c0, c, size);
  }

  lemma MulSucc(c0: nat, c: nat, size: nat)
    requires c == c0 + 1
    ensures c * size == c0 * size + size
  {
  }

  /** Blocks are laid out back to back: a later block starts after the end of an earlier one. */
  lemma {:induction false} StartMonotone(x: nat, y: nat)
    requires x < y
    ensures Start(x) + Cap(x) <= Start(y)
    decreases y
  {
    if x + 1 < y {
      StartMonotone(x, y - 1);
      StartAfter(y - 1, y, Cap(y - 1));
    } else {
      StartAfter(x, y, Cap(x));
    }
  }

  /** Every block holds at least one element, so block a starts at index a or later. */
  lemma {:induction false} StartAtLeast(a: nat)
    ensures Start(a) >= a
  {
    if a > 0 {
      StartAtLeast(a - 1);
    }
  }

  /** Every superblock holds at least one block, so superblock j starts at block j or later. */
  lemma {:induction false} BlocksBeforeAtLeast(j: nat)
    ensures BlocksBefore(j) >= j
  {
    if j > 0 {
      BlocksBeforeAtLeast(j - 1);
    }
  }

  /** Block y = x + 1 starts where block x, of capacity c, ends. */
  lemma StartAfter(x: nat, y: nat, c: nat)
    requires y == x + 1 && Cap(x) == c
    ensures Start(y) == Start(x) + c
  {
  }

  /** Block x, the last block of superblock j, has that superblock's block size. */
  lemma LastCapOf(j: nat, x: nat)
    requires x + 1 == BlocksBefore(j) + SuperBlocks(j)
    ensures Cap(x) == BlockSize(j)
  {
    var c: nat := SuperBlocks(j) - 1;
    assert x == BlocksBefore(j) + c;
    CapInSuperblock(j, c);
  }

  /**
   * Superblock s has twice the blocks of superblock s-1 when s+1 is odd and
   * blocks twice the size otherwise.
   */
  lemma OpenSuperblock(s: nat)
    requires s >= 1
    ensures SuperBlocks(s) == if (s + 1) % 2 == 1 then 2 * SuperBlocks(s - 1) else SuperBlocks(s - 1)
    ensures BlockSize(s) == if (s + 1) % 2 == 1 then BlockSize(s - 1) else 2 * BlockSize(s - 1)
  {
    NextSuperblock(s - 1);
    assert s - 1 + 1 == s;
    assert (s + 1) % 2 == 1 <==> (s - 1) % 2 == 1;
  }
}
