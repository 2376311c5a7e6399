/**
 * The counters a BCDMS array keeps beside its index, and the way grow and
 * shrink update them. The updates are the ones the array performs, written
 * as functions on values so that their properties can be stated once and
 * used by the array and by the scenarios.
 */
module Bookkeeping {
  import opened Layout

  /**
   * n: number of elements; d: number of data blocks in use; s: number of
   * superblocks in use; hasEmptyData: whether a spare empty block is kept;
   * lenLastData / capLastData: occupancy and size of the last data block in
   * use; lenLastSuper / capLastSuper: blocks in use and blocks in all of the
   * last superblock in use.
   */
  datatype Counters = Counters(
    n: nat, d: nat, s: nat, hasEmptyData: bool,
    lenLastData: nat, capLastData: nat,
    lenLastSuper: nat, capLastSuper: nat)

  /** The counters of a new array: one empty data block of size 1 in one superblock. */
  function Fresh(): (r: Counters)
    ensures r.n == 0 && r.d == 1 && !r.hasEmptyData && !Opens(r)
  {
    Counters(0, 1, 1, false, 0, 1, 1, 1)
  }

  /**
   * The counters describe a prefix of the block layout: the last superblock
   * in use is superblock s-1 with its block count and block size, the last
   * block in use is its lenLastSuper-th block, that block holds
   * lenLastData elements, and all blocks before it are full. A last block
   * with no element occurs only while the array is new.
   */
  ghost predicate InLayout(c: Counters) {
    Lay(c.n, c.d, c.s, c.lenLastData, c.capLastData, c.lenLastSuper, c.capLastSuper)
  }

  /** InLayout on the counters one by one (n, d, s, lenLastData, capLastData, lenLastSuper, capLastSuper). */
  ghost predicate Lay(n: nat, d: nat, s: nat, lld: nat, cld: nat, lls: nat, cls: nat) {
    && s >= 1
    && cls == SuperBlocks(s - 1)
    && cld == BlockSize(s - 1)
    && 1 <= lls <= cls
    && d == BlocksBefore(s - 1) + lls
    && lld <= cld
    && (lld == 0 ==> d == 1)
    && n == Start(d - 1) + lld
  }

  /**
   * The counters after the array has been popped down to no element: the
   * superblock capacity has dropped to 0 and stays there, so that from then
   * on every push opens a new block of size 1 and every block in use holds
   * a single element.
   */
  ghost predicate DrainedCounters(c: Counters) {
    && c.capLastSuper == 0 && c.capLastData == 1 && c.lenLastData == 1
    && c.lenLastSuper == c.d && c.s == (if c.d == 0 then 0 else 1)
    && c.n == c.d && !c.hasEmptyData
  }

  /** Grow opens a new data block exactly when the last one is full. */
  predicate Opens(c: Counters) {
    c.capLastData == c.lenLastData
  }

  /**
   * The counter updates of grow: when the last data block is full, open a
   * new one, first opening a new superblock when the last one is full (an
   * odd count of superblocks doubles the blocks per superblock, an even one
   * doubles the block size), and reusing the spare block if there is one.
   * Then count the new element. The block occupancy and the superblock
   * occupancy, which grow resets to 0 before counting the new block and
   * element, are written with their final values.
   */
  function Grown(c: Counters): (r: Counters)
    ensures r.n == c.n + 1
    ensures r.d == (if Opens(c) then c.d + 1 else c.d)
    ensures Opens(c) ==> !r.hasEmptyData && r.lenLastData == 1
    ensures !Opens(c) ==> r.hasEmptyData == c.hasEmptyData
  {
    if !Opens(c) then
      Counters(c.n + 1, c.d, c.s, c.hasEmptyData, c.lenLastData + 1, c.capLastData, c.lenLastSuper, c.capLastSuper)
    else if c.lenLastSuper == c.capLastSuper then
      var s := c.s + 1;
      if s % 2 == 1 then Counters(c.n + 1, c.d + 1, s, false, 1, c.capLastData, 1, 2 * c.capLastSuper)
      else Counters(c.n + 1, c.d + 1, s, false, 1, 2 * c.capLastData, 1, c.capLastSuper)
    else
      Counters(c.n + 1, c.d + 1, c.s, false, 1, c.capLastData, c.lenLastSuper + 1, c.capLastSuper)
  }

  /**
   * The counters for which shrink performs no unsigned subtraction below
   * zero and indexes the data block d-1: an empty array, or a last block
   * that holds an element and, when that element is its last, a block and
   * superblock count that can go down.
   */
  predicate ShrinkSafe(c: Counters) {
    c.n == 0 || (
      && c.lenLastData >= 1 && c.d >= 1
      && (c.lenLastData == 1 ==> c.lenLastSuper >= 1 && (c.lenLastSuper == 1 ==> c.s >= 1)))
  }

  /**
   * The counter updates of shrink: uncount the last element; when the last
   * data block becomes empty, retire it, and when the last superblock
   * becomes empty, retire it too (an even count of superblocks halves the
   * blocks per superblock, an odd one halves the block size); the new last
   * block is full. The spare flag is not changed.
   */
  function Shrunk(c: Counters): (r: Counters)
    requires ShrinkSafe(c)
    ensures c.n == 0 ==> r == c
    ensures c.n > 0 ==> r.n == c.n - 1 && r.d == (if c.lenLastData == 1 then c.d - 1 else c.d)
    ensures r.hasEmptyData == c.hasEmptyData
  {
    if c.n == 0 then c
    else if c.lenLastData - 1 != 0 then
      Counters(c.n - 1, c.d, c.s, c.hasEmptyData, c.lenLastData - 1, c.capLastData, c.lenLastSuper, c.capLastSuper)
    else if c.lenLastSuper - 1 != 0 then
      Counters(c.n - 1, c.d - 1, c.s, c.hasEmptyData, c.capLastData, c.capLastData, c.lenLastSuper - 1, c.capLastSuper)
    else
      var s := c.s - 1;
      if s % 2 == 0 then
        Counters(c.n - 1, c.d - 1, s, c.hasEmptyData, c.capLastData, c.capLastData, c.capLastSuper / 2, c.capLastSuper / 2)
      else
        Counters(c.n - 1, c.d - 1, s, c.hasEmptyData, c.capLastData / 2, c.capLastData / 2, c.capLastSuper, c.capLastSuper)
  }

  /** The last data block in use has the block size of the last superblock in use. */
  lemma LastBlockCap(c: Counters)
    requires InLayout(c)
    ensures c.d >= 1 && Cap(c.d - 1) == c.capLastData
  {
    var j := c.s - 1;
    var x := c.lenLastSuper - 1;
    CapInSuperblock(j, x);
    assert c.d - 1 == BlocksBefore(j) + x;
  }

  /** Superblock 0 is one block of one element. */
  lemma FirstSuperblock(j: nat)
    requires j == 0
    ensures SuperBlocks(j) == 1 && BlockSize(j) == 1 && BlocksBefore(j) == 0
  {
    assert (j + 1) / 2 == 0;
  }

  /** In the layout, an array with no element has the counters of a new array (Fresh), up to the spare flag. */
  lemma EmptyInLayout(c: Counters)
    requires InLayout(c) && c.n == 0
    ensures c.d == 1 && c.s == 1 && c.lenLastData == 0
    ensures c.capLastData == 1 && c.lenLastSuper == 1 && c.capLastSuper == 1
  {
    var Counters(n, d, s, _, lld, cld, lls, cls) := c;
    LayoutEmpty(n, d, s, lld, cld, lls, cls);
  }

  lemma LayoutEmpty(n: nat, d: nat, s: nat, lld: nat, cld: nat, lls: nat, cls: nat)
    requires Lay(n, d, s, lld, cld, lls, cls) && n == 0
    ensures d == 1 && s == 1 && lld == 0 && cld == 1 && lls == 1 && cls == 1
  {
    assert lld == 0 && d == 1 && lls == 1;
    BlocksBeforeAtLeast(s - 1);
    assert s == 1;
    FirstSuperblock(s - 1);
  }

  /**
   * Grow keeps the counters in the layout, adds one element, and opens a
   * block exactly when the last one was full; the new element is the first
   * of the new block or the next one of the old last block.
   */
  lemma GrowKeepsLayout(c: Counters)
    requires InLayout(c)
    ensures var g := Grown(c);
      && InLayout(g) && g.hasEmptyData == (c.hasEmptyData && !Opens(c)) && g.n == c.n + 1
      && g.d == (if Opens(c) then c.d + 1 else c.d)
      && g.lenLastData == (if Opens(c) then 1 else c.lenLastData + 1)
  {
    if !Opens(c) {
      GrowWithin(c);
    } else if c.lenLastSuper < c.capLastSuper {
      GrowNewBlock(c);
    } else {
      GrowNewSuperblock(c);
    }
  }

  lemma GrowWithin(c: Counters)
    requires InLayout(c) && !Opens(c)
    ensures var g := Grown(c);
      InLayout(g) && g.hasEmptyData == c.hasEmptyData && g.n == c.n + 1 && g.d == c.d && g.lenLastData == c.lenLastData + 1
  {
    var g := c.(n := c.n + 1, lenLastData := c.lenLastData + 1);
    LayoutWithin(c.n, c.d, c.s, c.lenLastData, c.capLastData, c.lenLastSuper, c.capLastSuper);
    assert InLayout(g);
    GrownCases(c);
  }

  lemma GrowNewBlock(c: Counters)
    requires InLayout(c) && Opens(c) && c.lenLastSuper < c.capLastSuper
    ensures var g := Grown(c);
      InLayout(g) && !g.hasEmptyData && g.n == c.n + 1 && g.d == c.d + 1 && g.lenLastData == 1
  {
    var g := c.(n := c.n + 1, d := c.d + 1, hasEmptyData := false, lenLastData := 1, lenLastSuper := c.lenLastSuper + 1);
    LayoutNewBlock(c.n, c.d, c.s, c.capLastData, c.lenLastSuper, c.capLastSuper);
    assert InLayout(g);
    GrownCases(c);
  }

  lemma GrowNewSuperblock(c: Counters)
    requires InLayout(c) && Opens(c) && c.lenLastSuper == c.capLastSuper
    ensures var g := Grown(c);
      InLayout(g) && !g.hasEmptyData && g.n == c.n + 1 && g.d == c.d + 1 && g.lenLastData == 1
  {
    var s := c.s;
    var size, count := BlockSize(s), SuperBlocks(s);
    var g := Counters(c.n + 1, c.d + 1, s + 1, false, 1, size, 1, count);
    LayoutNewSuperblock(c.n, c.d, s, c.capLastData, c.capLastSuper);
    assert InLayout(g);
    GrownCases(c);
  }

  /** Grown case by case: filling the last block, opening a block, opening a superblock. */
  lemma GrownCases(c: Counters)
    ensures !Opens(c) ==> Grown(c) == c.(n := c.n + 1, lenLastData := c.lenLastData + 1)
    ensures Opens(c) && c.lenLastSuper != c.capLastSuper ==>
      Grown(c) == c.(n := c.n + 1, d := c.d + 1, hasEmptyData := false, lenLastData := 1, lenLastSuper := c.lenLastSuper + 1)
    ensures Opens(c) && c.lenLastSuper == c.capLastSuper ==>
      var odd := (c.s + 1) % 2 == 1;
      Grown(c) == Counters(c.n + 1, c.d + 1, c.s + 1, false, 1,
        if odd then c.capLastData else 2 * c.capLastData, 1, if odd then 2 * c.capLastSuper else c.capLastSuper)
  {
  }

  /** Grow counts one more element, whatever the other counters. */
  lemma GrowCounts(c: Counters)
    ensures Grown(c).n == c.n + 1
  {
  }

  /** Shrink counts one element fewer, except in an empty array. */
  lemma ShrinkCounts(c: Counters)
    requires ShrinkSafe(c)
    ensures Shrunk(c).n == if c.n == 0 then 0 else c.n - 1
  {
  }

  /** Adding an element to a last block that is not full. */
  lemma LayoutWithin(n: nat, d: nat, s: nat, lld: nat, cld: nat, lls: nat, cls: nat)
    requires Lay(n, d, s, lld, cld, lls, cls) && lld < cld
    ensures Lay(n + 1, d, s, lld + 1, cld, lls, cls)
  {
  }

  /** Adding an element as the first of the next block of the last superblock. */
  lemma LayoutNewBlock(n: nat, d: nat, s: nat, cld: nat, lls: nat, cls: nat)
    requires Lay(n, d, s, cld, cld, lls, cls) && lls < cls
    ensures Lay(n + 1, d + 1, s, 1, cld, lls + 1, cls)
  {
    BlockAfterFull(d, s, cld, lls);
  }

  /** Block d comes right after block d-1, the full lls-th block of superblock s-1. */
  lemma BlockAfterFull(d: nat, s: nat, cld: nat, lls: nat)
    requires s >= 1 && cld == BlockSize(s - 1) && 1 <= lls <= SuperBlocks(s - 1)
    requires d == BlocksBefore(s - 1) + lls
    ensures Start(d) == Start(d - 1) + cld
  {
    var j, c, x := s - 1, lls - 1, d - 1;
    CapInSuperblock(j, c);
    assert Cap(x) == cld;
    StartAfter(x, d, cld);
  }

  /**
   * Adding an element as the first of a new superblock, whose block count
   * doubles when the new superblock count is odd and whose block size
   * doubles when it is even.
   */
  lemma LayoutNewSuperblock(n: nat, d: nat, s: nat, cld: nat, cls: nat)
    requires Lay(n, d, s, cld, cld, cls, cls)
    ensures SuperBlocks(s) == if (s + 1) % 2 == 1 then 2 * cls else cls
    ensures BlockSize(s) == if (s + 1) % 2 == 1 then cld else 2 * cld
    ensures Lay(n + 1, d + 1, s + 1, 1, BlockSize(s), 1, SuperBlocks(s))
  {
    OpenSuperblock(s);
    OpenedSuperblockStart(n, d, s, cld);
  }

  /** The first block of superblock s is block d, right after the full block d-1 that ends superblock s-1. */
  lemma OpenedSuperblockStart(n: nat, d: nat, s: nat, cld: nat)
    requires s >= 1 && d == BlocksBefore(s - 1) + SuperBlocks(s - 1) && cld == BlockSize(s - 1)
    requires n == Start(d - 1) + cld
    ensures d == BlocksBefore(s) && n == Start(d)
  {
    var x := d - 1;
    LastCapOf(s - 1, x);
    assert Cap(x) == cld;
    StartAfter(x, d, cld);
  }

  /** Shrink from two or more elements keeps the counters in the layout and removes one element. */
  lemma ShrinkKeepsLayout(c: Counters)
    requires InLayout(c) && c.n >= 2
    ensures ShrinkSafe(c)
    ensures var r := Shrunk(c);
      && InLayout(r) && r.n == c.n - 1 && r.hasEmptyData == c.hasEmptyData
      && r.d == (if c.lenLastData == 1 then c.d - 1 else c.d)
      && r.lenLastData == (if c.lenLastData == 1 then r.capLastData else c.lenLastData - 1)
  {
    if c.lenLastData != 1 {
      ShrinkWithin(c);
    } else if c.lenLastSuper != 1 {
      ShrinkRetireBlock(c);
    } else {
      ShrinkRetireSuperblock(c);
    }
  }

  lemma ShrinkWithin(c: Counters)
    requires InLayout(c) && c.n >= 2 && c.lenLastData != 1
    ensures ShrinkSafe(c)
    ensures var r := Shrunk(c);
      && InLayout(r) && r.n == c.n - 1 && r.hasEmptyData == c.hasEmptyData
      && r.d == c.d && r.lenLastData == c.lenLastData - 1
  {
    var r := c.(n := c.n - 1, lenLastData := c.lenLastData - 1);
    LayoutShrinkWithin(c.n, c.d, c.s, c.lenLastData, c.capLastData, c.lenLastSuper, c.capLastSuper);
    assert InLayout(r);
    ShrunkCases(c);
  }

  lemma ShrinkRetireBlock(c: Counters)
    requires InLayout(c) && c.n >= 2 && c.lenLastData == 1 && c.lenLastSuper != 1
    ensures ShrinkSafe(c)
    ensures var r := Shrunk(c);
      && InLayout(r) && r.n == c.n - 1 && r.hasEmptyData == c.hasEmptyData
      && r.d == c.d - 1 && r.lenLastData == r.capLastData
  {
    var r := c.(n := c.n - 1, d := c.d - 1, lenLastData := c.capLastData, lenLastSuper := c.lenLastSuper - 1);
    LayoutRetireBlock(r.n, r.d, c.s, c.capLastData, r.lenLastSuper, c.capLastSuper);
    assert InLayout(r);
    ShrunkCases(c);
  }

  lemma ShrinkRetireSuperblock(c: Counters)
    requires InLayout(c) && c.n >= 2 && c.lenLastData == 1 && c.lenLastSuper == 1
    ensures ShrinkSafe(c)
    ensures var r := Shrunk(c);
      && InLayout(r) && r.n == c.n - 1 && r.hasEmptyData == c.hasEmptyData
      && r.d == c.d - 1 && r.lenLastData == r.capLastData
  {
    LayoutLeavesSuperblockZero(c.n, c.d, c.s, c.lenLastSuper);
    var s := c.s - 1;
    var b, k := BlockSize(s - 1), SuperBlocks(s - 1);
    var r := Counters(c.n - 1, c.d - 1, s, c.hasEmptyData, b, b, k, k);
    LayoutRetireSuperblock(r.n, r.d, s, c.capLastData, c.capLastSuper);
    assert InLayout(r);
    ShrunkCases(c);
  }

  /** Shrunk case by case: emptying an element, retiring a block, retiring a superblock. */
  lemma ShrunkCases(c: Counters)
    requires ShrinkSafe(c) && c.n >= 1
    ensures c.lenLastData != 1 ==> Shrunk(c) == c.(n := c.n - 1, lenLastData := c.lenLastData - 1)
    ensures c.lenLastData == 1 && c.lenLastSuper != 1 ==>
      Shrunk(c) == c.(n := c.n - 1, d := c.d - 1, lenLastData := c.capLastData, lenLastSuper := c.lenLastSuper - 1)
    ensures c.lenLastData == 1 && c.lenLastSuper == 1 ==>
      var cld := if (c.s - 1) % 2 == 0 then c.capLastData else c.capLastData / 2;
      var cls := if (c.s - 1) % 2 == 0 then c.capLastSuper / 2 else c.capLastSuper;
      Shrunk(c) == Counters(c.n - 1, c.d - 1, c.s - 1, c.hasEmptyData, cld, cld, cls, cls)
  {
  }

  /** Removing an element from a last block that keeps at least one. */
  lemma LayoutShrinkWithin(n: nat, d: nat, s: nat, lld: nat, cld: nat, lls: nat, cls: nat)
    requires Lay(n, d, s, lld, cld, lls, cls) && lld >= 2
    ensures n >= 1 && Lay(n - 1, d, s, lld - 1, cld, lls, cls)
  {
  }

  /**
   * Removing the only element of the last block, which is not the first
   * block of its superblock; the block before it is full.
   */
  lemma LayoutRetireBlock(n: nat, d: nat, s: nat, cld: nat, lls: nat, cls: nat)
    requires Lay(n + 1, d + 1, s, 1, cld, lls + 1, cls) && lls >= 1
    ensures Lay(n, d, s, cld, cld, lls, cls)
  {
    BlockAfterFull(d, s, cld, lls);
  }

  /**
   * With two or more elements, a last block that is the first block of its
   * superblock and holds one element is not in superblock 0.
   */
  lemma LayoutLeavesSuperblockZero(n: nat, d: nat, s: nat, lls: nat)
    requires s >= 1 && lls == 1 && d == BlocksBefore(s - 1) + lls && n == Start(d - 1) + 1 && n >= 2
    ensures s >= 2 && d >= 2
  {
    BlocksBeforeAtLeast(s - 1);
    StartAtLeast(d - 1);
  }

  /**
   * Removing the only element of the first block of the last superblock
   * when it is not superblock 0: superblock s-1 becomes the last, with its
   * block count halved back when the remaining superblock count s is
   * even and its block size halved back when it is odd.
   */
  lemma LayoutRetireSuperblock(n: nat, d: nat, s: nat, cld: nat, cls: nat)
    requires s >= 1 && Lay(n + 1, d + 1, s + 1, 1, cld, 1, cls)
    ensures SuperBlocks(s - 1) == if s % 2 == 0 then cls / 2 else cls
    ensures BlockSize(s - 1) == if s % 2 == 0 then cld else cld / 2
    ensures Lay(n, d, s, BlockSize(s - 1), BlockSize(s - 1), SuperBlocks(s - 1), SuperBlocks(s - 1))
  {
    PreviousSuperblock(s);
    EndOfSuperblock(s);
  }

  /** Superblock s-1 from the parameters of superblock s. */
  lemma PreviousSuperblock(s: nat)
    requires s >= 1
    ensures SuperBlocks(s - 1) == if s % 2 == 0 then SuperBlocks(s) / 2 else SuperBlocks(s)
    ensures BlockSize(s - 1) == if s % 2 == 0 then BlockSize(s) else BlockSize(s) / 2
  {
    OpenSuperblock(s);
    assert (s + 1) % 2 == 1 <==> s % 2 == 0;
  }

  /** The last block of superblock s-1 ends where superblock s starts. */
  lemma EndOfSuperblock(s: nat)
    requires s >= 1
    ensures BlocksBefore(s) >= 1 && BlocksBefore(s) == BlocksBefore(s - 1) + SuperBlocks(s - 1)
    ensures Start(BlocksBefore(s)) == Start(BlocksBefore(s) - 1) + BlockSize(s - 1)
  {
    var d := BlocksBefore(s);
    assert d == BlocksBefore(s - 1) + SuperBlocks(s - 1);
    LastCapOf(s - 1, d - 1);
    StartAfter(d - 1, d, BlockSize(s - 1));
  }

  /** Shrink from one element leaves the drained counters with no block in use. */
  lemma ShrinkDrains(c: Counters)
    requires InLayout(c) && c.n == 1 && !c.hasEmptyData
    ensures ShrinkSafe(c)
    ensures var r := Shrunk(c);
      DrainedCounters(r) && r.n == 0 && r.d == 0
  {
    LayoutSingle(c.n, c.d, c.s, c.lenLastData, c.capLastData, c.lenLastSuper, c.capLastSuper);
    ShrinkSingle(c);
  }

  /** With one element the last data block is full, so the next push opens a block. */
  lemma OneElementOpens(c: Counters)
    requires InLayout(c) && c.n == 1
    ensures Opens(c)
  {
    LayoutSingle(c.n, c.d, c.s, c.lenLastData, c.capLastData, c.lenLastSuper, c.capLastSuper);
  }

  /** An array with one element has the counters of a new array after one push. */
  lemma LayoutSingle(n: nat, d: nat, s: nat, lld: nat, cld: nat, lls: nat, cls: nat)
    requires Lay(n, d, s, lld, cld, lls, cls) && n == 1
    ensures d == 1 && s == 1 && lld == 1 && cld == 1 && lls == 1 && cls == 1
  {
    StartAtLeast(d - 1);
    assert d == 1 && lld == 1 && lls == 1;
    BlocksBeforeAtLeast(s - 1);
    assert s == 1;
    FirstSuperblock(s - 1);
  }

  /** Shrink from the counters of a new array after one push drives the superblock capacity to 0. */
  lemma ShrinkSingle(c: Counters)
    requires c.n == 1 && c.d == 1 && c.s == 1 && !c.hasEmptyData
    requires c.lenLastData == 1 && c.capLastData == 1 && c.lenLastSuper == 1 && c.capLastSuper == 1
    ensures ShrinkSafe(c)
    ensures var r := Shrunk(c);
      DrainedCounters(r) && r.n == 0 && r.d == 0
  {
  }

  /** Grow keeps the drained counters, adding one element and one block. */
  lemma GrowKeepsDrained(c: Counters)
    requires DrainedCounters(c)
    ensures var g := Grown(c);
      DrainedCounters(g) && g.n == c.n + 1 && g.d == c.d + 1 && Opens(c)
  {
    GrownCases(c);
    if c.d == 0 {
      assert Grown(c) == Counters(1, 1, 1, false, 1, 1, 1, 0);
    } else {
      assert Grown(c) == c.(n := c.n + 1, d := c.d + 1, s := 1, lenLastData := 1, lenLastSuper := c.d + 1);
    }
  }

  /** Shrink keeps the drained counters, removing one element and one block. */
  lemma ShrinkKeepsDrained(c: Counters)
    requires DrainedCounters(c)
    ensures ShrinkSafe(c)
    ensures var r := Shrunk(c);
      DrainedCounters(r) && r.n == (if c.n == 0 then 0 else c.n - 1) && r.d == r.n
  {
    if c.n > 0 {
      ShrunkCases(c);
      if c.d == 1 {
        assert Shrunk(c) == Counters(0, 0, 0, false, 1, 1, 0, 0);
      } else {
        assert Shrunk(c) == c.(n := c.n - 1, d := c.d - 1, lenLastSuper := c.d - 1);
      }
    }
  }

  /**
   * Shrink undoes grow whenever the last block is not empty, the spare flag
   * is clear when grow opens a block, and a block that grow adds to the
   * last superblock is not its first.
   */
  lemma ShrinkUndoesGrow(c: Counters)
    requires c.lenLastData >= 1 && (Opens(c) ==> !c.hasEmptyData) && (c.d >= 1 || Opens(c))
    requires Opens(c) && c.lenLastSuper != c.capLastSuper ==> c.lenLastSuper >= 1
    ensures ShrinkSafe(Grown(c)) && Shrunk(Grown(c)) == c
  {
  }

  /**
   * A push followed by a pop restores every counter, except from the
   * counters of a new array, which a push and a pop turn into the drained
   * counters.
   */
  lemma GrowThenShrink(c: Counters)
    requires (InLayout(c) && !c.hasEmptyData) || DrainedCounters(c)
    ensures ShrinkSafe(Grown(c))
    ensures Shrunk(Grown(c)) == c <==> !(InLayout(c) && c.n == 0)
  {
    if InLayout(c) && c.n == 0 {
      EmptyInLayout(c);
      GrowShrinkFresh(c);
    } else {
      if DrainedCounters(c) {
        assert c.capLastSuper == 0 && !InLayout(c);
      } else {
        LayoutOccupied(c.n, c.d, c.s, c.lenLastData, c.capLastData, c.lenLastSuper, c.capLastSuper);
      }
      ShrinkUndoesGrow(c);
    }
  }

  /** With at least one element, the last block in use holds one. */
  lemma LayoutOccupied(n: nat, d: nat, s: nat, lld: nat, cld: nat, lls: nat, cls: nat)
    requires Lay(n, d, s, lld, cld, lls, cls) && n >= 1
    ensures lld >= 1 && d >= 1 && lls >= 1
  {
  }

  /** A push and a pop from the counters of a new array leave a superblock capacity of 0. */
  lemma GrowShrinkFresh(c: Counters)
    requires c.n == 0 && c.d == 1 && c.s == 1 && c.lenLastData == 0
    requires c.capLastData == 1 && c.lenLastSuper == 1 && c.capLastSuper == 1
    ensures ShrinkSafe(Grown(c)) && Shrunk(Grown(c)).capLastSuper == 0
  {
  }

  /**
   * Grow undoes shrink whenever shrink keeps a block in use, the spare flag
   * is clear, and the capacity that shrink halves is even.
   */
  lemma GrowUndoesShrink(c: Counters)
    requires 1 <= c.lenLastData <= c.capLastData && c.lenLastSuper >= 1 && !c.hasEmptyData && c.n >= 1 && c.d >= 1
    requires c.lenLastData == 1 && c.lenLastSuper == 1 ==>
      c.s >= 2 && c.d >= 1 && (if c.s % 2 == 1 then c.capLastSuper % 2 == 0 else c.capLastData % 2 == 0)
    requires c.lenLastData == 1 ==> c.d >= 1 && c.lenLastSuper <= c.capLastSuper
    ensures ShrinkSafe(c) && Grown(Shrunk(c)) == c
  {
  }

  /**
   * A pop followed by a push restores every counter from two or more
   * elements; from one element it does not, since the pop drains the array.
   */
  lemma ShrinkThenGrow(c: Counters)
    requires InLayout(c) && !c.hasEmptyData && c.n >= 1
    ensures ShrinkSafe(c)
    ensures Grown(Shrunk(c)) == c <==> c.n >= 2
  {
    if c.n == 1 {
      ShrinkThenGrowSingle(c);
    } else {
      ShrinkThenGrowMany(c);
    }
  }

  lemma ShrinkThenGrowSingle(c: Counters)
    requires InLayout(c) && !c.hasEmptyData && c.n == 1
    ensures ShrinkSafe(c) && Grown(Shrunk(c)) != c
  {
    LayoutSingle(c.n, c.d, c.s, c.lenLastData, c.capLastData, c.lenLastSuper, c.capLastSuper);
    ShrinkGrowSingle(c);
  }

  lemma ShrinkThenGrowMany(c: Counters)
    requires InLayout(c) && !c.hasEmptyData && c.n >= 2
    ensures ShrinkSafe(c) && Grown(Shrunk(c)) == c
  {
    LayoutUndoable(c);
    GrowUndoesShrink(c);
  }

  /** With two or more elements in the layout, the conditions under which grow undoes shrink hold. */
  lemma LayoutUndoable(c: Counters)
    requires InLayout(c) && !c.hasEmptyData && c.n >= 2
    ensures 1 <= c.lenLastData <= c.capLastData && c.lenLastSuper >= 1 && !c.hasEmptyData && c.n >= 1 && c.d >= 1
    ensures c.lenLastData == 1 && c.lenLastSuper == 1 ==>
      c.s >= 2 && c.d >= 1 && (if c.s % 2 == 1 then c.capLastSuper % 2 == 0 else c.capLastData % 2 == 0)
    ensures c.lenLastData == 1 ==> c.d >= 1 && c.lenLastSuper <= c.capLastSuper
  {
    LayoutOccupied(c.n, c.d, c.s, c.lenLastData, c.capLastData, c.lenLastSuper, c.capLastSuper);
    if c.lenLastData == 1 && c.lenLastSuper == 1 {
      LayoutLeavesSuperblockZero(c.n, c.d, c.s, c.lenLastSuper);
      EvenCapacities(c.s);
    }
  }

  /** A pop and a push from one element leave a superblock capacity of 0. */
  lemma ShrinkGrowSingle(c: Counters)
    requires c.n == 1 && c.d == 1 && c.s == 1 && !c.hasEmptyData
    requires c.lenLastData == 1 && c.capLastData == 1 && c.lenLastSuper == 1 && c.capLastSuper == 1
    ensures ShrinkSafe(c) && Grown(Shrunk(c)).capLastSuper == 0
  {
  }

  /** From superblock 1 on, an even superblock has an even block count and an odd one an even block size. */
  lemma EvenCapacities(s: nat)
    requires s >= 2
    ensures s % 2 == 1 ==> SuperBlocks(s - 1) % 2 == 0
    ensures s % 2 == 0 ==> BlockSize(s - 1) % 2 == 0
  {
    assert (s - 1) / 2 >= 1 || s % 2 == 0;
    assert s / 2 >= 1;
  }
}
