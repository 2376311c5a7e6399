/**
 * What push, pop and read do to the index of a BCDMS array and to its
 * counters, written as functions on values, and the shapes of index and
 * counters that every sequence of operations from a new array keeps.
 */
module Steps {
  import opened Layout
  import opened Addressing
  import opened Blocks
  import opened Bookkeeping

  datatype Option<T> = None | Some(value: T)

  /**
   * The outcome of reading index i: no element (i is not below the count),
   * the element found at the slot the layout gives for i, or a slot that is
   * missing from the index, where indexing the block list or the block fails.
   */
  datatype Lookup<T> = Absent | Found(value: T) | OutOfBounds

  /** A block without its last element; an empty block stays empty. */
  function Front<T>(s: seq<T>): (r: seq<T>)
    ensures r <= s && |r| == if |s| == 0 then 0 else |s| - 1
  {
    if |s| == 0 then s else s[..|s| - 1]
  }

  /** The last element of a block, if it has one. */
  function LastOf<T>(s: seq<T>): (r: Option<T>)
    ensures r == None <==> |s| == 0
    ensures |s| > 0 ==> r == Some(s[|s| - 1])
  {
    if |s| == 0 then None else Some(s[|s| - 1])
  }

  /** The block list after grow: one new empty block when grow opens a block and keeps no spare. */
  function GrownIndex<T>(bs: seq<seq<T>>, c: Counters): (r: seq<seq<T>>)
    ensures r == bs || r == bs + [[]]
    ensures |r| == |bs| + (if Opens(c) && !c.hasEmptyData then 1 else 0)
  {
    if Opens(c) && !c.hasEmptyData then bs + [[]] else bs
  }

  /** After grow, block d-1 of the new counters is in the block list, so push can write to it. */
  predicate PushSafe<T>(bs: seq<seq<T>>, c: Counters) {
    Grown(c).d >= 1 && Grown(c).d - 1 < |GrownIndex(bs, c)|
  }

  /** The block list after push: grow, then append v to block d-1 of the new counters. */
  function PushedIndex<T>(bs: seq<seq<T>>, c: Counters, v: T): (r: seq<seq<T>>)
    requires PushSafe(bs, c)
    ensures |r| == |GrownIndex(bs, c)|
    ensures var k := Grown(c).d - 1;
      r[k] == GrownIndex(bs, c)[k] + [v] && forall a :: 0 <= a < |r| && a != k ==> r[a] == GrownIndex(bs, c)[a]
  {
    var gs := GrownIndex(bs, c);
    var k := Grown(c).d - 1;
    gs[k := gs[k] + [v]]
  }

  /** Shrink subtracts no counter below zero and finds block d-1 in the block list. */
  predicate ShrinkIndexSafe<T>(bs: seq<seq<T>>, c: Counters) {
    ShrinkSafe(c) && (c.n > 0 ==> c.d - 1 < |bs|)
  }

  /** Block d-1 without its last element. */
  function Unloaded<T>(bs: seq<seq<T>>, c: Counters): (r: seq<seq<T>>)
    requires ShrinkIndexSafe(bs, c) && c.n > 0
  {
    bs[c.d - 1 := Front(bs[c.d - 1])]
  }

  /**
   * The consistency check shrink makes before it drops the spare block: the
   * block it removes from the end of the list holds nothing.
   */
  predicate SpareIsEmpty<T>(bs: seq<seq<T>>, c: Counters)
    requires ShrinkIndexSafe(bs, c)
  {
    c.n > 0 && c.lenLastData == 1 && c.hasEmptyData ==> Unloaded(bs, c)[|bs| - 1] == []
  }

  /**
   * The block list after shrink: the last element of block d-1 is removed,
   * and when that block becomes empty while a spare block is kept, the last
   * block of the list is removed.
   */
  function ShrunkIndex<T>(bs: seq<seq<T>>, c: Counters): (r: seq<seq<T>>)
    requires ShrinkIndexSafe(bs, c)
    ensures c.n == 0 ==> r == bs
    ensures c.n > 0 ==> r == Unloaded(bs, c) || r == Front(Unloaded(bs, c))
  {
    if c.n == 0 then bs
    else
      var us := Unloaded(bs, c);
      if c.lenLastData == 1 && c.hasEmptyData then Front(us) else us
  }

  /** The element shrink returns: none from an empty array, else the last element of block d-1, if any. */
  function Popped<T>(bs: seq<seq<T>>, c: Counters): (r: Option<T>)
    requires ShrinkIndexSafe(bs, c)
    ensures c.n == 0 ==> r == None
    ensures c.n > 0 ==> r == LastOf(bs[c.d - 1])
  {
    if c.n == 0 then None else LastOf(bs[c.d - 1])
  }

  /**
   * Reading index i of an array of n elements held in bs: nothing when i is
   * not below n, otherwise the slot that Locate computes.
   */
  function ReadAt<T>(bs: seq<seq<T>>, n: nat, i: nat): (r: Lookup<T>)
    ensures r == Absent <==> i >= n
  {
    if i >= n then Absent
    else
      var slot := Locate(i);
      if slot.0 < |bs| && slot.1 < |bs[slot.0]| then Found(bs[slot.0][slot.1]) else OutOfBounds
  }

  /**
   * The shape while the array has never been popped down to no element:
   * counters in the layout, no spare block, and the index shaped after the
   * counters.
   */
  ghost predicate Healthy<T>(bs: seq<seq<T>>, c: Counters) {
    InLayout(c) && !c.hasEmptyData && Shaped(bs, c.d, c.lenLastData)
  }

  /** The shape after the array has been popped down to no element: one element per block in use. */
  ghost predicate Drained<T>(bs: seq<seq<T>>, c: Counters) {
    DrainedCounters(c) && Singles(bs, c.d)
  }

  /** The shapes an array reaches from a new array. */
  ghost predicate Reachable<T>(bs: seq<seq<T>>, c: Counters) {
    Healthy(bs, c) || Drained(bs, c)
  }

  /** A new array, one empty block and the counters of Fresh, is healthy and holds nothing. */
  lemma FreshHealthy<T>(bs: seq<seq<T>>, c: Counters)
    requires bs == [[]] && c == Fresh()
    ensures Healthy(bs, c) && Flatten(bs) == []
  {
    FirstSuperblock(0);
    FlattenNothing(bs);
  }

  /** In every reachable shape, the contents hold n elements. */
  lemma ReachableLength<T>(bs: seq<seq<T>>, c: Counters)
    requires Reachable(bs, c)
    ensures |Flatten(bs)| == c.n
  {
    if Healthy(bs, c) {
      HealthyLength(bs, c);
    } else {
      DrainedLength(bs, c);
    }
  }

  lemma HealthyLength<T>(bs: seq<seq<T>>, c: Counters)
    requires Healthy(bs, c)
    ensures |Flatten(bs)| == c.n
  {
    ShapedLength(bs, c.d, c.lenLastData);
  }

  lemma DrainedLength<T>(bs: seq<seq<T>>, c: Counters)
    requires Drained(bs, c)
    ensures |Flatten(bs)| == c.n
  {
    FlattenTrim(bs, c.d);
    FlattenSinglesLength(bs, c.d);
  }

  /** Push keeps a healthy array healthy and appends v to its contents. */
  lemma PushHealthy<T>(bs: seq<seq<T>>, c: Counters, v: T)
    requires Healthy(bs, c)
    ensures PushSafe(bs, c)
    ensures Healthy(PushedIndex(bs, c, v), Grown(c))
    ensures Flatten(PushedIndex(bs, c, v)) == Flatten(bs) + [v]
  {
    GrowKeepsLayout(c);
    LastBlockCap(c);
    if Opens(c) {
      PushOpening(bs, c, v);
    } else {
      PushFilling(bs, c, v);
    }
  }

  lemma PushFilling<T>(bs: seq<seq<T>>, c: Counters, v: T)
    requires Shaped(bs, c.d, c.lenLastData) && !Opens(c)
    requires Grown(c).d == c.d && Grown(c).lenLastData == c.lenLastData + 1
    ensures PushSafe(bs, c)
    ensures Shaped(PushedIndex(bs, c, v), c.d, c.lenLastData + 1)
    ensures Flatten(PushedIndex(bs, c, v)) == Flatten(bs) + [v]
  {
    var k := c.d - 1;
    assert GrownIndex(bs, c) == bs;
    var ps := PushedIndex(bs, c, v);
    assert ps == bs[k := bs[k] + [v]];
    FlattenPush(bs, k, v);
  }

  lemma PushOpening<T>(bs: seq<seq<T>>, c: Counters, v: T)
    requires Shaped(bs, c.d, c.lenLastData) && Opens(c) && !c.hasEmptyData && c.lenLastData == Cap(c.d - 1)
    requires Grown(c).d == c.d + 1 && Grown(c).lenLastData == 1
    ensures PushSafe(bs, c)
    ensures Shaped(PushedIndex(bs, c, v), c.d + 1, 1)
    ensures Flatten(PushedIndex(bs, c, v)) == Flatten(bs) + [v]
  {
    var gs := bs + [[]];
    assert GrownIndex(bs, c) == gs;
    var k := c.d;
    assert gs[k] == [];
    assert Grown(c).d - 1 == k;
    var ps := PushedIndex(bs, c, v);
    assert gs[k] + [v] == [v];
    assert ps == gs[k := [v]];
    assert FullBefore(ps, k);
    FlattenSnoc(bs, []);
    assert bs + [[]] == gs;
    FlattenPush(gs, k, v);
  }

  /** Push keeps a drained array drained, in one more single-element block, and appends v. */
  lemma PushDrained<T>(bs: seq<seq<T>>, c: Counters, v: T)
    requires Drained(bs, c)
    ensures PushSafe(bs, c)
    ensures Drained(PushedIndex(bs, c, v), Grown(c))
    ensures Flatten(PushedIndex(bs, c, v)) == Flatten(bs) + [v]
  {
    GrowKeepsDrained(c);
    var gs := bs + [[]];
    assert GrownIndex(bs, c) == gs;
    var k := c.d;
    assert gs[k] == [];
    assert Grown(c).d - 1 == k;
    var ps := PushedIndex(bs, c, v);
    assert gs[k] + [v] == [v];
    assert ps == gs[k := [v]];
    FlattenSnoc(bs, []);
    assert bs + [[]] == gs;
    FlattenPush(gs, k, v);
  }

  /** Push keeps every reachable shape, appends v to the contents, and keeps a healthy array healthy and a drained one drained. */
  lemma PushKeepsReachable<T>(bs: seq<seq<T>>, c: Counters, v: T)
    requires Reachable(bs, c)
    ensures PushSafe(bs, c)
    ensures Reachable(PushedIndex(bs, c, v), Grown(c))
    ensures Healthy(bs, c) ==> Healthy(PushedIndex(bs, c, v), Grown(c))
    ensures Drained(bs, c) ==> Drained(PushedIndex(bs, c, v), Grown(c))
    ensures Flatten(PushedIndex(bs, c, v)) == Flatten(bs) + [v]
  {
    if Healthy(bs, c) {
      PushHealthy(bs, c, v);
    } else {
      PushDrained(bs, c, v);
    }
  }

  /** Push can write to its block in every reachable shape. */
  lemma PushFits<T>(bs: seq<seq<T>>, c: Counters, v: T)
    requires Reachable(bs, c)
    ensures PushSafe(bs, c)
  {
    PushKeepsReachable(bs, c, v);
  }

  /** PushKeepsReachable, stated for the block list and counters after the push. */
  lemma PushStep<T>(bs: seq<seq<T>>, c: Counters, v: T, bs2: seq<seq<T>>, c2: Counters)
    requires Reachable(bs, c) && PushSafe(bs, c) && bs2 == PushedIndex(bs, c, v) && c2 == Grown(c)
    ensures Reachable(bs2, c2) && c2.n == c.n + 1 && Flatten(bs2) == Flatten(bs) + [v]
    ensures Healthy(bs, c) ==> Healthy(bs2, c2)
    ensures Drained(bs, c) ==> Drained(bs2, c2)
  {
    PushKeepsReachable(bs, c, v);
    GrowCounts(c);
  }

  /** Pop from an array with no element changes nothing and returns nothing. */
  lemma PopEmpty<T>(bs: seq<seq<T>>, c: Counters)
    requires Reachable(bs, c) && c.n == 0
    ensures ShrinkIndexSafe(bs, c) && SpareIsEmpty(bs, c)
    ensures ShrunkIndex(bs, c) == bs && Shrunk(c) == c && Popped(bs, c) == None
  {
  }

  /**
   * From a healthy array of two or more elements, pop returns the last
   * element, removes it from the contents and leaves the array healthy.
   */
  lemma PopHealthy<T>(bs: seq<seq<T>>, c: Counters)
    requires Healthy(bs, c) && c.n >= 2
    ensures ShrinkIndexSafe(bs, c) && SpareIsEmpty(bs, c)
    ensures Healthy(ShrunkIndex(bs, c), Shrunk(c))
    ensures var all := Flatten(bs);
      Popped(bs, c) == Some(all[|all| - 1]) && Flatten(ShrunkIndex(bs, c)) == all[..|all| - 1]
  {
    LayoutOccupied(c.n, c.d, c.s, c.lenLastData, c.capLastData, c.lenLastSuper, c.capLastSuper);
    ShrinkKeepsLayout(c);
    var r := Shrunk(c);
    LastBlockCap(r);
    PopShaped(bs, c, r);
  }

  /**
   * Popping from a shaped index without a spare block: the shape follows
   * the counters r that shrink computes, whether block d-1 keeps elements
   * or is retired in favour of the full block before it.
   */
  lemma PopShaped<T>(bs: seq<seq<T>>, c: Counters, r: Counters)
    requires Shaped(bs, c.d, c.lenLastData) && c.n >= 1 && c.lenLastData >= 1 && !c.hasEmptyData && ShrinkSafe(c)
    requires c.lenLastData == 1 ==> r.d == c.d - 1 && r.d >= 1 && Cap(r.d - 1) == r.lenLastData
    requires c.lenLastData != 1 ==> r.d == c.d && r.lenLastData == c.lenLastData - 1
    ensures ShrinkIndexSafe(bs, c) && SpareIsEmpty(bs, c)
    ensures Shaped(ShrunkIndex(bs, c), r.d, r.lenLastData)
    ensures var all := Flatten(bs);
      Popped(bs, c) == Some(all[|all| - 1]) && Flatten(ShrunkIndex(bs, c)) == all[..|all| - 1]
  {
    var k := c.d - 1;
    var us := bs[k := Front(bs[k])];
    assert ShrunkIndex(bs, c) == us;
    FlattenPop(bs, k);
    if c.lenLastData == 1 {
      assert us[k] == [];
      assert FullBefore(us, r.d - 1);
    }
  }

  /** From a healthy array of one element, pop returns it and leaves a drained array with no element. */
  lemma PopLast<T>(bs: seq<seq<T>>, c: Counters)
    requires Healthy(bs, c) && c.n == 1
    ensures ShrinkIndexSafe(bs, c) && SpareIsEmpty(bs, c)
    ensures Drained(ShrunkIndex(bs, c), Shrunk(c)) && Shrunk(c).n == 0
    ensures var all := Flatten(bs);
      Popped(bs, c) == Some(all[|all| - 1]) && Flatten(ShrunkIndex(bs, c)) == all[..|all| - 1]
  {
    ShrinkDrains(c);
    LayoutSingle(c.n, c.d, c.s, c.lenLastData, c.capLastData, c.lenLastSuper, c.capLastSuper);
    PopOnlyBlock(bs, c);
  }

  /** Popping the one element of block 0 empties every block. */
  lemma PopOnlyBlock<T>(bs: seq<seq<T>>, c: Counters)
    requires Shaped(bs, 1, 1) && c.n == 1 && c.d == 1 && c.lenLastData == 1 && !c.hasEmptyData && ShrinkSafe(c)
    ensures ShrinkIndexSafe(bs, c) && SpareIsEmpty(bs, c)
    ensures Singles(ShrunkIndex(bs, c), 0)
    ensures var all := Flatten(bs);
      Popped(bs, c) == Some(all[|all| - 1]) && Flatten(ShrunkIndex(bs, c)) == all[..|all| - 1]
  {
    var us := Unloaded(bs, c);
    assert ShrunkIndex(bs, c) == us;
    assert us[0] == [];
    assert EmptyFrom(us, 0);
    FlattenPop(bs, 0);
  }

  /** From a drained array with elements, pop returns the last one and leaves the array drained. */
  lemma PopDrained<T>(bs: seq<seq<T>>, c: Counters)
    requires Drained(bs, c) && c.n >= 1
    ensures ShrinkIndexSafe(bs, c) && SpareIsEmpty(bs, c)
    ensures Drained(ShrunkIndex(bs, c), Shrunk(c))
    ensures var all := Flatten(bs);
      Popped(bs, c) == Some(all[|all| - 1]) && Flatten(ShrunkIndex(bs, c)) == all[..|all| - 1]
  {
    ShrinkKeepsDrained(c);
    var k := c.d - 1;
    var us := Unloaded(bs, c);
    assert ShrunkIndex(bs, c) == us;
    assert us[k] == [];
    FlattenPop(bs, k);
  }

  /**
   * Pop keeps every reachable shape. From an empty array it changes nothing
   * and returns nothing; otherwise it returns the last element of the
   * contents and removes it. A healthy array stays healthy unless its last
   * element is popped, which drains it; a drained array stays drained.
   */
  lemma PopKeepsReachable<T>(bs: seq<seq<T>>, c: Counters)
    requires Reachable(bs, c)
    ensures ShrinkIndexSafe(bs, c) && SpareIsEmpty(bs, c)
    ensures Reachable(ShrunkIndex(bs, c), Shrunk(c))
    ensures c.n == 0 ==> ShrunkIndex(bs, c) == bs && Shrunk(c) == c && Popped(bs, c) == None
    ensures c.n > 0 ==>
      var all := Flatten(bs);
      Popped(bs, c) == Some(all[|all| - 1]) && Flatten(ShrunkIndex(bs, c)) == all[..|all| - 1]
    ensures Healthy(bs, c) && c.n != 1 ==> Healthy(ShrunkIndex(bs, c), Shrunk(c))
    ensures (Healthy(bs, c) && c.n == 1) || Drained(bs, c) ==> Drained(ShrunkIndex(bs, c), Shrunk(c))
  {
    if c.n == 0 {
      PopEmpty(bs, c);
    } else if Drained(bs, c) {
      PopDrained(bs, c);
    } else if c.n == 1 {
      PopLast(bs, c);
    } else {
      PopHealthy(bs, c);
    }
  }

  /**
   * In a healthy array, reading an index below the count finds the element
   * at that position of the contents.
   */
  lemma ReadHealthy<T>(bs: seq<seq<T>>, c: Counters, i: nat)
    requires Healthy(bs, c) && i < c.n
    ensures i < |Flatten(bs)| && ReadAt(bs, c.n, i) == Found(Flatten(bs)[i])
  {
    LastBlockCap(c);
    ReadShaped(bs, c.d, c.lenLastData, c.n, i);
  }

  lemma ReadShaped<T>(bs: seq<seq<T>>, d: nat, last: nat, n: nat, i: nat)
    requires Shaped(bs, d, last) && last <= Cap(d - 1) && n == Start(d - 1) + last && i < n
    ensures i < |Flatten(bs)| && ReadAt(bs, n, i) == Found(Flatten(bs)[i])
  {
    var r := Locate(i);
    assert r.1 < Cap(r.0) && Start(r.0) + r.1 == i;
    ShapedSlot(bs, d, last, i, r);
  }

  /**
   * In a drained array, reading index i below the count succeeds only when
   * the layout puts i first in its block, and then yields element r.0 of the
   * contents, not element i; otherwise the slot is missing.
   */
  lemma ReadDrained<T>(bs: seq<seq<T>>, c: Counters, i: nat, r: (nat, nat))
    requires Drained(bs, c) && i < c.n && r == Locate(i)
    ensures |Flatten(bs)| == c.n && r.0 < c.n
    ensures ReadAt(bs, c.n, i) == if r.1 == 0 then Found(Flatten(bs)[r.0]) else OutOfBounds
  {
    assert r.1 < Cap(r.0) && Start(r.0) + r.1 == i;
    SinglesSlot(bs, c.d, i, r);
  }

  /** Changing the elements in place keeps every block's length, hence the shape. */
  lemma MapKeepsReachable<T>(bs: seq<seq<T>>, c: Counters, f: T -> T)
    requires Reachable(bs, c)
    ensures Reachable(MapBlocks(bs, f), c)
    ensures Healthy(bs, c) ==> Healthy(MapBlocks(bs, f), c)
    ensures Flatten(MapBlocks(bs, f)) == MapSeq(Flatten(bs), f)
  {
    var ms := MapBlocks(bs, f);
    assert forall a :: 0 <= a < |bs| ==> |ms[a]| == |bs[a]|;
    FlattenMap(bs, f);
  }

  /**
   * A push followed by a pop on a non-empty reachable array restores the
   * counters, and the block list differs at most by the empty block the
   * push opened, which the pop leaves behind.
   */
  lemma PushThenPop<T>(bs: seq<seq<T>>, c: Counters, v: T)
    requires Reachable(bs, c) && c.n >= 1
    ensures PushSafe(bs, c) && ShrinkIndexSafe(PushedIndex(bs, c, v), Grown(c))
    ensures Shrunk(Grown(c)) == c
    ensures ShrunkIndex(PushedIndex(bs, c, v), Grown(c)) == GrownIndex(bs, c)
    ensures Popped(PushedIndex(bs, c, v), Grown(c)) == Some(v)
  {
    PushKeepsReachable(bs, c, v);
    GrowThenShrink(c);
    PushPopIndex(bs, c, v);
  }

  /** Removing the element just appended to a block gives back the block. */
  lemma PushPopIndex<T>(bs: seq<seq<T>>, c: Counters, v: T)
    requires PushSafe(bs, c) && ShrinkSafe(Grown(c)) && !Grown(c).hasEmptyData
    ensures ShrinkIndexSafe(PushedIndex(bs, c, v), Grown(c))
    ensures ShrunkIndex(PushedIndex(bs, c, v), Grown(c)) == GrownIndex(bs, c)
    ensures Popped(PushedIndex(bs, c, v), Grown(c)) == Some(v)
  {
    var g := Grown(c);
    var k := g.d - 1;
    var gs := GrownIndex(bs, c);
    var ps := PushedIndex(bs, c, v);
    assert ps[k] == gs[k] + [v];
    assert ShrunkIndex(ps, g) == Unloaded(ps, g);
    assert Front(ps[k]) == gs[k];
    assert Unloaded(ps, g) == gs;
  }
}
