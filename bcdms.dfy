/**
 * The BCDMS array itself: an index of data blocks and the counters beside
 * it, updated in place by push and pop exactly as the counter and block
 * functions of Bookkeeping and Steps describe.
 */
module Bcdms {
  import opened Blocks
  import opened Bookkeeping
  import opened Steps

  class BcdmsArray<T> {
    /** The data blocks, in order. */
    var index: seq<seq<T>>
    var n: nat
    var d: nat
    var s: nat
    var hasEmptyData: bool
    var lenLastData: nat
    var capLastData: nat
    var lenLastSuper: nat
    var capLastSuper: nat

    /** The counters as one value. */
    ghost function Snapshot(): Counters
      reads this`n, this`d, this`s, this`hasEmptyData
      reads this`lenLastData, this`capLastData, this`lenLastSuper, this`capLastSuper
    {
      Counters(n, d, s, hasEmptyData, lenLastData, capLastData, lenLastSuper, capLastSuper)
    }

    /** Index and counters have a shape that a new array reaches by pushes and pops. */
    ghost predicate Valid()
      reads this
    {
      Reachable(index, Snapshot())
    }

    /** A new array: one empty data block of size 1 in one superblock, and no element. */
    constructor()
      ensures index == [[]] && Snapshot() == Fresh()
      ensures Valid() && Healthy(index, Snapshot()) && n == 0
    {
      index := [[]];
      n := 0;
      s := 1;
      d := 1;
      hasEmptyData := false;
      lenLastData := 0;
      capLastData := 1;
      lenLastSuper := 1;
      capLastSuper := 1;
      new;
      assert Snapshot() == Fresh();
      FreshHealthy(index, Snapshot());
    }

    /** The elements in iteration order: every block, first to last, each from its first element. */
    function Iter(): (r: seq<T>)
      reads this
      ensures Valid() ==> |r| == n
    {
      LengthOfReachable(index, Snapshot());
      Flatten(index)
    }

    /**
     * The element at index i: nothing when i is not below the count; in a
     * healthy array, element i of the iteration order.
     */
    function Read(i: nat): (r: Lookup<T>)
      reads this
      ensures r == Absent <==> i >= n
      ensures Healthy(index, Snapshot()) && i < n ==> r == Found(Iter()[i])
    {
      ReadOfHealthy(index, Snapshot(), i);
      ReadAt(index, n, i)
    }

    /**
     * Count one more element, first opening a data block when the last one
     * is full (and a superblock when the last one is full), reusing the spare
     * block if one is kept.
     */
    method Grow()
      modifies this
      ensures Snapshot() == Grown(old(Snapshot()))
      ensures index == GrownIndex(old(index), old(Snapshot()))
    {
      if capLastData == lenLastData {
        if lenLastSuper == capLastSuper {
          s := s + 1;
          if s % 2 == 1 {
            capLastSuper := capLastSuper * 2;
          } else {
            capLastData := capLastData * 2;
          }
          lenLastSuper := 0;
        }
        if !hasEmptyData {
          index := index + [[]];
        } else {
          hasEmptyData := false;
        }
        d := d + 1;
        lenLastSuper := lenLastSuper + 1;
        lenLastData := 0;
      }
      n := n + 1;
      lenLastData := lenLastData + 1;
    }

    /**
     * Uncount the last element and remove it from block d-1; when that block
     * becomes empty, drop the spare block if one is kept, retire the block
     * and, if the last superblock becomes empty, retire it too.
     */
    method Shrink() returns (ret: Option<T>)
      requires ShrinkIndexSafe(index, Snapshot()) && SpareIsEmpty(index, Snapshot())
      modifies this
      ensures Snapshot() == Shrunk(old(Snapshot()))
      ensures index == ShrunkIndex(old(index), old(Snapshot()))
      ensures ret == Popped(old(index), old(Snapshot()))
    {
      if n == 0 {
        return None;
      }
      ghost var c := Snapshot();
      n := n - 1;
      lenLastData := lenLastData - 1;
      ret := LastOf(index[d - 1]);
      index := index[d - 1 := Front(index[d - 1])];
      if lenLastData == 0 {
        if hasEmptyData {
          var temp := LastOf(index);
          index := Front(index);
          assert temp == None || temp == Some([]);
        }
        assert index == ShrunkIndex(old(index), c);
        d := d - 1;
        lenLastSuper := lenLastSuper - 1;
        if lenLastSuper == 0 {
          s := s - 1;
          if s % 2 == 0 {
            capLastSuper := capLastSuper / 2;
          } else {
            capLastData := capLastData / 2;
          }
          lenLastSuper := capLastSuper;
        }
        lenLastData := capLastData;
      } else {
        assert index == ShrunkIndex(old(index), c);
      }
    }

    /** Append v: it becomes the last element in iteration order. */
    method Push(v: T)
      requires Valid()
      modifies this
      ensures old(PushSafe(index, Snapshot()))
      ensures Snapshot() == Grown(old(Snapshot())) && index == PushedIndex(old(index), old(Snapshot()), v)
      ensures Valid()
      ensures n == old(n) + 1
      ensures Iter() == old(Iter()) + [v]
      ensures old(Healthy(index, Snapshot())) ==> Healthy(index, Snapshot())
      ensures old(Drained(index, Snapshot())) ==> Drained(index, Snapshot())
    {
      ghost var bs, c := index, Snapshot();
      PushFits(bs, c, v);
      Grow();
      index := index[d - 1 := index[d - 1] + [v]];
      PushStep(bs, c, v, index, Snapshot());
    }

    /**
     * Remove and return the last element in iteration order; nothing from
     * an array with no element, which is left as it was.
     */
    method Pop() returns (r: Option<T>)
      requires Valid()
      modifies this
      ensures old(ShrinkIndexSafe(index, Snapshot()))
      ensures Snapshot() == Shrunk(old(Snapshot())) && index == ShrunkIndex(old(index), old(Snapshot()))
      ensures Valid()
      ensures old(n) == 0 ==> r == None && index == old(index) && Snapshot() == old(Snapshot())
      ensures old(n) > 0 ==>
        && n == old(n) - 1
        && r == Some(old(Iter())[old(n) - 1])
        && Iter() == old(Iter())[..old(n) - 1]
      ensures old(Healthy(index, Snapshot())) && old(n) != 1 ==> Healthy(index, Snapshot())
      ensures (old(Healthy(index, Snapshot())) && old(n) == 1) || old(Drained(index, Snapshot())) ==> Drained(index, Snapshot())
    {
      PopKeepsReachable(index, Snapshot());
      ReachableLength(index, Snapshot());
      ShrinkCounts(Snapshot());
      r := Shrink();
    }

    /** Pass every element through f in place, keeping the order and the shape. */
    method IterMut(f: T -> T)
      requires Valid()
      modifies this
      ensures index == MapBlocks(old(index), f) && Snapshot() == old(Snapshot())
      ensures Valid() && Iter() == MapSeq(old(Iter()), f)
      ensures old(Healthy(index, Snapshot())) ==> Healthy(index, Snapshot())
    {
      MapKeepsReachable(index, Snapshot(), f);
      index := MapBlocks(index, f);
    }
  }

  /**
   * Steps.ReachableLength as an implication with no requires: the form the
   * body of Iter can call whatever the array's state, since Iter itself
   * does not require a valid array.
   */
  lemma LengthOfReachable<T>(bs: seq<seq<T>>, c: Counters)
    ensures Reachable(bs, c) ==> |Flatten(bs)| == c.n
  {
    if Reachable(bs, c) {
      ReachableLength(bs, c);
    }
  }

  /**
   * Steps.ReadHealthy as an implication with no requires: the form the body
   * of Read can call whatever the array's state, since Read itself does not
   * require a healthy array.
   */
  lemma ReadOfHealthy<T>(bs: seq<seq<T>>, c: Counters, i: nat)
    ensures Healthy(bs, c) && i < c.n ==> i < |Flatten(bs)| && ReadAt(bs, c.n, i) == Found(Flatten(bs)[i])
  {
    if Healthy(bs, c) && i < c.n {
      ReadHealthy(bs, c, i);
    }
  }
}
