/**
 * The array with shrink corrected in two places, everything else as in
 * Bookkeeping and Steps:
 *
 * - a data block that shrink empties is kept as the spare block and
 *   flagged as such (the source never sets the flag, so the next push opens
 *   yet another block and empty blocks pile up at the end of the index);
 * - popping the only element leaves the counters of a new array (the source
 *   retires block 0 and superblock 0, after which the counters no longer
 *   follow the layout and reads past the first slot of a block fail).
 *
 * The block list after a shrink is the one the source computes
 * (Steps.ShrunkIndex); only the counters differ.
 *
 * Shrink, Push and Pop below are methods of this module that update a
 * Bcdms.BcdmsArray's fields, so that the class keeps the methods as the
 * source writes them and the corrected ones sit beside them.
 */
module Repaired {
  import opened Layout
  import opened Blocks
  import opened Bookkeeping
  import opened Steps
  import opened Bcdms

  /**
   * The counters after the corrected shrink: one element fewer, the last
   * block in use is never retired, and a retired block becomes the spare.
   */
  function FixedShrunk(c: Counters): (r: Counters)
    requires ShrinkSafe(c)
    ensures c.n == 0 ==> r == c
    ensures c.n > 0 ==> r.n == c.n - 1
    ensures c.d >= 1 ==> r.d >= 1
    ensures c.n > 0 && c.lenLastData == 1 && c.d >= 2 ==> r.d == c.d - 1 && r.hasEmptyData
  {
    if c.n == 0 || c.lenLastData != 1 then Shrunk(c)
    else if c.d == 1 then c.(n := c.n - 1, lenLastData := 0, hasEmptyData := false)
    else Shrunk(c).(hasEmptyData := true)
  }

  /**
   * The corrected invariant: the counters follow the layout, the blocks in
   * use have the layout's shape, and beyond them there is exactly the one
   * empty spare block the flag announces, or none.
   */
  ghost predicate Kept<T>(bs: seq<seq<T>>, c: Counters): (r: bool)
    ensures r ==> 1 <= c.d <= |bs| <= c.d + 1
  {
    InLayout(c) && Shaped(bs, c.d, c.lenLastData) && |bs| == c.d + (if c.hasEmptyData then 1 else 0)
  }

  /**
   * The corrected shrink of the only element keeps the counters in the
   * layout: block 0 stays the last block in use, now with no element.
   */
  lemma FixedShrinkSingle(c: Counters)
    requires InLayout(c) && c.n == 1
    ensures ShrinkSafe(c) && c.d == 1 && c.lenLastData == 1
    ensures var r := FixedShrunk(c);
      InLayout(r) && r.n == 0 && r.d == 1 && r.lenLastData == 0 && !r.hasEmptyData
  {
    LayDrop(c.n, c.d, c.s, c.lenLastData, c.capLastData, c.lenLastSuper, c.capLastSuper);
  }

  /** Layout counters with one element, with that element uncounted, are layout counters too. */
  lemma LayDrop(n: nat, d: nat, s: nat, lld: nat, cld: nat, lls: nat, cls: nat)
    requires Lay(n, d, s, lld, cld, lls, cls) && n == 1
    ensures d == 1 && lld == 1 && lls >= 1 && s >= 1 && Lay(0, d, s, 0, cld, lls, cls)
  {
    var a := d - 1;
    StartAtLeast(a);
  }

  /**
   * With two or more elements the corrected shrink keeps the counters in
   * the layout and uncounts one element; it is the source's shrink with the
   * spare flag set when a block is retired.
   */
  lemma FixedShrinkMany(c: Counters)
    requires InLayout(c) && c.n >= 2
    ensures ShrinkSafe(c)
    ensures var r := FixedShrunk(c);
      && InLayout(r) && r.n == c.n - 1
      && r == Shrunk(c).(hasEmptyData := c.lenLastData == 1 || c.hasEmptyData)
      && r.d == (if c.lenLastData == 1 then c.d - 1 else c.d)
      && r.lenLastData == (if c.lenLastData == 1 then r.capLastData else c.lenLastData - 1)
  {
    ShrinkKeepsLayout(c);
    FixedMany(c);
  }

  /**
   * The corrected shrink of the only element of block 0 (the only counters
   * in the layout with one element) gives the counters of a new array.
   */
  lemma FixedSingle(c: Counters)
    requires c.n == 1 && c.d == 1 && c.s == 1 && c.lenLastData == 1
    requires c.capLastData == 1 && c.lenLastSuper == 1 && c.capLastSuper == 1
    ensures ShrinkSafe(c) && FixedShrunk(c) == Fresh() && InLayout(Fresh())
  {
    FirstSuperblock(0);
  }

  /** With two or more elements the corrected shrink differs from the source's in the spare flag only. */
  lemma FixedMany(c: Counters)
    requires ShrinkSafe(c) && c.n >= 2 && InLayout(Shrunk(c)) && Shrunk(c).n == c.n - 1
    requires c.lenLastData == 1 ==> Shrunk(c).d == c.d - 1
    ensures FixedShrunk(c) == Shrunk(c).(hasEmptyData := c.lenLastData == 1 || c.hasEmptyData)
    ensures InLayout(FixedShrunk(c)) && FixedShrunk(c).n == c.n - 1
  {
    var r := Shrunk(c);
    if c.lenLastData == 1 {
      assert r.d >= 1;
    }
  }

  /** A new array satisfies the corrected invariant. */
  lemma FreshKept<T>(bs: seq<seq<T>>, c: Counters)
    requires bs == [[]] && c == Fresh()
    ensures Kept(bs, c) && Flatten(bs) == []
  {
    FreshHealthy(bs, c);
  }

  /** Under the corrected invariant the contents hold n elements. */
  lemma KeptLength<T>(bs: seq<seq<T>>, c: Counters)
    requires Kept(bs, c)
    ensures |Flatten(bs)| == c.n
  {
    ShapedLength(bs, c.d, c.lenLastData);
  }

  /**
   * Under the corrected invariant the index holds at most one block more
   * than there are elements (two while the array has no element), however
   * many pushes and pops led there.
   */
  lemma KeptBounded<T>(bs: seq<seq<T>>, c: Counters)
    requires Kept(bs, c)
    ensures |bs| <= c.n + 2
    ensures c.n >= 1 ==> |bs| <= c.n + 1
  {
    LayBlocks(c.n, c.d, c.s, c.lenLastData, c.capLastData, c.lenLastSuper, c.capLastSuper);
  }

  /** Every block in use before the last is full, so there are no more blocks in use than elements. */
  lemma LayBlocks(n: nat, d: nat, s: nat, lld: nat, cld: nat, lls: nat, cls: nat)
    requires Lay(n, d, s, lld, cld, lls, cls)
    ensures d <= n + 1 && (n >= 1 ==> d <= n)
  {
    var a := d - 1;
    StartAtLeast(a);
  }

  /** Push, unchanged from the source, keeps the corrected invariant and appends v. */
  lemma PushKept<T>(bs: seq<seq<T>>, c: Counters, v: T)
    requires Kept(bs, c)
    ensures PushSafe(bs, c)
    ensures Kept(PushedIndex(bs, c, v), Grown(c))
    ensures Flatten(PushedIndex(bs, c, v)) == Flatten(bs) + [v]
  {
    GrowKeepsLayout(c);
    LastBlockCap(c);
    if !Opens(c) {
      PushFilling(bs, c, v);
    } else if c.hasEmptyData {
      PushReusing(bs, c, v);
    } else {
      PushOpening(bs, c, v);
    }
  }

  /** Opening a block by reusing the spare: v becomes the only element of block d. */
  lemma PushReusing<T>(bs: seq<seq<T>>, c: Counters, v: T)
    requires Shaped(bs, c.d, c.lenLastData) && |bs| == c.d + 1 && Opens(c) && c.hasEmptyData
    requires c.lenLastData == Cap(c.d - 1)
    requires Grown(c).d == c.d + 1 && Grown(c).lenLastData == 1
    ensures PushSafe(bs, c)
    ensures Shaped(PushedIndex(bs, c, v), c.d + 1, 1) && |PushedIndex(bs, c, v)| == c.d + 1
    ensures Flatten(PushedIndex(bs, c, v)) == Flatten(bs) + [v]
  {
    assert GrownIndex(bs, c) == bs;
    var k := c.d;
    assert bs[k] == [];
    var ps := PushedIndex(bs, c, v);
    assert ps == bs[k := bs[k] + [v]];
    assert FullBefore(ps, k);
    FlattenPush(bs, k, v);
  }

  /**
   * Pop with the corrected counters keeps the corrected invariant. From an
   * empty array it changes nothing and returns nothing; otherwise it returns
   * the last element of the contents and removes it, and popping the only
   * element gives back a new array.
   */
  lemma PopKept<T>(bs: seq<seq<T>>, c: Counters)
    requires Kept(bs, c)
    ensures ShrinkIndexSafe(bs, c) && SpareIsEmpty(bs, c) && |Flatten(bs)| == c.n
    ensures Kept(ShrunkIndex(bs, c), FixedShrunk(c))
    ensures c.n == 0 ==> ShrunkIndex(bs, c) == bs && FixedShrunk(c) == c && Popped(bs, c) == None
    ensures c.n > 0 ==>
      var all := Flatten(bs);
      Popped(bs, c) == Some(all[|all| - 1]) && Flatten(ShrunkIndex(bs, c)) == all[..|all| - 1]
    ensures c.n == 1 ==> ShrunkIndex(bs, c) == [[]]
  {
    KeptLength(bs, c);
    if c.n == 1 {
      FixedShrinkSingle(c);
      PopOnly(bs, c);
    } else if c.n >= 2 {
      LayoutOccupied(c.n, c.d, c.s, c.lenLastData, c.capLastData, c.lenLastSuper, c.capLastSuper);
      FixedShrinkMany(c);
      var r := FixedShrunk(c);
      LastBlockCap(r);
      PopKeptShape(bs, c, r);
    }
  }

  /** Popping the one element of block 0, dropping the spare if there is one, leaves one empty block. */
  lemma PopOnly<T>(bs: seq<seq<T>>, c: Counters)
    requires Shaped(bs, 1, 1) && |bs| == 1 + (if c.hasEmptyData then 1 else 0)
    requires c.n == 1 && c.d == 1 && c.lenLastData == 1 && ShrinkSafe(c)
    ensures ShrinkIndexSafe(bs, c) && SpareIsEmpty(bs, c)
    ensures ShrunkIndex(bs, c) == [[]] && Shaped(ShrunkIndex(bs, c), 1, 0)
    ensures var all := Flatten(bs);
      Popped(bs, c) == Some(all[|all| - 1]) && Flatten(ShrunkIndex(bs, c)) == all[..|all| - 1]
  {
    var us := Unloaded(bs, c);
    assert us[0] == [];
    FlattenPop(bs, 0);
    if c.hasEmptyData {
      assert us == [[], []];
    } else {
      assert us == [[]];
    }
  }

  /**
   * Popping from a shaped index with at most one spare block: the shape
   * follows the corrected counters r. When block d-1 keeps elements the
   * spare is untouched; when it is emptied, the old spare is dropped and
   * block d-1 becomes the spare.
   */
  lemma PopKeptShape<T>(bs: seq<seq<T>>, c: Counters, r: Counters)
    requires Shaped(bs, c.d, c.lenLastData) && |bs| == c.d + (if c.hasEmptyData then 1 else 0)
    requires c.n >= 1 && c.lenLastData >= 1 && ShrinkSafe(c)
    requires c.lenLastData == 1 ==> r.d == c.d - 1 && r.d >= 1 && Cap(r.d - 1) == r.lenLastData && r.hasEmptyData
    requires c.lenLastData != 1 ==> r.d == c.d && r.lenLastData == c.lenLastData - 1 && r.hasEmptyData == c.hasEmptyData
    ensures ShrinkIndexSafe(bs, c) && SpareIsEmpty(bs, c)
    ensures Shaped(ShrunkIndex(bs, c), r.d, r.lenLastData)
    ensures |ShrunkIndex(bs, c)| == r.d + (if r.hasEmptyData then 1 else 0)
    ensures var all := Flatten(bs);
      Popped(bs, c) == Some(all[|all| - 1]) && Flatten(ShrunkIndex(bs, c)) == all[..|all| - 1]
  {
    if c.lenLastData == 1 {
      PopRetiring(bs, c, r);
    } else {
      PopWithin(bs, c, r);
    }
  }

  /** The popped element was the only one of block d-1, which becomes the spare. */
  lemma PopRetiring<T>(bs: seq<seq<T>>, c: Counters, r: Counters)
    requires Shaped(bs, c.d, c.lenLastData) && |bs| == c.d + (if c.hasEmptyData then 1 else 0)
    requires c.n >= 1 && c.lenLastData == 1 && ShrinkSafe(c)
    requires r.d == c.d - 1 && r.d >= 1 && Cap(r.d - 1) == r.lenLastData && r.hasEmptyData
    ensures ShrinkIndexSafe(bs, c) && SpareIsEmpty(bs, c)
    ensures Shaped(ShrunkIndex(bs, c), r.d, r.lenLastData)
    ensures |ShrunkIndex(bs, c)| == r.d + (if r.hasEmptyData then 1 else 0)
    ensures var all := Flatten(bs);
      Popped(bs, c) == Some(all[|all| - 1]) && Flatten(ShrunkIndex(bs, c)) == all[..|all| - 1]
  {
    var k := c.d - 1;
    var us := Unloaded(bs, c);
    FlattenPop(bs, k);
    RetireShape(us, k, c.hasEmptyData);
  }

  /** The popped element leaves at least one element in block d-1; the spare is untouched. */
  lemma PopWithin<T>(bs: seq<seq<T>>, c: Counters, r: Counters)
    requires Shaped(bs, c.d, c.lenLastData) && |bs| == c.d + (if c.hasEmptyData then 1 else 0)
    requires c.n >= 1 && c.lenLastData >= 2 && ShrinkSafe(c)
    requires r.d == c.d && r.lenLastData == c.lenLastData - 1 && r.hasEmptyData == c.hasEmptyData
    ensures ShrinkIndexSafe(bs, c) && SpareIsEmpty(bs, c)
    ensures Shaped(ShrunkIndex(bs, c), r.d, r.lenLastData)
    ensures |ShrunkIndex(bs, c)| == r.d + (if r.hasEmptyData then 1 else 0)
    ensures var all := Flatten(bs);
      Popped(bs, c) == Some(all[|all| - 1]) && Flatten(ShrunkIndex(bs, c)) == all[..|all| - 1]
  {
    var us := Unloaded(bs, c);
    FlattenPop(bs, c.d - 1);
    assert ShrunkIndex(bs, c) == us;
  }

  /**
   * Block k has just been emptied behind k full blocks: with the spare
   * dropped when there was one, block k is the one spare and the contents
   * are unchanged.
   */
  lemma RetireShape<T>(us: seq<seq<T>>, k: nat, spare: bool)
    requires 1 <= k && |us| == k + 1 + (if spare then 1 else 0)
    requires FullBefore(us, k) && EmptyFrom(us, k)
    ensures var t := if spare then Front(us) else us;
      Shaped(t, k, Cap(k - 1)) && |t| == k + 1 && Flatten(t) == Flatten(us)
  {
    if spare {
      var fs := Front(us);
      assert us == fs + [[]];
      FlattenSnoc(fs, []);
      assert FullBefore(fs, k - 1);
    } else {
      assert FullBefore(us, k - 1);
    }
  }

  /**
   * Under the corrected invariant, in every state, reading an index below
   * the count finds the element at that position of the contents.
   */
  lemma ReadKept<T>(bs: seq<seq<T>>, c: Counters, i: nat)
    requires Kept(bs, c) && i < c.n
    ensures i < |Flatten(bs)| && ReadAt(bs, c.n, i) == Found(Flatten(bs)[i])
  {
    LastBlockCap(c);
    ReadShaped(bs, c.d, c.lenLastData, c.n, i);
  }

  /**
   * Shrink with the two corrections: when block d-1 is emptied it is kept
   * as the spare block and flagged (after the old spare, if any, is
   * dropped), except that block 0 is never retired, so popping the only
   * element leaves block 0 in use with no element.
   */
  method Shrink<T>(a: BcdmsArray<T>) returns (ret: Option<T>)
    requires ShrinkIndexSafe(a.index, a.Snapshot()) && SpareIsEmpty(a.index, a.Snapshot())
    modifies a
    ensures a.Snapshot() == FixedShrunk(old(a.Snapshot()))
    ensures a.index == ShrunkIndex(old(a.index), old(a.Snapshot()))
    ensures ret == Popped(old(a.index), old(a.Snapshot()))
  {
    if a.n == 0 {
      return None;
    }
    ghost var c := a.Snapshot();
    a.n := a.n - 1;
    a.lenLastData := a.lenLastData - 1;
    ret := LastOf(a.index[a.d - 1]);
    a.index := a.index[a.d - 1 := Front(a.index[a.d - 1])];
    if a.lenLastData == 0 {
      if a.hasEmptyData {
        var temp := LastOf(a.index);
        a.index := Front(a.index);
        assert temp == None || temp == Some([]);
      }
      assert a.index == ShrunkIndex(old(a.index), c);
      if a.d == 1 {
        a.hasEmptyData := false;
      } else {
        a.hasEmptyData := true;
        a.d := a.d - 1;
        a.lenLastSuper := a.lenLastSuper - 1;
        if a.lenLastSuper == 0 {
          a.s := a.s - 1;
          if a.s % 2 == 0 {
            a.capLastSuper := a.capLastSuper / 2;
          } else {
            a.capLastData := a.capLastData / 2;
          }
          a.lenLastSuper := a.capLastSuper;
        }
        a.lenLastData := a.capLastData;
      }
    } else {
      assert a.index == ShrunkIndex(old(a.index), c);
    }
  }

  /** Push, as in the source, on an array that keeps the corrected invariant: v is appended. */
  method Push<T>(a: BcdmsArray<T>, v: T)
    requires Kept(a.index, a.Snapshot())
    modifies a
    ensures old(PushSafe(a.index, a.Snapshot()))
    ensures a.Snapshot() == Grown(old(a.Snapshot())) && a.index == PushedIndex(old(a.index), old(a.Snapshot()), v)
    ensures Kept(a.index, a.Snapshot())
    ensures a.n == old(a.n) + 1 && a.Iter() == old(a.Iter()) + [v]
  {
    ghost var bs, c := a.index, a.Snapshot();
    PushKept(bs, c, v);
    GrowCounts(c);
    a.Grow();
    a.index := a.index[a.d - 1 := a.index[a.d - 1] + [v]];
  }

  /**
   * Pop with the corrected shrink keeps the corrected invariant: from an
   * array with no element it returns nothing and changes nothing; otherwise
   * it returns the last element and removes it.
   */
  method Pop<T>(a: BcdmsArray<T>) returns (r: Option<T>)
    requires Kept(a.index, a.Snapshot())
    modifies a
    ensures a.Snapshot() == FixedShrunk(old(a.Snapshot())) && a.index == ShrunkIndex(old(a.index), old(a.Snapshot()))
    ensures Kept(a.index, a.Snapshot())
    ensures |old(a.Iter())| == old(a.n)
    ensures old(a.n) == 0 ==> r == None && a.index == old(a.index) && a.Snapshot() == old(a.Snapshot())
    ensures old(a.n) > 0 ==>
      && a.n == old(a.n) - 1
      && r == Some(old(a.Iter())[old(a.n) - 1])
      && a.Iter() == old(a.Iter())[..old(a.n) - 1]
  {
    ghost var bs, c := a.index, a.Snapshot();
    PopKept(bs, c);
    r := Shrink(a);
  }
}
