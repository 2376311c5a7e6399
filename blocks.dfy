/**
 * The index of a BCDMS array is a list of data blocks. Its contents, in the
 * order that iter yields them, are the blocks concatenated. This module
 * states the shapes the list of blocks keeps and how the contents change
 * when the last occupied block gains or loses an element.
 */
module Blocks {
  import opened Layout

  /** The elements of all blocks, block by block. */
  function Flatten<T>(bs: seq<seq<T>>): seq<T> {
    if |bs| == 0 then [] else bs[0] + Flatten(bs[1..])
  }

  /** The blocks at positions d and beyond hold nothing. */
  ghost predicate EmptyFrom<T>(bs: seq<seq<T>>, d: nat) {
    forall a :: d <= a < |bs| ==> bs[a] == []
  }

  /** The first k blocks are filled to the capacity the layout gives them. */
  ghost predicate FullBefore<T>(bs: seq<seq<T>>, k: nat) {
    k <= |bs| && forall a :: 0 <= a < k ==> |bs[a]| == Cap(a)
  }

  /**
   * The shape of the index while the counters follow the layout: d data
   * blocks in use, all but the last of them full, the last holding `last`
   * elements, and only empty blocks after them.
   */
  ghost predicate Shaped<T>(bs: seq<seq<T>>, d: nat, last: nat) {
    1 <= d <= |bs| && FullBefore(bs, d - 1) && |bs[d - 1]| == last && EmptyFrom(bs, d)
  }

  /**
   * The shape of the index once the array has been emptied by pops: d
   * blocks of one element each, then at least one empty block.
   */
  ghost predicate Singles<T>(bs: seq<seq<T>>, d: nat) {
    d < |bs| && (forall a :: 0 <= a < d ==> |bs[a]| == 1) && EmptyFrom(bs, d)
  }

  /** Each element of s passed through f. */
  function MapSeq<T>(s: seq<T>, f: T -> T): (r: seq<T>)
    ensures |r| == |s| && forall i :: 0 <= i < |s| ==> r[i] == f(s[i])
  {
    seq(|s|, i requires 0 <= i < |s| => f(s[i]))
  }

  /** Every block with each of its elements passed through f. */
  function MapBlocks<T>(bs: seq<seq<T>>, f: T -> T): (r: seq<seq<T>>)
    ensures |r| == |bs| && forall a :: 0 <= a < |bs| ==> r[a] == MapSeq(bs[a], f)
  {
    seq(|bs|, a requires 0 <= a < |bs| => MapSeq(bs[a], f))
  }

  /** Flattening distributes over concatenation of block lists. */
  lemma {:induction false} FlattenAppend<T>(x: seq<seq<T>>, y: seq<seq<T>>)
    ensures Flatten(x + y) == Flatten(x) + Flatten(y)
    decreases |x|
  {
    if |x| > 0 {
      assert (x + y)[0] == x[0];
      assert (x + y)[1..] == x[1..] + y;
      FlattenAppend(x[1..], y);
    } else {
      assert x + y == y;
    }
  }

  /** A list of empty blocks holds nothing. */
  lemma {:induction false} FlattenNothing<T>(bs: seq<seq<T>>)
    requires EmptyFrom(bs, 0)
    ensures Flatten(bs) == []
    decreases |bs|
  {
    if |bs| > 0 {
      FlattenNothing(bs[1..]);
    }
  }

  /** Empty blocks at the end do not contribute to the contents. */
  lemma FlattenTrim<T>(bs: seq<seq<T>>, d: nat)
    requires d <= |bs| && EmptyFrom(bs, d)
    ensures Flatten(bs) == Flatten(bs[..d])
  {
    assert bs == bs[..d] + bs[d..];
    FlattenAppend(bs[..d], bs[d..]);
    FlattenNothing(bs[d..]);
  }

  /** Flattening a list that ends in block z. */
  lemma FlattenSnoc<T>(x: seq<seq<T>>, z: seq<T>)
    ensures Flatten(x + [z]) == Flatten(x) + z
  {
    FlattenAppend(x, [z]);
    assert [z][1..] == [];
  }

  /** k full blocks hold exactly the elements before block k of the layout. */
  lemma {:induction false} FlattenFullLength<T>(bs: seq<seq<T>>, k: nat)
    requires FullBefore(bs, k)
    ensures |Flatten(bs[..k])| == Start(k)
  {
    if k > 0 {
      FlattenFullLength(bs, k - 1);
      assert bs[..k] == bs[..k - 1] + [bs[k - 1]];
      FlattenSnoc(bs[..k - 1], bs[k - 1]);
    }
  }

  /** k blocks of one element each hold k elements. */
  lemma {:induction false} FlattenSinglesLength<T>(bs: seq<seq<T>>, k: nat)
    requires k <= |bs| && forall a :: 0 <= a < k ==> |bs[a]| == 1
    ensures |Flatten(bs[..k])| == k
  {
    if k > 0 {
      FlattenSinglesLength(bs, k - 1);
      assert bs[..k] == bs[..k - 1] + [bs[k - 1]];
      FlattenSnoc(bs[..k - 1], bs[k - 1]);
    }
  }

  /** Element b of block a sits in the contents after everything in the blocks before a. */
  lemma FlattenAt<T>(bs: seq<seq<T>>, a: nat, b: nat)
    requires a < |bs| && b < |bs[a]|
    ensures |Flatten(bs[..a])| + b < |Flatten(bs)|
    ensures Flatten(bs)[|Flatten(bs[..a])| + b] == bs[a][b]
  {
    assert bs == bs[..a] + [bs[a]] + bs[a + 1..];
    FlattenAppend(bs[..a] + [bs[a]], bs[a + 1..]);
    FlattenSnoc(bs[..a], bs[a]);
  }

  /** Appending to the last occupied block appends to the contents. */
  lemma FlattenPush<T>(bs: seq<seq<T>>, k: nat, v: T)
    requires k < |bs| && EmptyFrom(bs, k + 1)
    ensures Flatten(bs[k := bs[k] + [v]]) == Flatten(bs) + [v]
  {
    var cs := bs[k := bs[k] + [v]];
    FlattenTrim(bs, k + 1);
    FlattenTrim(cs, k + 1);
    assert bs[..k + 1] == bs[..k] + [bs[k]];
    assert cs[..k + 1] == bs[..k] + [bs[k] + [v]];
    FlattenSnoc(bs[..k], bs[k]);
    FlattenSnoc(bs[..k], bs[k] + [v]);
  }

  /**
   * Dropping the last element of the last occupied block drops the last
   * element of the contents, which is that block's last element.
   */
  lemma FlattenPop<T>(bs: seq<seq<T>>, k: nat)
    requires k < |bs| && |bs[k]| > 0 && EmptyFrom(bs, k + 1)
    ensures var all := Flatten(bs);
      && |all| > 0 && all[|all| - 1] == bs[k][|bs[k]| - 1]
      && Flatten(bs[k := bs[k][..|bs[k]| - 1]]) == all[..|all| - 1]
  {
    var front := bs[k][..|bs[k]| - 1];
    var last := bs[k][|bs[k]| - 1];
    assert bs[k] == front + [last];
    var cs := bs[k := front];
    assert EmptyFrom(cs, k + 1);
    FlattenPush(cs, k, last);
    assert cs[k := cs[k] + [last]] == bs;
  }

  /** Passing every element of every block through f maps the contents. */
  lemma {:induction false} FlattenMap<T>(bs: seq<seq<T>>, f: T -> T)
    ensures Flatten(MapBlocks(bs, f)) == MapSeq(Flatten(bs), f)
    decreases |bs|
  {
    if |bs| > 0 {
      FlattenMap(bs[1..], f);
      assert MapBlocks(bs, f)[1..] == MapBlocks(bs[1..], f);
      assert MapSeq(Flatten(bs), f) == MapSeq(bs[0], f) + MapSeq(Flatten(bs[1..]), f);
    }
  }

  /**
   * In a Shaped index the contents are the elements before block d-1 and
   * `last` more, and the slot (a, b) of logical index i below that length
   * is present in the index and holds element i of the contents.
   */
  lemma ShapedSlot<T>(bs: seq<seq<T>>, d: nat, last: nat, i: nat, r: (nat, nat))
    requires Shaped(bs, d, last) && last <= Cap(d - 1)
    requires r.1 < Cap(r.0) && Start(r.0) + r.1 == i && i < Start(d - 1) + last
    ensures |Flatten(bs)| == Start(d - 1) + last
    ensures r.0 < d && r.1 < |bs[r.0]| && Flatten(bs)[i] == bs[r.0][r.1]
  {
    ShapedLength(bs, d, last);
    if r.0 >= d {
      StartMonotone(d - 1, r.0);
    }
    assert FullBefore(bs, r.0);
    FlattenFullLength(bs, r.0);
    FlattenAt(bs, r.0, r.1);
  }

  lemma ShapedLength<T>(bs: seq<seq<T>>, d: nat, last: nat)
    requires Shaped(bs, d, last)
    ensures |Flatten(bs)| == Start(d - 1) + last
  {
    FlattenTrim(bs, d);
    assert bs[..d] == bs[..d - 1] + [bs[d - 1]];
    FlattenSnoc(bs[..d - 1], bs[d - 1]);
    FlattenFullLength(bs, d - 1);
  }

  /**
   * In a Singles index with d blocks, logical index i < d lies in block
   * a <= i, which is present in the index; the slot holds an element
   * exactly when its offset is 0, and then it is element a of the contents.
   */
  lemma SinglesSlot<T>(bs: seq<seq<T>>, d: nat, i: nat, r: (nat, nat))
    requires Singles(bs, d) && r.1 < Cap(r.0) && Start(r.0) + r.1 == i && i < d
    ensures |Flatten(bs)| == d && r.0 < d && r.0 < |bs|
    ensures r.1 < |bs[r.0]| <==> r.1 == 0
    ensures r.1 == 0 ==> Flatten(bs)[r.0] == bs[r.0][0]
  {
    StartAtLeast(r.0);
    FlattenTrim(bs, d);
    FlattenSinglesLength(bs, d);
    FlattenSinglesLength(bs, r.0);
    FlattenAt(bs, r.0, 0);
  }
}
