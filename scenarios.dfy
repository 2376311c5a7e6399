/**
 * Sequences of operations on a BCDMS array from a new array: filling it by
 * pushes, the push / iter_mut / pop round of the crate's test, repeated
 * push and pop, and a pop down to no element followed by pushes and a read;
 * the last two also with the corrected shrink of module Repaired.
 */
module Scenarios {
  import opened Addressing
  import opened Blocks
  import opened Bookkeeping
  import opened Steps
  import opened Bcdms
  import Repaired

  /** 0, 1, ..., k-1. */
  function Upto(k: nat): (r: seq<int>)
    ensures |r| == k && forall j :: 0 <= j < k ==> r[j] == j
  {
    if k == 0 then [] else Upto(k - 1) + [k - 1]
  }

  /** 1, 2, ..., k. */
  function Successors(k: nat): (r: seq<int>)
    ensures |r| == k && forall j :: 0 <= j < k ==> r[j] == j + 1
  {
    if k == 0 then [] else Successors(k - 1) + [k]
  }

  /** j empty blocks. */
  function Blanks<T>(j: nat): (r: seq<seq<T>>)
    ensures |r| == j && forall a :: 0 <= a < j ==> r[a] == []
  {
    if j == 0 then [] else Blanks(j - 1) + [[]]
  }

  /** The prefix of length i+1 is the prefix of length i and element i. */
  lemma PrefixGrows<T>(xs: seq<T>, i: nat)
    requires i < |xs|
    ensures xs[..i + 1] == xs[..i] + [xs[i]]
  {
  }

  /** Adding 1 to each of 0..k-1 gives 1..k. */
  lemma IncrementUpto(k: nat, f: int -> int)
    requires forall x :: f(x) == x + 1
    ensures MapSeq(Upto(k), f) == Successors(k)
  {
  }

  /** Dropping the last of 1..k+1 gives 1..k. */
  lemma SuccessorsFront(k: nat)
    ensures Successors(k + 1)[..k] == Successors(k)
  {
  }

  /** A read of value i appended to reads of 0..i-1 gives reads of 0..i. */
  lemma ReadsGrow(found: seq<Lookup<int>>, i: nat, r: Lookup<int>)
    requires |found| == i && forall j :: 0 <= j < i ==> found[j] == Found(j)
    requires r == Found(i)
    ensures |found + [r]| == i + 1 && forall j :: 0 <= j < i + 1 ==> (found + [r])[j] == Found(j)
  {
  }

  /** A pop of k-i appended to pops of k down to k-i+1 gives pops of k down to k-i. */
  lemma PopsGrow(popped: seq<int>, k: nat, i: nat, x: int)
    requires |popped| == i && forall j :: 0 <= j < i ==> popped[j] == k - j
    requires x == k - i
    ensures |popped + [x]| == i + 1 && forall j :: 0 <= j < i + 1 ==> (popped + [x])[j] == k - j
  {
  }

  /** One more empty block at the end. */
  lemma BlanksGrow<T>(bs: seq<seq<T>>, j: nat)
    ensures bs + Blanks(j) + [[]] == bs + Blanks(j + 1)
  {
  }

  /**
   * A new array, known through its invariant only: healthy, with no
   * element.
   */
  method Empty<T>() returns (a: BcdmsArray<T>)
    ensures fresh(a) && a.Valid() && Healthy(a.index, a.Snapshot()) && a.n == 0
  {
    a := new BcdmsArray();
  }

  /**
   * Pushing xs one by one into a new array gives an array that holds xs in
   * order, and reading index j gives xs[j].
   */
  method FromPushes<T>(xs: seq<T>) returns (a: BcdmsArray<T>)
    ensures a.Valid() && Healthy(a.index, a.Snapshot())
    ensures a.n == |xs| && a.Iter() == xs
    ensures forall j :: 0 <= j < |xs| ==> a.Read(j) == Found(xs[j])
  {
    a := Empty();
    var i := 0;
    while i < |xs|
      invariant 0 <= i <= |xs| && fresh(a)
      invariant a.Valid() && Healthy(a.index, a.Snapshot())
      invariant a.n == i && a.Iter() == xs[..i]
    {
      a.Push(xs[i]);
      PrefixGrows(xs, i);
      i := i + 1;
    }
    assert xs[..i] == xs;
  }

  /**
   * Push 0..k-1 into a new array, reading each value back right after its
   * push: the reads give 0..k-1.
   */
  method PushAndRead(k: nat) returns (a: BcdmsArray<int>, found: seq<Lookup<int>>)
    ensures fresh(a) && a.Valid() && Healthy(a.index, a.Snapshot())
    ensures a.n == k && a.Iter() == Upto(k)
    ensures |found| == k && forall j :: 0 <= j < k ==> found[j] == Found(j)
  {
    a := Empty();
    found := [];
    var i := 0;
    while i < k
      invariant 0 <= i <= k && fresh(a)
      invariant a.Valid() && Healthy(a.index, a.Snapshot())
      invariant a.n == i && a.Iter() == Upto(i)
      invariant |found| == i && forall j :: 0 <= j < i ==> found[j] == Found(j)
    {
      a.Push(i);
      assert a.Iter() == Upto(i + 1);
      var r := a.Read(i);
      ReadsGrow(found, i, r);
      found := found + [r];
      i := i + 1;
    }
  }

  /** Pop k times from an array holding 1..k: the pops give k down to 1. */
  method PopAll(a: BcdmsArray<int>, k: nat) returns (popped: seq<int>)
    requires a.Valid() && a.n == k && a.Iter() == Successors(k)
    modifies a
    ensures a.Valid() && a.n == 0
    ensures |popped| == k && forall j :: 0 <= j < k ==> popped[j] == k - j
  {
    popped := [];
    var i := 0;
    while i < k
      invariant 0 <= i <= k
      invariant a.Valid() && a.n == k - i && a.Iter() == Successors(k - i)
      invariant |popped| == i && forall j :: 0 <= j < i ==> popped[j] == k - j
    {
      SuccessorsFront(k - i - 1);
      var r := a.Pop();
      PopsGrow(popped, k, i, r.value);
      popped := popped + [r.value];
      i := i + 1;
    }
  }

  /**
   * The crate's test: push 0..9, reading each value back right after its
   * push; add 1 to every element in place; iterate; pop ten times; pop once
   * more. The reads give 0..9, the iteration 1..10, the pops 10 down to 1,
   * and the last pop nothing.
   */
  method PushIterPop() returns (found: seq<Lookup<int>>, seen: seq<int>, popped: seq<int>, last: Option<int>)
    ensures |found| == 10 && forall j :: 0 <= j < 10 ==> found[j] == Found(j)
    ensures seen == Successors(10)
    ensures |popped| == 10 && forall j :: 0 <= j < 10 ==> popped[j] == 10 - j
    ensures last == None
  {
    var a;
    a, found := PushAndRead(10);
    var inc := x => x + 1;
    a.IterMut(inc);
    IncrementUpto(10, inc);
    seen := a.Iter();
    popped := PopAll(a, 10);
    last := a.Pop();
  }

  /**
   * After one element is pushed into a new array, k rounds of push and pop
   * each leave one more empty block at the end of the index: nothing marks
   * the emptied block as spare, so the next push opens another one.
   */
  method PushPopCycles(k: nat) returns (a: BcdmsArray<int>, start: nat)
    ensures a.Valid() && Healthy(a.index, a.Snapshot())
    ensures a.n == 1 && a.Iter() == [7]
    ensures start >= 1 && |a.index| == start + k
  {
    a := Empty();
    a.Push(7);
    ghost var bs, c := a.index, a.Snapshot();
    start := |a.index|;
    OneElementOpens(c);
    assert bs + Blanks(0) == bs;
    var i := 0;
    while i < k
      invariant 0 <= i <= k && fresh(a)
      invariant a.Valid() && Healthy(a.index, a.Snapshot())
      invariant a.Snapshot() == c && a.index == bs + Blanks(i) && a.Iter() == [7]
    {
      PushThenPop(a.index, c, 8);
      BlanksGrow(bs, i);
      a.Push(8);
      var x := a.Pop();
      i := i + 1;
    }
  }

  /** Push one element into a new array and pop it: the array is drained, with no element. */
  method Drain() returns (a: BcdmsArray<int>)
    ensures fresh(a) && a.Valid() && Drained(a.index, a.Snapshot()) && a.n == 0
  {
    a := Empty();
    a.Push(7);
    var x := a.Pop();
  }

  /** Pushes into a drained array keep it drained: one element per block. */
  method Refill(a: BcdmsArray<int>, k: nat)
    requires a.Valid() && Drained(a.index, a.Snapshot()) && a.n == 0
    modifies a
    ensures a.Valid() && Drained(a.index, a.Snapshot()) && a.n == k
  {
    var i := 0;
    while i < k
      invariant 0 <= i <= k
      invariant a.Valid() && Drained(a.index, a.Snapshot()) && a.n == i
    {
      a.Push(i + 1);
      i := i + 1;
    }
  }

  /**
   * Pop the only element, then push three: the read of index 2 looks for
   * the second slot of block 1, but every block now holds one element, so
   * the read indexes past the end of block 1.
   */
  method DrainThenRefill() returns (r: Lookup<int>)
    ensures r == OutOfBounds
  {
    var a := Drain();
    Refill(a, 3);
    LocateAt(2, 1, 1);
    ReadDrained(a.index, a.Snapshot(), 2, (1, 1));
    r := a.Read(2);
  }

  /** A new array, known through the corrected invariant only. */
  method EmptyKept<T>() returns (a: BcdmsArray<T>)
    ensures fresh(a) && Repaired.Kept(a.index, a.Snapshot()) && a.n == 0 && a.Iter() == []
  {
    a := new BcdmsArray();
    Repaired.FreshKept(a.index, a.Snapshot());
  }

  /**
   * The rounds of PushPopCycles with the corrected shrink: however many
   * rounds, the index holds at most two blocks.
   */
  method KeptCycles(k: nat) returns (a: BcdmsArray<int>)
    ensures Repaired.Kept(a.index, a.Snapshot())
    ensures a.n == 1 && a.Iter() == [7] && |a.index| <= 2
  {
    a := EmptyKept();
    Repaired.Push(a, 7);
    var i := 0;
    while i < k
      invariant 0 <= i <= k && fresh(a)
      invariant Repaired.Kept(a.index, a.Snapshot()) && a.n == 1 && a.Iter() == [7]
    {
      Repaired.Push(a, 8);
      var x := Repaired.Pop(a);
      i := i + 1;
    }
    Repaired.KeptBounded(a.index, a.Snapshot());
  }

  /**
   * DrainThenRefill with the corrected shrink: the read of index 2 finds
   * the third element pushed.
   */
  method KeptDrainThenRefill() returns (r: Lookup<int>)
    ensures r == Found(3)
  {
    var a := EmptyKept();
    Repaired.Push(a, 7);
    var x := Repaired.Pop(a);
    Repaired.Push(a, 1);
    Repaired.Push(a, 2);
    Repaired.Push(a, 3);
    Repaired.ReadKept(a.index, a.Snapshot(), 2);
    r := a.Read(2);
  }
}
