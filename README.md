# BCDMS array in Dafny

A model of `BcdmsArray<T>` from the crate `succinct-vec` (`src/lib.rs`). The
type is the resizable array of Brodnik, Carlsson, Demaine, Munro and
Sedgewick. Elements live in a list of data blocks. The blocks are grouped
into superblocks: superblock `j` has `2^floor(j/2)` blocks of `2^ceil(j/2)`
slots each. Eight counters describe the last block and the last superblock
in use: `n`, `d`, `s`, `has_empty_data`, `len_last_data`, `cap_last_data`,
`len_last_super` and `cap_last_super`. The closed-form function `locate`
maps a logical index to a (block, offset) pair.

The model has these modules:

- `Layout` (layout.dfy): the reference block layout. `SuperBlocks`,
  `BlockSize`, `BlocksBefore`, `Cap` (capacity of block `a`) and `Start`
  (logical index of the first slot of block `a`).
- `Addressing` (addressing.dfy): `locate` written over `nat`. Shifts are
  halvings and masks are remainders. It is proved to agree with the layout.
- `Blocks` (blocks.dfy): the contents of the block list, which are the
  blocks concatenated (`Flatten`, the order of `iter`), and the shapes the
  block list keeps.
- `Bookkeeping` (bookkeeping.dfy): the counters as a `Counters` value and
  the updates made by `grow` and `shrink` (`Grown`, `Shrunk`). `InLayout` is
  the invariant that ties the counters to the layout.
- `Steps` (steps.dfy): what `push`, `pop` and `read` do to the block list.
  It also defines the two shapes reachable from `new`: `Healthy` (never
  popped down to no element) and `Drained` (popped down to no element at
  least once).
- `Bcdms` (bcdms.dfy): the class `BcdmsArray`. Its fields are those of the
  struct. Its methods `Grow`, `Shrink`, `Push`, `Pop` and `IterMut` update
  them in place, as the source does. Each method is proved against the
  functions of `Bookkeeping` and `Steps`.
- `Scenarios` (scenarios.dfy): sequences of calls on one array. They cover
  the crate's test and the two defects listed under Findings.
- `Repaired` (repaired.dfy): `shrink` with both defects corrected, the
  invariant `Kept` it preserves, and push, pop and read proved under that
  invariant.

The comment at src/lib.rs:13 says there are at most two empty blocks, and
the comment at src/lib.rs:103 says the other empty block sits at the last
position (`DB[d]`); both take for granted that `shrink` keeps an emptied
block as the spare. The code never sets the flag, and the model follows the
code.

## Model

| member | source | states |
|---|---|---|
| Layout.Log2 | src/lib.rs:140 | `k` is the position of the leading one bit of `m`: `2^k <= m < 2^(k+1)` |
| Layout.SuperblockElements | src/lib.rs:149 | superblock `j` holds `2^floor(j/2) * 2^ceil(j/2) = 2^j` elements |
| Layout.NextSuperblock | src/lib.rs:66-71 | from superblock `j` to `j+1`, the block count doubles when `j` is odd and the block size doubles when `j` is even |
| Layout.OpenSuperblock | src/lib.rs:66-71 | opening superblock number `s+1` doubles the block count when `s+1` is odd and the block size otherwise, as `grow` does |
| Layout.SuperOfBounds | src/lib.rs:149-153 | `SuperOf(a)` is the superblock containing block `a`: `BlocksBefore(SuperOf(a)) <= a < BlocksBefore(SuperOf(a)+1)` |
| Layout.SuperOfUnique | src/lib.rs:149-153 | a block lies in exactly one superblock |
| Layout.CapInSuperblock | src/lib.rs:17 | every block of superblock `j` has that superblock's block size |
| Layout.StartInSuperblock | src/lib.rs:138-147 | block `c` of superblock `j` starts at index `2^j - 1 + c * BlockSize(j)` |
| Layout.StartOfSuperblock | src/lib.rs:138-140 | superblock `j` starts at logical index `2^j - 1`, so index `i` lies in superblock `floor(log2(i+1))` |
| Layout.StartMonotone | src/lib.rs:137-157 | blocks do not overlap: a later block starts at or after the end of an earlier one |
| Layout.StartAtLeast | src/lib.rs:137-157 | block `a` starts at index `a` or later |
| Addressing.ShrLow | src/lib.rs:144-147 | `x == (x >> l) * 2^l + (x & (2^l - 1))`, and the masked part is below `2^l` |
| Addressing.Shr | src/lib.rs:144 | `x >> l` is `x` divided by `2^l`, rounded down: `r * 2^l <= x < (r+1) * 2^l` |
| Addressing.Low | src/lib.rs:147 | `x & (2^l - 1)` is below `2^l` |
| Addressing.ShrBelow | src/lib.rs:144 | shifting a number below `2^(z+l)` right by `l` bits gives a number below `2^z` |
| Addressing.BlocksBeforeClosed | src/lib.rs:149-153 | superblocks before `2t` hold `2*2^t - 2` blocks, and those before `2t+1` hold `3*2^t - 2` |
| Addressing.FirstBlockFormula | src/lib.rs:149-153 | `p = 2(2^l - 1) - (k mod 2) * 2^l / 2` is the number of blocks in superblocks `0..k-1`, as the comment at line 149 says |
| Addressing.SlotOf | src/lib.rs:137-157 | for `m = i+1` with leading bit `k`: `b` is below the block count of superblock `k`, `e` is below its block size, and slot `(p+b, e)` holds index `i` |
| Addressing.Locate | src/lib.rs:137-157 | the result is a slot of the layout: the offset is below the block's capacity, and the block's first index plus the offset is `i` |
| Addressing.LocateAt | src/lib.rs:137-157 | every slot `(a, b)` of the layout is what `locate` returns for `Start(a) + b`, so `locate` inverts slot numbering |
| Addressing.SlotsDistinct | src/lib.rs:137-157 | two slots with the same logical index are the same slot |
| Addressing.LocateFirst | src/lib.rs:137-157 | `locate(0) == (0, 0)` |
| Addressing.LocateNext | src/lib.rs:137-157 | `locate(i+1)` is the next slot of the same block, or slot 0 of the next block when the block of `locate(i)` is full |
| Addressing.LocateInSuperblock | src/lib.rs:140-147 | the block of `locate(i)` lies in superblock `floor(log2(i+1))`, and the offset is below `2^ceil(k/2)` |
| Blocks.MapBlocks | src/lib.rs:163-165 | as many blocks as before, each block mapped element by element |
| Blocks.Flatten | src/lib.rs:159-161 | the contents are the blocks' elements, block by block; its properties are the `Flatten` lemmas below |
| Blocks.FlattenAppend | src/lib.rs:159-161 | the contents of two block lists joined are their contents joined |
| Blocks.FlattenNothing | src/lib.rs:159-161 | a list of empty blocks has no contents |
| Blocks.FlattenTrim | src/lib.rs:159-161 | trailing empty blocks do not change the contents |
| Blocks.FlattenFullLength | src/lib.rs:149-153 | `k` full blocks hold `Start(k)` elements |
| Blocks.FlattenAt | src/lib.rs:53-58 | element `b` of block `a` sits at position (elements before block `a`) + `b` of the contents |
| Blocks.FlattenPush | src/lib.rs:46 | appending `v` to block `k`, with only empty blocks after it, appends `v` to the contents |
| Blocks.FlattenPop | src/lib.rs:99 | removing the last element of block `k`, with only empty blocks after it, removes the last element of the contents |
| Blocks.FlattenMap | src/lib.rs:163-165 | mapping every block maps the contents element by element, in the same order |
| Blocks.ShapedLength | src/lib.rs:6-16 | an index shaped after `d` and `len_last_data` holds `Start(d-1) + len_last_data` elements |
| Blocks.ShapedSlot | src/lib.rs:53-58 | in a shaped index, the slot of the layout for `i < n` exists and holds element `i` of the contents |
| Blocks.SinglesSlot | src/lib.rs:53-58 | in an index of one-element blocks, slot `(a, b)` exists exactly when `b == 0` |
| Bookkeeping.Fresh | src/lib.rs:25-37 | `new` holds no element and one data block, with no spare, and that block has room, so the first push opens no block |
| Bookkeeping.Grown | src/lib.rs:61-89 | grow counts one more element, opens a block exactly when the last block is full, and clears the spare flag when it opens one |
| Bookkeeping.GrownCases | src/lib.rs:65-88 | the counters after grow in each of its three cases: filling the last block, opening a block, opening a superblock with the doubled capacity |
| Bookkeeping.Shrunk | src/lib.rs:92-135 | shrink of an empty array changes nothing; otherwise it uncounts one element and retires the last block exactly when that block held one element; it never changes the spare flag |
| Bookkeeping.ShrunkCases | src/lib.rs:97-130 | the counters after shrink in each of its three cases: within the last block, retiring a block, retiring a superblock with the halved capacities |
| Bookkeeping.LastBlockCap | src/lib.rs:17 | under `InLayout`, `cap_last_data` is the capacity of block `d-1` |
| Bookkeeping.EmptyInLayout | src/lib.rs:25-37 | the only counters in the layout with no element are those `new` sets, up to the spare flag |
| Bookkeeping.GrowKeepsLayout | src/lib.rs:61-89 | `grow` keeps the counters in the layout and counts one more element; it opens a block exactly when the last block is full, and the spare flag survives only when no block is opened |
| Bookkeeping.GrowWithin | src/lib.rs:87-88 | when the last block has room, grow fills it and changes no other counter |
| Bookkeeping.GrowNewBlock | src/lib.rs:75-84 | when the last block is full and the superblock has room, grow opens the next block of the same superblock |
| Bookkeeping.GrowNewSuperblock | src/lib.rs:63-84 | when the last block and superblock are full, grow opens a superblock with the doubled capacity and the first block in it |
| Bookkeeping.ShrinkKeepsLayout | src/lib.rs:92-135 | with two or more elements, `shrink` keeps the counters in the layout and uncounts one element; when the last block empties, `d` drops by one and the new last block is full |
| Bookkeeping.ShrinkWithin | src/lib.rs:97-98 | when the last block keeps an element, only `n` and `len_last_data` go down |
| Bookkeeping.ShrinkRetireBlock | src/lib.rs:102-130 | when the last block empties inside its superblock, the previous block becomes the last, full |
| Bookkeeping.ShrinkRetireSuperblock | src/lib.rs:118-128 | when the last superblock empties, the previous superblock's capacities come back by halving |
| Bookkeeping.ShrinkDrains | src/lib.rs:115-128 | popping the only element of a never-emptied array leaves `d == 0`, `s == 0` and `cap_last_super == 0` |
| Bookkeeping.OneElementOpens | src/lib.rs:63 | with one element the last block is full, so the next push opens a block |
| Bookkeeping.GrowShrinkFresh | src/lib.rs:121-122 | from `new`, a push then a pop set `cap_last_super` to `1 / 2 = 0` |
| Bookkeeping.ShrinkGrowSingle | src/lib.rs:68 | after that pop, the next grow doubles 0 and leaves `cap_last_super == 0` |
| Bookkeeping.GrowKeepsDrained | src/lib.rs:61-89 | from drained counters every push opens another block of size 1, and the counters stay drained |
| Bookkeeping.ShrinkKeepsDrained | src/lib.rs:92-135 | a pop keeps drained counters drained, with one block per element |
| Bookkeeping.ShrinkUndoesGrow | src/lib.rs:61-135 | shrink after grow restores every counter when the last block holds an element, there is no spare for grow to reuse when it opens a block, a block is in use unless grow opens one, and a block grow opens inside the last superblock is not that superblock's first |
| Bookkeeping.GrowThenShrink | src/lib.rs:61-135 | a push then a pop restore every counter exactly when the array is not a new, empty one |
| Bookkeeping.GrowUndoesShrink | src/lib.rs:61-135 | grow after shrink restores every counter when the halving in shrink was exact |
| Bookkeeping.ShrinkThenGrow | src/lib.rs:61-135 | in the layout, a pop then a push restore every counter exactly when there are at least two elements |
| Bookkeeping.ShrinkThenGrowSingle | src/lib.rs:115-128 | with one element, a pop then a push do not restore the counters |
| Bookkeeping.EvenCapacities | src/lib.rs:121-124 | the capacity that shrink halves is even, so the halving is exact |
| Steps.Front | src/lib.rs:99 | `Vec::pop` keeps a prefix one element shorter, or the empty list |
| Steps.LastOf | src/lib.rs:99 | `Vec::pop` returns nothing exactly for an empty list, and otherwise the last element |
| Steps.GrownIndex | src/lib.rs:75-80 | grow appends one empty block exactly when it opens a block and keeps no spare |
| Steps.PushedIndex | src/lib.rs:44-47 | push appends `v` to block `d-1` of the grown counters and leaves every other block alone |
| Steps.ShrunkIndex | src/lib.rs:92-111 | shrink leaves an empty array alone; otherwise it shortens block `d-1` and drops the spare only when that block empties |
| Steps.Popped | src/lib.rs:93-99 | pop returns nothing from an empty array, and otherwise the last element of block `d-1` |
| Steps.ReadAt | src/lib.rs:53-59 | `read(i)` gives nothing exactly when `i >= n` |
| Steps.FreshHealthy | src/lib.rs:25-37 | the array `new` builds is healthy and has no contents |
| Steps.ReachableLength | src/lib.rs:6 | in every reachable state the contents hold `n` elements |
| Steps.HealthyLength | src/lib.rs:6 | in a healthy state the contents hold `n` elements |
| Steps.PushHealthy | src/lib.rs:44-47 | push keeps a healthy array healthy and appends `v` to the contents |
| Steps.PushOpening | src/lib.rs:75-84 | push into a full last block opens a new block whose only element is `v` |
| Steps.PushDrained | src/lib.rs:44-47 | push keeps a drained array drained and appends `v` to the contents |
| Steps.PushKeepsReachable | src/lib.rs:44-47 | push can always write to its block, keeps the array reachable, and appends `v` to the contents |
| Steps.PopEmpty | src/lib.rs:93-95 | pop on an empty array returns nothing and changes neither the index nor any counter |
| Steps.PopHealthy | src/lib.rs:92-135 | with two or more elements, pop keeps a healthy array healthy, returns the last element and removes it |
| Steps.PopLast | src/lib.rs:115-128 | popping the only element of a healthy array returns it and leaves the array drained |
| Steps.PopDrained | src/lib.rs:92-135 | pop keeps a drained array drained, returns the last element and removes it |
| Steps.PopKeepsReachable | src/lib.rs:92-135 | pop keeps the array reachable: from an empty array it changes nothing, otherwise it returns the last element and removes it; the shape stays healthy except when the only element is popped |
| Steps.ReadHealthy | src/lib.rs:53-59 | in a healthy array, `read(i)` for `i < n` finds element `i` of the contents |
| Steps.ReadDrained | src/lib.rs:53-59 | in a drained array, `read(i)` finds an element only when `locate(i)` has offset 0, and otherwise indexes past the end of a block |
| Steps.MapKeepsReachable | src/lib.rs:163-165 | updating elements in place keeps the shape and maps the contents in order |
| Steps.PushThenPop | src/lib.rs:44-51 | from a non-empty reachable array, push then pop restore every counter, return the pushed value, and leave the index as grow left it |
| Steps.PushPopIndex | src/lib.rs:44-51 | pop after push returns `v` and takes the index back to what grow produced |
| Bcdms.BcdmsArray.constructor | src/lib.rs:25-37 | a new array: one empty block, the counters of `Fresh`, healthy, with no element |
| Bcdms.BcdmsArray.Iter | src/lib.rs:159-161 | the blocks concatenated, with `n` elements in every reachable state |
| Bcdms.BcdmsArray.Read | src/lib.rs:53-59 | nothing exactly when `i >= n`; in a healthy array, element `i` of the iteration order |
| Bcdms.BcdmsArray.Grow | src/lib.rs:61-89 | the new counters are `Grown` of the old, and the index gains an empty block exactly when grow opens one without a spare |
| Bcdms.BcdmsArray.Shrink | src/lib.rs:92-135 | the new counters are `Shrunk` of the old, the index is `ShrunkIndex` of the old, and the result is `Popped`; the `assert!` on the dropped spare holds |
| Bcdms.BcdmsArray.Push | src/lib.rs:44-47 | counts one more element, appends `v` to the iteration order, and keeps the array healthy, drained or reachable |
| Bcdms.BcdmsArray.Pop | src/lib.rs:49-51 | from an empty array it returns nothing and changes nothing; otherwise it returns the last element in iteration order and removes it; popping the only element drains the array |
| Bcdms.BcdmsArray.IterMut | src/lib.rs:163-165 | every element passes through `f` in place; order, counters and shape are unchanged |
| Bcdms.LengthOfReachable | src/lib.rs:6 | a reachable array's contents hold `n` elements |
| Bcdms.ReadOfHealthy | src/lib.rs:53-59 | in a healthy array a read below the count finds the element at that position |
| Scenarios.FromPushes | src/lib.rs:44-59 | pushing `xs` into a new array gives an array whose iteration is `xs` and where `read(j)` finds `xs[j]` |
| Scenarios.PushAndRead | tests/basic.rs:5-8 | pushing `0..k-1`, each read back right after its push, gives reads `0..k-1` |
| Scenarios.PopAll | tests/basic.rs:18-20 | popping an array holding `1..k` gives `k` down to `1` |
| Scenarios.PushIterPop | tests/basic.rs:1-23 | the crate's test: reads `0..9`, iteration `1..10` after the in-place increment, pops `10` down to `1`, then nothing |
| Scenarios.PushPopCycles | src/lib.rs:75-111 | after one push, `k` rounds of push and pop leave `k` more blocks in the index, against the "at most two" of line 13 |
| Scenarios.Drain | src/lib.rs:115-128 | pushing one element into a new array and popping it leaves a drained array |
| Scenarios.Refill | src/lib.rs:61-89 | pushes keep a drained array drained |
| Scenarios.DrainThenRefill | src/lib.rs:53-59 | push 7, pop, push 1, 2, 3: `read(2)` indexes past the end of block 1 |
| Scenarios.KeptCycles | src/lib.rs:13 | with the corrected shrink, any number of push and pop rounds leaves at most two blocks |
| Scenarios.KeptDrainThenRefill | src/lib.rs:53-59 | with the corrected shrink, the same calls give `read(2) == 3` |
| Repaired.FixedShrunk | src/lib.rs:101-132 | the corrected shrink uncounts one element, never retires the last block in use, and marks a retired block as the spare |
| Repaired.Kept | src/lib.rs:13 | under the corrected invariant there is at most one block beyond the `d` blocks in use, and at least one block is in use |
| Repaired.FixedShrinkSingle | src/lib.rs:115-130 | the corrected shrink of the only element keeps block 0 in use, with no element, in the layout |
| Repaired.FixedShrinkMany | src/lib.rs:101-132 | with two or more elements, the corrected shrink is the source's shrink with the spare flag set when a block is retired, and it keeps the layout |
| Repaired.FixedSingle | src/lib.rs:25-37 | the corrected shrink of the only element gives back the counters of `new` |
| Repaired.FreshKept | src/lib.rs:25-37 | a new array satisfies the corrected invariant |
| Repaired.KeptLength | src/lib.rs:6 | under the corrected invariant the contents hold `n` elements |
| Repaired.KeptBounded | src/lib.rs:13 | under the corrected invariant the index holds at most `n + 1` blocks (two when there is no element) |
| Repaired.PushKept | src/lib.rs:44-47 | the unchanged push keeps the corrected invariant and appends `v` |
| Repaired.PushReusing | src/lib.rs:75-80 | when the spare is present, push reuses it, so the index length is unchanged |
| Repaired.PopKept | src/lib.rs:92-135 | the corrected pop keeps the corrected invariant, returns the last element and removes it, and changes nothing in an empty array |
| Repaired.PopRetiring | src/lib.rs:102-111 | when the popped element was the last of its block, the old spare is dropped and that block becomes the one spare |
| Repaired.ReadKept | src/lib.rs:53-59 | under the corrected invariant, `read(i)` for `i < n` finds element `i` of the contents in every state |
| Repaired.Shrink | src/lib.rs:92-135 | the corrected shrink, updating the array in place: the counters become `FixedShrunk` of the old, and the index and result are those of the source's shrink |
| Repaired.Push | src/lib.rs:44-47 | push on an array under the corrected invariant keeps it and appends `v` to the iteration order |
| Repaired.Pop | src/lib.rs:49-51 | pop with the corrected shrink keeps the corrected invariant; it returns the last element and removes it, or returns nothing and changes nothing in an empty array |

## Left out

- `src/main.rs` is a demo program that prints, and `benches/vec_compare.rs` only measures time. Neither is part of this model.
- The capacity hints of `Vec::with_capacity` (src/lib.rs:27, 77) are left out: blocks are sequences, and the intended capacity is tracked by `cap_last_data` and `Cap`.
- `iter` and `into_iter` (src/lib.rs:39-42, 159-161, 168-181) are modelled only by the sequence they yield (`Iter`, the blocks concatenated). `into_iter` yields the same sequence and has no member of its own. Laziness, borrowing and ownership transfer are left out.
- Bcdms.BcdmsArray.IterMut: the mutable references of `iter_mut` (src/lib.rs:163-165) are modelled as one function `f` applied to every element in place. A loop body that treats elements differently by position is not covered.
- `usize` is modelled as `nat`. The overflow of `index + 1` at `usize::MAX` and the word size in `leading_zeros` (src/lib.rs:138-140) are left out, and `Log2` stands for the leading-bit position.
- Unsigned underflow in `shrink` is excluded by the precondition `ShrinkSafe`. Every reachable state meets it, as `Pop` proves.
- Bcdms.BcdmsArray.Shrink: the `assert!` on the dropped spare (src/lib.rs:106-110) is a precondition (`SpareIsEmpty`) and a Dafny `assert`, not a panic. `Pop` proves the precondition in every reachable state.
- A read whose slot is missing from the index panics in Rust. It is modelled as the result `OutOfBounds`.
- `Default`, the `Index` operator, `len`, `capacity`, `insert` and `remove` are not in `src/lib.rs`. The test's `a[i]` is modelled by `Read` and `default()` by the constructor.
- The derived `Debug` and `Clone` (src/lib.rs:1) are left out.
- The O(√n) bound on wasted space is not a functional property and is left out.
- Bcdms.BcdmsArray.Read: the contract promises the element found only for healthy arrays. For drained arrays, `Steps.ReadDrained` states what the read returns, including the out-of-bounds case.

## Findings

| source | as written | input that shows it | evidently intended | confidence | as-written member | corrected member |
|---|---|---|---|---|---|---|
| src/lib.rs:101-132 | `shrink` never sets `has_empty_data`. A block it empties stays in the index, uncounted, and the next `grow` appends another block | `new`, push 7, then `k` rounds of push 8 and pop: the index grows by one block per round | the emptied block is kept as the one spare and reused by the next `grow` (at most one spare, line 13) | high, not executed | Scenarios.PushPopCycles | Scenarios.KeptCycles |
| src/lib.rs:115-128 | popping the only element retires block 0 and superblock 0. `s` becomes 0 and `cap_last_super` becomes `1 / 2 = 0`, so later grows never open a superblock and every block has size 1 | `new`, push 7, pop, push 1, 2, 3, `read(2)`: `locate(2) = (1, 1)`, but block 1 holds one element, so the read indexes out of bounds | block 0 stays in use and the counters return to those of `new` | high, not executed | Scenarios.DrainThenRefill | Scenarios.KeptDrainThenRefill |
