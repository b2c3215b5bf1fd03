/** Work split among what a launch runs, none lost or doubled: items over threads, warps or blocks
    (src/patos/cuda/backend/kernels.py:75-95, 213-216, src/patos/cuda/front/rewrite.py:215-228) and a
    copied range over a warp's lanes (src/patos/cuda/primitives/warp.py:247-269). */
module Partition {
  import opened Integers

  datatype Per = PerThread | PerWarp | PerBlock {
    /** The neighbouring threads that share an item. */
    function Lanes(threads: nat): nat {
      match this
      case PerThread => 1
      case PerWarp => 32
      case PerBlock => threads
    }

    /** Who a thread of the grid runs as, and how many such the grid holds. */
    function Index(thread: nat, threads: nat): nat
      requires threads > 0
    {
      match this
      case PerThread => thread
      case PerWarp => thread / 32
      case PerBlock => thread / threads
    }

    function Held(blocks: nat, threads: nat): nat {
      match this
      case PerThread => blocks * threads
      case PerWarp => blocks * threads / 32
      case PerBlock => blocks
    }

    /** Warps tile their blocks. */
    predicate Tiles(threads: nat) { threads > 0 && (PerWarp? ==> threads % 32 == 0) }
  }

  const STRIDED_BLOCKS: nat := 4096

  /** A quotient rounded up, as the floored division of the negative. */
  function Ceiling(n: int, d: int): int
    requires d > 0
  {
    -((-n) / d)
  }

  /** The blocks of a launch over `items`: as many as they fill, capped where the kernel strides. */
  function Grid(per: Per, items: nat, threads: nat, strided: bool): int
    requires threads > 0
  {
    var blocks := Ceiling(items * per.Lanes(threads), threads);
    if strided && blocks > STRIDED_BLOCKS then STRIDED_BLOCKS else blocks
  }

  lemma CeilingIsLeast(n: int, d: int)
    requires d > 0 && n >= 0
    ensures Ceiling(n, d) >= 0 && Ceiling(n, d) * d >= n && (Ceiling(n, d) - 1) * d < n
  {
    var q, r := (-n) / d, (-n) % d;
    assert -n == q * d + r;
    Differences(0, q, d);
    Differences(1, -q, d);
    if q > 0 { Positive(q, d); }
  }

  lemma Differences(a: int, b: int, c: int)
    ensures (b - a) * c == b * c - a * c
  {}

  lemma Positive(a: int, b: int)
    requires a > 0 && b > 0
    ensures a * b > 0
  {}

  lemma HeldLanes(per: Per, blocks: nat, threads: nat)
    requires per.Tiles(threads)
    ensures per.Held(blocks, threads) * per.Lanes(threads) == blocks * threads
  {
    if per.PerWarp? {
      var q := threads / 32;
      assert threads == 32 * q;
      assert blocks * threads == 32 * (blocks * q);
    }
  }

  lemma Cancels(a: int, b: int, c: int)
    requires c > 0 && a * c >= b * c
    ensures a >= b
  {
    Differences(a, b, c);
    if a < b { Positive(b - a, c); }
  }

  lemma CancelsStrictly(a: int, b: int, c: int)
    requires c > 0 && a * c > b * c
    ensures a > b
  {
    Differences(a, b, c);
    if a < b { Positive(b - a, c); }
  }

  /** Without striding the launch holds every item, in the fewest blocks that do; striding it holds
      every item or its cap, and at least one wherever there is an item. */
  lemma GridHoldsItems(per: Per, items: nat, threads: nat)
    requires per.Tiles(threads)
    ensures var blocks := Grid(per, items, threads, false);
      blocks >= 0 && per.Held(blocks, threads) >= items && (blocks - 1) * threads < items * per.Lanes(threads)
    ensures var blocks := Grid(per, items, threads, true);
      0 <= blocks <= STRIDED_BLOCKS && (items > 0 ==> per.Held(blocks, threads) > 0)
    ensures var whole, capped := Grid(per, items, threads, false), Grid(per, items, threads, true);
      capped == if whole < STRIDED_BLOCKS then whole else STRIDED_BLOCKS
  {
    var lanes := per.Lanes(threads);
    var blocks := Grid(per, items, threads, false);
    CeilingIsLeast(items * lanes, threads);
    HeldLanes(per, blocks, threads);
    Cancels(per.Held(blocks, threads), items, lanes);
    var capped := Grid(per, items, threads, true);
    HeldLanes(per, capped, threads);
    if items > 0 {
      Positive(items, lanes);
      CancelsStrictly(blocks, 0, threads);
      Positive(capped, threads);
      CancelsStrictly(per.Held(capped, threads), 0, lanes);
    }
  }

  /** Every index is run by as many threads of the grid as an item takes, next to each other. */
  lemma IndexesTile(per: Per, blocks: nat, threads: nat, thread: nat, index: nat)
    requires per.Tiles(threads) && thread < blocks * threads
    ensures per.Index(thread, threads) < per.Held(blocks, threads)
    ensures per.Index(thread, threads) == index <==>
      index * per.Lanes(threads) <= thread < index * per.Lanes(threads) + per.Lanes(threads)
  {
    var lanes := per.Lanes(threads);
    var q, r := thread / lanes, thread % lanes;
    assert per.Index(thread, threads) == q && thread == q * lanes + r;
    HeldLanes(per, blocks, threads);
    CancelsStrictly(per.Held(blocks, threads), q, lanes);
    if index < q { Scaled(index, q, lanes); }
    if q < index { Scaled(q, index, lanes); }
  }

  lemma Scaled(a: int, b: int, c: int)
    requires a < b && c > 0
    ensures a * c + c <= b * c
  {
    assert (b - a - 1) * c >= 0;
    assert (b - a - 1) * c == b * c - a * c - c;
  }

  // ---------------------------------------------------------------- items

  /** The items one index visits below a bound: its own and every one a stride on. */
  function Visited(item: nat, stride: nat, bound: int): (r: seq<nat>)
    requires stride > 0
    decreases if item < bound then bound - item else 0
  {
    if item < bound then [item] + Visited(item + stride, stride, bound) else []
  }

  /** The loop a strided kernel is rewritten to. */
  method Stride(first: nat, step: nat, bound: int) returns (visited: seq<nat>)
    requires step > 0
    ensures visited == Visited(first, step, bound)
  {
    visited := [];
    var cursor := first;
    while cursor < bound
      invariant visited + Visited(cursor, step, bound) == Visited(first, step, bound)
      decreases bound - cursor
    {
      var item := cursor;
      assert visited + ([item] + Visited(cursor + step, step, bound)) == visited + [item] + Visited(cursor + step, step, bound);
      visited := visited + [item];
      cursor := cursor + step;
    }
  }

  function Occurrences(s: seq<nat>, item: nat): nat {
    if |s| == 0 then 0 else (if s[0] == item then 1 else 0) + Occurrences(s[1..], item)
  }

  lemma ModuloShifts(x: int, n: nat)
    requires n > 0
    ensures (x - n) % n == x % n
  {
    ModUnique(n, x - n, x / n - 1, x % n);
  }

  lemma {:induction false} OccursOnce(first: nat, stride: nat, bound: int, item: nat)
    requires stride > 0
    ensures Occurrences(Visited(first, stride, bound), item) ==
      if first <= item < bound && (item - first) % stride == 0 then 1 else 0
    decreases if first < bound then bound - first else 0
  {
    if first < bound {
      OccursOnce(first + stride, stride, bound, item);
      assert Visited(first, stride, bound)[1..] == Visited(first + stride, stride, bound);
      if item == first {
        ModUnique(stride, 0, 0, 0);
      } else if item > first {
        ModuloShifts(item - first, stride);
        if item < first + stride { ModUnique(stride, item - first, 0, item - first); }
      }
    }
  }

  /** How often an item is visited by the first `count` of `held` indexes. */
  function VisitsOf(count: nat, held: nat, bound: int, item: nat): nat
    requires held > 0
  {
    if count == 0 then 0
    else VisitsOf(count - 1, held, bound, item) + Occurrences(Visited(count - 1, held, bound), item)
  }

  lemma {:induction false} VisitsUpTo(count: nat, held: nat, bound: int, item: nat)
    requires count <= held && held > 0
    ensures VisitsOf(count, held, bound, item) == if item < bound && item % held < count then 1 else 0
  {
    if count > 0 {
      VisitsUpTo(count - 1, held, bound, item);
      OccursOnce(count - 1, held, bound, item);
      ResidueOf(item, held, count - 1);
    }
  }

  lemma ResidueOf(item: nat, held: nat, index: nat)
    requires index < held
    ensures index <= item && (item - index) % held == 0 <==> item % held == index
  {
    var q, r := item / held, item % held;
    if r == index { ModUnique(held, item - index, q, 0); }
    if index <= item && (item - index) % held == 0 {
      var p := (item - index) / held;
      ModUnique(held, item, p, index);
    }
    if r == index { assert item == q * held + index; }
  }

  /** However many indexes a launch holds, each item below a bound is visited exactly once and no
      other is. */
  lemma EachItemOnce(held: nat, bound: int, item: nat)
    requires held > 0
    ensures VisitsOf(held, held, bound, item) == if item < bound then 1 else 0
  {
    VisitsUpTo(held, held, bound, item);
  }

  /** So is each in a launch of a strided kernel over any positive number of items. */
  lemma LaunchVisitsEachOnce(per: Per, items: nat, threads: nat, bound: int, item: nat)
    requires per.Tiles(threads) && items > 0
    ensures var held := per.Held(Grid(per, items, threads, true), threads);
      held > 0 && VisitsOf(held, held, bound, item) == if item < bound then 1 else 0
  {
    GridHoldsItems(per, items, threads);
    EachItemOnce(per.Held(Grid(per, items, threads, true), threads), bound, item);
  }

  /** A kernel that does not stride runs its guard once at each index: launched over as many items
      as the bound, it leaves none out. */
  lemma GuardedLaunchVisitsAll(per: Per, items: nat, threads: nat, item: nat)
    requires per.Tiles(threads) && item < items
    ensures item < per.Held(Grid(per, items, threads, false), threads)
  {
    GridHoldsItems(per, items, threads);
  }

  // ---------------------------------------------------------------- a range over a warp's lanes

  const WARP: nat := 32

  /** Offsets a lane copies below `index`. */
  predicate Done(offset: nat, lane: nat, index: nat) { offset % WARP == lane && offset < index }

  lemma DoneStep(offset: nat, lane: nat, index: nat)
    requires index % WARP == lane
    ensures Done(offset, lane, index + WARP) <==> Done(offset, lane, index) || offset == index
  {}

  /** What a lane has copied of a range: its offsets below `index`, and nothing else. */
  ghost predicate LaneCopied<T>(from: seq<T>, was: seq<T>, now: seq<T>, targetAt: nat, lane: nat, index: nat)
    requires targetAt + |from| <= |was| == |now|
  {
    forall i :: 0 <= i < |was| ==> now[i] == Copied(from, was, targetAt, lane, index, i)
  }

  function Copied<T>(from: seq<T>, was: seq<T>, targetAt: nat, lane: nat, index: nat, i: nat): T
    requires targetAt + |from| <= |was| && i < |was|
  {
    if targetAt <= i < targetAt + |from| && Done(i - targetAt, lane, index) then from[i - targetAt] else was[i]
  }

  /** A lane's next element. */
  method Store<T>(target: array<T>, targetAt: nat, lane: nat, index: nat, value: T, ghost from: seq<T>, ghost was: seq<T>)
    requires index < |from| && targetAt + |from| <= |was| == target.Length
    requires index % WARP == lane && value == from[index]
    requires LaneCopied(from, was, target[..], targetAt, lane, index)
    modifies target
    ensures LaneCopied(from, was, target[..], targetAt, lane, index + WARP)
  {
    ghost var before := target[..];
    target[targetAt + index] := value;
    forall i | 0 <= i < |was| ensures target[i] == Copied(from, was, targetAt, lane, index + WARP, i) {
      if i >= targetAt { DoneStep(i - targetAt, lane, index); }
      assert before[i] == Copied(from, was, targetAt, lane, index, i);
    }
  }

  /** Four of a lane's elements, stored in turn. */
  method StoreFour<T>(target: array<T>, targetAt: nat, lane: nat, index: nat, four: seq<T>, ghost from: seq<T>, ghost was: seq<T>)
    requires index + 96 < |from| && targetAt + |from| <= |was| == target.Length
    requires index % WARP == lane && four == Four(from, index)
    requires LaneCopied(from, was, target[..], targetAt, lane, index)
    modifies target
    ensures LaneCopied(from, was, target[..], targetAt, lane, index + 128)
  {
    hide LaneCopied;
    Store(target, targetAt, lane, index, four[0], from, was);
    Store(target, targetAt, lane, index + 32, four[1], from, was);
    Store(target, targetAt, lane, index + 64, four[2], from, was);
    Store(target, targetAt, lane, index + 96, four[3], from, was);
  }

  predicate RangesApart(same: bool, one: nat, other: nat, count: nat) {
    same ==> one + count <= other || other + count <= one
  }

  /** A range of an array that a lane's copy leaves as it is. */
  lemma SourceStays<T>(source: seq<T>, sourceAt: nat, from: seq<T>, was: seq<T>, now: seq<T>, targetAt: nat,
                       lane: nat, index: nat, same: bool)
    requires sourceAt + |from| <= |source| && targetAt + |from| <= |was| == |now|
    requires LaneCopied(from, was, now, targetAt, lane, index) && RangesApart(same, sourceAt, targetAt, |from|)
    requires same ==> source == now && from == was[sourceAt..sourceAt + |from|]
    requires !same ==> from == source[sourceAt..sourceAt + |from|]
    ensures from == source[sourceAt..sourceAt + |from|]
  {}

  /** One lane's part of a copy: four elements loaded before they are stored, then one at a time. */
  method CopyLane<T>(source: array<T>, sourceAt: nat, target: array<T>, targetAt: nat, count: nat, lane: nat)
    requires sourceAt + count <= source.Length && targetAt + count <= target.Length && lane < WARP
    requires RangesApart(source == target, sourceAt, targetAt, count)
    modifies target
    ensures LaneCopied(old(source[sourceAt..sourceAt + count]), old(target[..]), target[..], targetAt, lane, count)
  {
    ghost var from, was := source[sourceAt..sourceAt + count], target[..];
    hide LaneCopied;
    var index := CopyFours(source, sourceAt, target, targetAt, count, lane, from, was);
    while index < count
      invariant index % WARP == lane
      invariant LaneCopied(from, was, target[..], targetAt, lane, index)
      invariant source != target ==> source[..] == old(source[..])
    {
      SourceStays(source[..], sourceAt, from, was, target[..], targetAt, lane, index, source == target);
      var element := source[sourceAt + index];
      assert element == from[index];
      Store(target, targetAt, lane, index, element, from, was);
      index := index + 32;
    }
    LaneEnds(from, was, target[..], targetAt, lane, index);
  }

  /** A lane's runs of four. */
  method CopyFours<T>(source: array<T>, sourceAt: nat, target: array<T>, targetAt: nat, count: nat, lane: nat,
                      ghost from: seq<T>, ghost was: seq<T>) returns (index: nat)
    requires sourceAt + count <= source.Length && targetAt + count <= target.Length && lane < WARP
    requires RangesApart(source == target, sourceAt, targetAt, count)
    requires from == source[sourceAt..sourceAt + count] && was == target[..]
    modifies target
    ensures index % WARP == lane && LaneCopied(from, was, target[..], targetAt, lane, index)
    ensures source != target ==> source[..] == old(source[..])
  {
    LaneStarts(from, was, targetAt, lane);
    hide LaneCopied;
    index := lane;
    while index + 96 < count
      invariant index % WARP == lane
      invariant LaneCopied(from, was, target[..], targetAt, lane, index)
      invariant source != target ==> source[..] == old(source[..])
    {
      SourceStays(source[..], sourceAt, from, was, target[..], targetAt, lane, index, source == target);
      var four := Four(source[..], sourceAt + index);
      assert four == Four(from, index);
      StoreFour(target, targetAt, lane, index, four, from, was);
      index := index + 128;
    }
  }

  function Four<T>(s: seq<T>, at: nat): seq<T>
    requires at + 96 < |s|
  {
    [s[at], s[at + 32], s[at + 64], s[at + 96]]
  }

  lemma LaneStarts<T>(from: seq<T>, was: seq<T>, targetAt: nat, lane: nat)
    requires targetAt + |from| <= |was| && lane < WARP
    ensures LaneCopied(from, was, was, targetAt, lane, lane)
  {}

  /** Past the end nothing is left to copy. */
  lemma LaneEnds<T>(from: seq<T>, was: seq<T>, now: seq<T>, targetAt: nat, lane: nat, index: nat)
    requires targetAt + |from| <= |was| == |now| && index >= |from|
    requires LaneCopied(from, was, now, targetAt, lane, index)
    ensures LaneCopied(from, was, now, targetAt, lane, |from|)
  {
    forall i | 0 <= i < |was| ensures now[i] == Copied(from, was, targetAt, lane, |from|, i) {
      assert now[i] == Copied(from, was, targetAt, lane, index, i);
    }
  }

  /** The whole range, its elements split among the warp's lanes: each is one lane's, so the order
      the lanes go in is no matter. */
  method Copy<T>(source: array<T>, sourceAt: nat, target: array<T>, targetAt: nat, count: nat)
    requires sourceAt + count <= source.Length && targetAt + count <= target.Length
    requires RangesApart(source == target, sourceAt, targetAt, count)
    modifies target
    ensures target[..] == old(target[..targetAt]) + old(source[sourceAt..sourceAt + count]) + old(target[targetAt + count..])
  {
    ghost var from, was := source[sourceAt..sourceAt + count], target[..];
    for lane := 0 to WARP
      invariant source[sourceAt..sourceAt + count] == from
      invariant forall i :: 0 <= i < target.Length ==> target[i] == CopiedBelow(from, was, targetAt, lane, i)
    {
      ghost var before := target[..];
      CopyLane(source, sourceAt, target, targetAt, count, lane);
      forall i | 0 <= i < target.Length ensures target[i] == CopiedBelow(from, was, targetAt, lane + 1, i) {
        assert target[..][i] == Copied(from, before, targetAt, lane, count, i);
      }
      ghost var now := source[sourceAt..sourceAt + count];
      assert source == target ==> forall i :: 0 <= i < count ==> now[i] == from[i];
    }
    assert target[..] == was[..targetAt] + from + was[targetAt + count..];
  }

  function CopiedBelow<T>(from: seq<T>, was: seq<T>, targetAt: nat, lane: nat, i: nat): T
    requires targetAt + |from| <= |was| && i < |was|
  {
    if targetAt <= i < targetAt + |from| && (i - targetAt) % WARP < lane then from[i - targetAt] else was[i]
  }
}
