/** Offsets (src/patos/cuda/primitives/offsets.py:218-243). */
module Offsets {
  // Handed out in the kernel that counts: a block's exclusive scan behind what its look-back returned.

  import opened Monoids
  import opened Integers
  import opened WholeScan
  import Block
  import Warp

  /** Each thread's start, the fold of all counts that precede its own, and the fold through its tile's
      last: `earlier` are the counts of preceding tiles, which the look-back combined to `ahead`. */
  method Place<T(!new)>(m: Monoid<T>, k: nat, counts: seq<seq<T>>, scratch: array<T>, ahead: T,
      ghost earlier: seq<T>) returns (starts: seq<seq<T>>, end: T)
    requires Lawful(m) && Block.Warps(counts, k) && scratch.Length == |counts|
    requires ahead == Fold(m, earlier)
    modifies scratch
    ensures |starts| == |counts| && forall w :: 0 <= w < |counts| ==> |starts[w]| == |counts[w]|
    ensures forall w, i :: 0 <= w < |counts| && 0 <= i < |counts[w]| ==>
      starts[w][i] == Fold(m, earlier + Block.Below(counts, w, i))
    ensures end == Fold(m, earlier + Concat(counts))
  {
    var within, total := Block.Exclusive(m, k, counts, scratch);
    starts := seq(|counts|, w requires 0 <= w < |counts| && |within[w]| == |counts[w]| =>
      seq(|counts[w]|, i requires 0 <= i < |counts[w]| => m.combine(ahead, within[w][i])));
    end := m.combine(ahead, total[0]);
    forall w, i | 0 <= w < |counts| && 0 <= i < |counts[w]|
      ensures starts[w][i] == Fold(m, earlier + Block.Below(counts, w, i))
    {
      FoldConcat(m, earlier, Block.Below(counts, w, i));
    }
    FoldConcat(m, earlier, Concat(counts));
  }

  /** A tile's counts, warp by warp, zero for the threads past the last index. */
  function TileRows(counts: seq<U32>, first: nat, warps: nat): (rows: seq<seq<U32>>)
    ensures |rows| == warps && (warps > 0 ==> Block.Warps(rows, 5))
  {
    WarpIs32();
    seq(warps, w requires w >= 0 => Padded(counts, first + w * WARP, WARP))
  }

  lemma {:induction false} TileRowsConcat(counts: seq<U32>, first: nat, warps: nat, w: nat)
    requires w <= warps
    ensures Concat(TileRows(counts, first, warps)[..w]) == Padded(counts, first, w * WARP)
  {
    var rows := TileRows(counts, first, warps);
    if w > 0 {
      TileRowsConcat(counts, first, warps, w - 1);
      assert rows[..w][..w - 1] == rows[..w - 1];
      var one, two := Padded(counts, first, (w - 1) * WARP), Padded(counts, first + (w - 1) * WARP, WARP);
      assert Concat(rows[..w]) == one + two;
      PaddedJoins(counts, first, (w - 1) * WARP, WARP);
    } else {
      assert rows[..0] == [];
    }
  }

  lemma PaddedJoins(s: seq<U32>, from: nat, first: nat, second: nat)
    ensures Padded(s, from, first) + Padded(s, from + first, second) == Padded(s, from, first + second)
  {}

  /** The counts before thread `i` of warp `w` of a tile are those before its index. */
  lemma ThreadStart(counts: seq<U32>, first: nat, warps: nat, w: nat, i: nat)
    requires w < warps && i < WARP && first + w * WARP + i <= |counts|
    ensures counts[..first] + Block.Below(TileRows(counts, first, warps), w, i) == counts[..first + w * WARP + i]
  {
    TileRowsConcat(counts, first, warps, w);
  }

  /** What a tile of `size` threads makes of entry `i`, the last one being the total's. */
  ghost function Entered(counts: seq<U32>, first: nat, size: nat, was: U32, i: nat): U32
    requires i <= |counts|
  {
    if i < |counts|
    then if first <= i < first + size then Summed(counts[..i]) else was
    else if first < |counts| <= first + size then Summed(counts) else was
  }

  ghost function Summed(counts: seq<U32>): U32 { Fold(sumU32, counts) }

  /** One thread's stores, its start being what lies before its index. */
  method Enter(counts: seq<U32>, starts: array<U32>, index: nat, start: U32, ghost first: nat, ghost was: seq<U32>)
    requires starts.Length == |was| == |counts| + 1 && first <= index
    requires index < |counts| ==> start == Fold(sumU32, counts[..index])
    requires forall j :: 0 <= j <= |counts| ==> starts[j] == Entered(counts, first, index - first, was[j], j)
    modifies starts
    ensures forall j :: 0 <= j <= |counts| ==> starts[j] == Entered(counts, first, index - first + 1, was[j], j)
  {
    var last := |counts|;
    if index < last {
      starts[index] := start;
    }
    if index == last - 1 {
      FoldSnoc(sumU32, counts[..index], counts[index]);
      assert counts[..index] + [counts[index]] == counts;
      starts[last] := AddU32(start, counts[index]);
    }
  }

  /** A tile's share of `starts`: a prefix sum at each of its indexes, and at the extra entry the sum
      of all, where the tile has the last index. */
  method Counted(counts: seq<U32>, tile: nat, warps: nat, scratch: array<U32>, starts: array<U32>, ahead: U32)
    requires starts.Length == |counts| + 1
    requires warps > 0 && scratch.Length == warps && scratch != starts
    requires tile * (warps * WARP) <= |counts|
    requires ahead == Fold(sumU32, counts[..tile * (warps * WARP)])
    modifies starts, scratch
    ensures TileEntered(counts, tile * (warps * WARP), warps * WARP, old(starts[..]), starts[..])
  {
    hide Entered, Fold, Padded, Concat, Block.Below;
    var first := tile * (warps * WARP);
    var rows := TileRows(counts, first, warps);
    SumU32Reduces();
    var offsets, _ := Place(sumU32, 5, rows, scratch, ahead, counts[..first]);
    ghost var was := starts[..];
    forall w | 0 <= w < warps ensures WarpStarts(counts, first, warps, w, offsets[w]) {}
    NothingEntered(counts, first, was);
    hide WarpStarts;
    for w := 0 to warps
      invariant EnteredTo(counts, first, w * WARP, was, starts[..])
    {
      EnterWarp(counts, starts, first, warps, w, offsets[w], was);
    }
    EnteredIs(counts, first, warps * WARP, was, starts[..]);
  }

  /** What a tile of `size` indexes from `first` on stores: the sum of the counts before each of its
      indexes, the sum of all at the extra entry if it has the last index, and nothing else. */
  ghost predicate TileEntered(counts: seq<U32>, first: nat, size: nat, was: seq<U32>, now: seq<U32>) {
    && |was| == |now| == |counts| + 1
    && (forall i :: first <= i < first + size && i < |counts| ==> now[i] == Fold(sumU32, counts[..i]))
    && (forall i :: 0 <= i < |counts| && !(first <= i < first + size) ==> now[i] == was[i])
    && now[|counts|] == if first <= |counts| - 1 < first + size then Fold(sumU32, counts) else was[|counts|]
  }

  lemma EnteredIs(counts: seq<U32>, first: nat, size: nat, was: seq<U32>, now: seq<U32>)
    requires |was| == |now| == |counts| + 1 && EnteredTo(counts, first, size, was, now)
    ensures TileEntered(counts, first, size, was, now)
  {}

  /** What each thread of a warp starts at. */
  ghost predicate WarpStarts(counts: seq<U32>, first: nat, warps: nat, w: nat, offsets: seq<U32>)
    requires w < warps && first <= |counts|
  {
    && |offsets| == WARP
    && forall i :: 0 <= i < WARP ==>
         offsets[i] == Fold(sumU32, counts[..first] + Block.Below(TileRows(counts, first, warps), w, i))
  }

  ghost predicate EnteredTo(counts: seq<U32>, first: nat, size: nat, was: seq<U32>, now: seq<U32>)
    requires |was| == |now| == |counts| + 1
  {
    forall j :: 0 <= j <= |counts| ==> now[j] == Entered(counts, first, size, was[j], j)
  }

  lemma NothingEntered(counts: seq<U32>, first: nat, was: seq<U32>)
    requires |was| == |counts| + 1
    ensures EnteredTo(counts, first, 0, was, was)
  {}

  /** The stores of one warp's threads. */
  method EnterWarp(counts: seq<U32>, starts: array<U32>, first: nat, warps: nat, w: nat, offsets: seq<U32>,
      ghost was: seq<U32>)
    requires starts.Length == |was| == |counts| + 1 && w < warps && first <= |counts|
    requires WarpStarts(counts, first, warps, w, offsets)
    requires EnteredTo(counts, first, w * WARP, was, starts[..])
    modifies starts
    ensures EnteredTo(counts, first, (w + 1) * WARP, was, starts[..])
  {
    hide Entered, Fold;
    for i := 0 to WARP
      invariant EnteredTo(counts, first, w * WARP + i, was, starts[..])
    {
      var index := first + w * WARP + i;
      if index < |counts| { ThreadStart(counts, first, warps, w, i); }
      Enter(counts, starts, index, offsets[i], first, was);
    }
  }

  // ---------------------------------------------------------------- all the tiles

  /** Tiles entered one after another in any order: `memories` are `starts` before each and after. */
  ghost predicate Pass(counts: seq<U32>, size: nat, order: seq<nat>, memories: seq<seq<U32>>) {
    && |memories| == |order| + 1 && |memories[0]| == |counts| + 1
    && forall k :: 0 <= k < |order| ==> TileEntered(counts, order[k] * size, size, memories[k], memories[k + 1])
  }

  predicate InTile(tile: nat, size: nat, i: int) { tile * size <= i < tile * size + size }

  predicate Holds(order: seq<nat>, size: nat, i: int) { exists k :: 0 <= k < |order| && InTile(order[k], size, i) }

  lemma HoldsSnoc(order: seq<nat>, size: nat, k: nat, i: int)
    requires k < |order|
    ensures Holds(order[..k + 1], size, i) == (Holds(order[..k], size, i) || InTile(order[k], size, i))
  {
    if Holds(order[..k], size, i) {
      var h :| 0 <= h < k && InTile(order[..k][h], size, i);
      assert InTile(order[..k + 1][h], size, i);
    }
    if InTile(order[k], size, i) { assert InTile(order[..k + 1][k], size, i); }
  }

  /** After some of the tiles, an entry holds its sum if its index's tile was among them, the extra
      entry going with the last index. */
  lemma {:induction false} EntersSome(counts: seq<U32>, size: nat, order: seq<nat>, memories: seq<seq<U32>>, k: nat, i: nat)
    requires Pass(counts, size, order, memories) && k <= |order| && i <= |counts|
    ensures |memories[k]| == |counts| + 1
    ensures memories[k][i] ==
      if Holds(order[..k], size, if i < |counts| then i else |counts| - 1) then Fold(sumU32, counts[..i])
      else memories[0][i]
  {
    hide Fold;
    if k > 0 {
      EntersSome(counts, size, order, memories, k - 1, i);
      assert TileEntered(counts, order[k - 1] * size, size, memories[k - 1], memories[k - 1 + 1]);
      HoldsSnoc(order, size, k - 1, if i < |counts| then i else |counts| - 1);
      assert counts[..|counts|] == counts;
      hide Holds;
    }
  }

  /** Once all the tiles of some counts are entered, in whatever order, every entry of `starts` is
      the true sum of the counts before it, wrapped once, and the extra one that of them all. Of no
      counts nothing is entered, the extra entry included. */
  lemma PassEnters(counts: seq<U32>, size: nat, order: seq<nat>, memories: seq<seq<U32>>, i: nat)
    requires Pass(counts, size, order, memories) && i <= |counts|
    requires forall index :: 0 <= index < |counts| ==> Holds(order, size, index)
    ensures |memories[|order|]| == |counts| + 1
    ensures |counts| > 0 ==> memories[|order|][i] == ToU32(Sum(counts[..i]))
    ensures |counts| == 0 ==> memories[|order|] == memories[0]
  {
    EntersSome(counts, size, order, memories, |order|, i);
    assert order[..|order|] == order;
    FoldSumU32(counts[..i]);
    if |counts| == 0 { assert memories[|order|][0] == memories[0][0] by { NoneHeld(order, size); } }
  }

  lemma NoneHeld(order: seq<nat>, size: nat)
    ensures !Holds(order, size, -1)
  {}
}
