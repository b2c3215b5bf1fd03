/** The block engines (src/patos/cuda/primitives/block.py:71-187). */
module Block {
  // Each warp stages one value in shared scratch, a barrier, every thread combines the staged values,
  // and a second barrier. Threads are read as rows of lanes, one row a warp; what the barriers guarantee
  // is proved in BlockBarriers.

  import opened Monoids
  import opened Integers
  import Warp
  import Words

  /** A block of whole warps. */
  ghost predicate Warps<T>(values: seq<seq<T>>, k: nat) {
    |values| > 0 && forall w :: 0 <= w < |values| ==> |values[w]| == Words.Pow2(k)
  }

  /** The values of the threads below thread `lane` of warp `w`, in thread order. */
  function Below<T>(values: seq<seq<T>>, w: nat, lane: nat): seq<T>
    requires w < |values| && lane <= |values[w]|
  {
    Concat(values[..w]) + values[w][..lane]
  }

  lemma FoldBelow<T(!new)>(m: Monoid<T>, values: seq<seq<T>>, w: nat, lane: nat)
    requires Lawful(m) && w < |values| && lane <= |values[w]|
    ensures Fold(m, Below(values, w, lane)) ==
            m.combine(Fold(m, Folds(m, values)[..w]), Fold(m, values[w][..lane]))
  {
    hide Concat, Fold, Associates;
    FoldConcat(m, Concat(values[..w]), values[w][..lane]);
    FoldRows(m, values[..w]);
    assert Folds(m, values[..w]) == Folds(m, values)[..w];
  }

  /** The combination of every warp's `reduced`, which each thread finds for itself. */
  method Combined<T(!new)>(m: Monoid<T>, reduced: seq<T>, partial: array<T>) returns (totals: seq<T>)
    requires Lawful(m) && |reduced| == partial.Length > 0
    modifies partial
    ensures partial[..] == reduced
    ensures |totals| == |reduced| && forall w :: 0 <= w < |totals| ==> totals[w] == Fold(m, reduced)
  {
    for w := 0 to |reduced|
      invariant partial[..w] == reduced[..w]
    {
      partial[w] := reduced[w];
    }
    assert partial[..] == reduced;
    totals := [];
    for w := 0 to |reduced|
      invariant partial[..] == reduced
      invariant |totals| == w && forall v :: 0 <= v < w ==> totals[v] == Fold(m, reduced)
    {
      var total := partial[0];
      assert partial[..][0] == reduced[0];
      FoldOne(m, reduced[0]);
      assert reduced[..1] == [reduced[0]];
      for index := 1 to |reduced|
        invariant partial[..] == reduced
        invariant total == Fold(m, reduced[..index])
      {
        FoldSnoc(m, reduced[..index], reduced[index]);
        assert reduced[..index + 1] == reduced[..index] + [reduced[index]];
        assert partial[..][index] == reduced[index];
        total := m.combine(total, partial[index]);
      }
      assert reduced[..|reduced|] == reduced;
      totals := totals + [total];
    }
  }

  /** Each warp's fold of the warps before it and of them all, read back by every warp from what the
      last lane of each has staged. */
  method Preceding<T(!new)>(m: Monoid<T>, inclusive: seq<seq<T>>, totals: array<T>)
      returns (before: seq<T>, total: seq<T>)
    requires Lawful(m) && |inclusive| == totals.Length
    requires forall w :: 0 <= w < |inclusive| ==> |inclusive[w]| > 0
    modifies totals
    ensures |before| == |total| == |inclusive|
    ensures forall w :: 0 <= w < |inclusive| ==>
      before[w] == Fold(m, Lasts(inclusive)[..w]) && total[w] == Fold(m, Lasts(inclusive))
  {
    ghost var staged := Lasts(inclusive);
    for w := 0 to |inclusive|
      invariant totals[..w] == staged[..w]
    {
      totals[w] := inclusive[w][|inclusive[w]| - 1];
    }
    assert totals[..] == staged;
    hide Fold, Lasts;
    before, total := [], [];
    for w := 0 to |inclusive|
      invariant totals[..] == staged
      invariant |before| == |total| == w
      invariant forall v :: 0 <= v < w ==> before[v] == Fold(m, staged[..v]) && total[v] == Fold(m, staged)
    {
      var held, all := ReadBack(m, totals, w);
      assert totals[..w] == staged[..w];
      before, total := before + [held], total + [all];
    }
  }

  /** One warp's loop over what all have staged. */
  method ReadBack<T(!new)>(m: Monoid<T>, totals: array<T>, w: nat) returns (held: T, all: T)
    requires w <= totals.Length
    ensures held == Fold(m, totals[..w]) && all == Fold(m, totals[..])
  {
    held, all := m.identity, m.identity;
    for index := 0 to totals.Length
      invariant held == Fold(m, totals[..if index < w then index else w])
      invariant all == Fold(m, totals[..index])
    {
      FoldSnoc(m, totals[..index], totals[index]);
      assert totals[..index + 1] == totals[..index] + [totals[index]];
      if index < w {
        held := m.combine(held, totals[index]);
      }
      all := m.combine(all, totals[index]);
    }
    assert totals[..totals.Length] == totals[..];
  }

  function Lasts<T>(rows: seq<seq<T>>): (r: seq<T>)
    requires forall w :: 0 <= w < |rows| ==> |rows[w]| > 0
    ensures |r| == |rows| && forall w :: 0 <= w < |rows| ==> r[w] == rows[w][|rows[w]| - 1]
  {
    seq(|rows|, w requires 0 <= w < |rows| => rows[w][|rows[w]| - 1])
  }

  /** Every thread gets the fold of the threads up to it, itself included. */
  method Scan<T(!new)>(m: Monoid<T>, k: nat, values: seq<seq<T>>, totals: array<T>)
      returns (scanned: seq<seq<T>>)
    requires Lawful(m) && Warps(values, k) && totals.Length == |values|
    modifies totals
    ensures |scanned| == |values|
    ensures forall w :: 0 <= w < |values| ==> |scanned[w]| == |values[w]|
    ensures forall w, i :: 0 <= w < |values| && 0 <= i < |values[w]| ==>
      scanned[w][i] == Fold(m, Below(values, w, i + 1))
  {
    var inclusive := WarpScans(m, k, values);
    LastsAreFolds(m, k, values, inclusive);
    var before, _ := Preceding(m, inclusive, totals);
    scanned := seq(|values|, w requires 0 <= w < |values| && |inclusive[w]| == |values[w]| =>
      seq(|values[w]|, i requires 0 <= i < |values[w]| => m.combine(before[w], inclusive[w][i])));
    forall w, i | 0 <= w < |values| && 0 <= i < |values[w]|
      ensures scanned[w][i] == Fold(m, Below(values, w, i + 1))
    {
      FoldBelow(m, values, w, i + 1);
    }
  }

  /** Every thread gets the fold of the threads below it, and the block's. */
  method Exclusive<T(!new)>(m: Monoid<T>, k: nat, values: seq<seq<T>>, totals: array<T>)
      returns (below: seq<seq<T>>, total: seq<T>)
    requires Lawful(m) && Warps(values, k) && totals.Length == |values|
    modifies totals
    ensures |below| == |total| == |values|
    ensures forall w :: 0 <= w < |values| ==>
      |below[w]| == |values[w]| && total[w] == Fold(m, Concat(values))
    ensures forall w, i :: 0 <= w < |values| && 0 <= i < |values[w]| ==>
      below[w][i] == Fold(m, Below(values, w, i))
  {
    var within := WarpExclusives(m, k, values);
    var inclusive := seq(|values|, w requires 0 <= w < |values| && |within[w]| == |values[w]| =>
      seq(|values[w]|, i requires 0 <= i < |values[w]| => m.combine(within[w][i], values[w][i])));
    forall w, i | 0 <= w < |values| && 0 <= i < |values[w]|
      ensures inclusive[w][i] == Fold(m, values[w][..i + 1])
    {
      FoldSnoc(m, values[w][..i], values[w][i]);
      assert values[w][..i + 1] == values[w][..i] + [values[w][i]];
    }
    LastsAreFolds(m, k, values, inclusive);
    var before;
    before, total := Preceding(m, inclusive, totals);
    below := seq(|values|, w requires 0 <= w < |values| && |within[w]| == |values[w]| =>
      seq(|values[w]|, i requires 0 <= i < |values[w]| => m.combine(before[w], within[w][i])));
    FoldRows(m, values);
    forall w, i | 0 <= w < |values| && 0 <= i < |values[w]|
      ensures below[w][i] == Fold(m, Below(values, w, i))
    {
      FoldBelow(m, values, w, i);
    }
  }

  /** Every warp gets the fold of all the threads, of an operator that commutes. */
  method Reduce<T(!new)>(m: Monoid<T>, k: nat, values: seq<seq<T>>, partial: array<T>)
      returns (totals: seq<T>)
    requires Lawful(m) && Commutative(m) && Warps(values, k) && partial.Length == |values|
    modifies partial
    ensures |totals| == |values|
    ensures forall w :: 0 <= w < |values| ==> totals[w] == Fold(m, Concat(values))
  {
    var reduced := [];
    for w := 0 to |values|
      invariant |reduced| == w && forall v :: 0 <= v < w ==> reduced[v] == Fold(m, values[v])
    {
      var lanes := Warp.Butterfly(m, k, values[w]);
      reduced := reduced + [lanes[0]];
    }
    assert reduced == Folds(m, values);
    FoldRows(m, values);
    totals := Combined(m, reduced, partial);
  }

  /** `before + inclusive - value` wraps to the exclusive sum and needs no identity. */
  method ExclusiveSum(k: nat, values: seq<seq<I32>>, totals: array<I32>)
      returns (below: seq<seq<I32>>, total: seq<I32>)
    requires Warps(values, k) && totals.Length == |values|
    modifies totals
    ensures |below| == |total| == |values|
    ensures forall w :: 0 <= w < |values| ==>
      |below[w]| == |values[w]| && total[w] == Fold(sumI32, Concat(values))
    ensures forall w, i :: 0 <= w < |values| && 0 <= i < |values[w]| ==>
      below[w][i] == Fold(sumI32, Below(values, w, i))
  {
    SumI32Reduces();
    var inclusive := WarpSums(k, values);
    LastsAreFolds(sumI32, k, values, inclusive);
    hide Fold, Concat, WithoutOwn;
    var before;
    before, total := Preceding(sumI32, inclusive, totals);
    below := seq(|values|, w requires 0 <= w < |values| && |inclusive[w]| == |values[w]| =>
      seq(|values[w]|, i requires 0 <= i < |values[w]| =>
        WithoutOwn(before[w], inclusive[w][i], values[w][i])));
    FoldRows(sumI32, values);
    forall w, i | 0 <= w < |values| && 0 <= i < |values[w]|
      ensures below[w][i] == Fold(sumI32, Below(values, w, i))
    {
      SumBelow(values, w, i);
    }
  }

  lemma SumBelow(values: seq<seq<I32>>, w: nat, i: nat)
    requires w < |values| && i < |values[w]|
    ensures WithoutOwn(Fold(sumI32, Folds(sumI32, values)[..w]), Fold(sumI32, values[w][..i + 1]), values[w][i])
            == Fold(sumI32, Below(values, w, i))
  {
    SumI32Reduces();
    FoldBelow(sumI32, values, w, i);
    FoldSnoc(sumI32, values[w][..i], values[w][i]);
    assert values[w][..i + 1] == values[w][..i] + [values[w][i]];
    Cancels(Fold(sumI32, Folds(sumI32, values)[..w]), Fold(sumI32, values[w][..i]), values[w][i]);
  }

  function WithoutOwn(before: int, inclusive: int, value: int): I32 { ToI32(before + inclusive - value) }

  lemma Cancels(before: I32, within: I32, value: I32)
    ensures WithoutOwn(before, AddI32(within, value), value) == AddI32(before, within)
  {
    Wraps32(within + value, before - value);
  }

  method WarpScans<T(!new)>(m: Monoid<T>, k: nat, values: seq<seq<T>>) returns (rows: seq<seq<T>>)
    requires Lawful(m) && Warps(values, k)
    ensures Scanned(m, values, rows)
  {
    rows := [];
    for w := 0 to |values|
      invariant |rows| == w && Scanned(m, values[..w], rows)
    {
      var row := Warp.ShuffledScan(m, values[w]);
      rows := rows + [row];
    }
  }

  method WarpSums(k: nat, values: seq<seq<I32>>) returns (rows: seq<seq<I32>>)
    requires Warps(values, k)
    ensures Scanned(sumI32, values, rows)
  {
    rows := [];
    for w := 0 to |values|
      invariant |rows| == w && Scanned(sumI32, values[..w], rows)
    {
      var row := Warp.InclusiveSum(values[w]);
      rows := rows + [row];
    }
  }

  method WarpExclusives<T(!new)>(m: Monoid<T>, k: nat, values: seq<seq<T>>) returns (rows: seq<seq<T>>)
    requires Lawful(m) && Warps(values, k)
    ensures |rows| == |values| && forall w :: 0 <= w < |rows| ==> |rows[w]| == |values[w]|
    ensures forall w, i :: 0 <= w < |rows| && 0 <= i < |rows[w]| ==> rows[w][i] == Fold(m, values[w][..i])
  {
    rows := [];
    for w := 0 to |values|
      invariant |rows| == w && forall v :: 0 <= v < w ==> |rows[v]| == |values[v]|
      invariant forall v, i :: 0 <= v < w && 0 <= i < |rows[v]| ==> rows[v][i] == Fold(m, values[v][..i])
    {
      var row := Warp.Exclusive(m, values[w]);
      rows := rows + [row];
    }
  }

  /** Each row holds its warp's combinations up to each lane. */
  ghost predicate Scanned<T>(m: Monoid<T>, values: seq<seq<T>>, rows: seq<seq<T>>) {
    && |rows| == |values|
    && (forall w :: 0 <= w < |rows| ==> |rows[w]| == |values[w]|)
    && forall w, i :: 0 <= w < |rows| && 0 <= i < |rows[w]| ==> rows[w][i] == Fold(m, values[w][..i + 1])
  }

  lemma LastsAreFolds<T>(m: Monoid<T>, k: nat, values: seq<seq<T>>, rows: seq<seq<T>>)
    requires Warps(values, k) && Scanned(m, values, rows)
    ensures forall w :: 0 <= w < |rows| ==> |rows[w]| > 0
    ensures Lasts(rows) == Folds(m, values)
  {
    forall w | 0 <= w < |rows| ensures |rows[w]| > 0 && Lasts(rows)[w] == Fold(m, values[w]) {
      assert values[w][..|values[w]|] == values[w];
    }
  }
}
