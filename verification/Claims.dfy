/** Slots claimed by warps with one atomic add each (src/patos/cuda/primitives/warp.py:236-305): whatever
    order the adds land in, the slots handed out tile what the counter grew by. */
module Claims {
  import opened Integers
  import opened Monoids
  import Warp

  predicate Counts(counts: seq<I32>) { forall i :: 0 <= i < |counts| ==> counts[i] >= 0 }

  lemma {:induction false} SumGrows(counts: seq<I32>, i: nat)
    requires Counts(counts) && i <= |counts|
    ensures 0 <= Sum(counts[..i]) <= Sum(counts)
    decreases |counts|
  {
    if i < |counts| {
      SumGrows(counts[..|counts| - 1], i);
      assert counts[..|counts| - 1][..i] == counts[..i];
    } else {
      assert counts[..i] == counts;
      if i > 0 { SumGrows(counts[..i - 1], i - 1); assert counts[..i - 1][..i - 1] == counts[..i - 1]; }
    }
  }

  /** Sums that fit 32 bits are not wrapped on the way. */
  lemma FoldFits(counts: seq<I32>, i: nat)
    requires Counts(counts) && i <= |counts| && Sum(counts) < 0x8000_0000
    ensures Fold(sumI32, counts[..i]) == Sum(counts[..i])
  {
    FoldSumI32(counts[..i]);
    SumGrows(counts, i);
  }

  // ---------------------------------------------------------------- one warp

  /** Slots given out in lane order from the counter's old value, by the single add of one lane, which
      a warp with nothing to add leaves out. */
  method Claim(counter: array<I32>, counts: seq<I32>) returns (slots: seq<I32>)
    requires counter.Length > 0 && counter[0] >= 0 && |counts| > 0 && Counts(counts)
    requires counter[0] + Sum(counts) < 0x8000_0000
    modifies counter
    ensures counter[0] == old(counter[0]) + Sum(counts) && counter[1..] == old(counter[1..])
    ensures |slots| == |counts|
    ensures Sum(counts) > 0 ==>
      forall i :: 0 <= i < |counts| ==> slots[i] == old(counter[0]) + Sum(counts[..i])
  {
    SumI32Reduces();
    hide Sum, ToI32, Fold;
    var before := Warp.Exclusive(sumI32, counts);
    forall i | 0 <= i < |counts|
      ensures before[i] == Sum(counts[..i]) && 0 <= Sum(counts[..i]) <= Sum(counts)
    {
      FoldFits(counts, i);
      SumGrows(counts, i);
    }
    var last := |counts| - 1;
    SumEnds(counts);
    Fits32(Sum(counts));
    var total: I32 := AddI32(before[last], counts[last]);
    var base: I32 := 0;
    if total != 0 {
      base := counter[0];
      Fits32(counter[0] + total);
      counter[0] := AddI32(counter[0], total);
    }
    slots := Above(base, before);
    forall i | 0 <= i < |counts| && total > 0 ensures slots[i] == base + Sum(counts[..i]) {
      Fits32(base + before[i]);
    }
  }

  function Above(base: I32, before: seq<I32>): (slots: seq<I32>)
    ensures |slots| == |before| && forall i :: 0 <= i < |before| ==> slots[i] == AddI32(base, before[i])
  {
    seq(|before|, i requires 0 <= i < |before| => AddI32(base, before[i]))
  }

  lemma Fits32(x: int)
    requires -0x8000_0000 <= x < 0x8000_0000
    ensures ToI32(x) == x
  {}

  lemma SumEnds(counts: seq<I32>)
    requires |counts| > 0 && Counts(counts)
    ensures Sum(counts) == Sum(counts[..|counts| - 1]) + counts[|counts| - 1] && Sum(counts) >= 0
  {
    SumGrows(counts, 0);
  }

  /** The flagged lanes' slots, -1 for the others: the lowest flagged lane adds for all. */
  method Reserve(counter: array<I32>, flags: seq<bool>) returns (slots: seq<I32>)
    requires counter.Length > 0 && counter[0] >= 0 && counter[0] + |flags| < 0x8000_0000
    modifies counter
    ensures counter[0] == old(counter[0]) + Warp.Count(flags) && counter[1..] == old(counter[1..])
    ensures |slots| == |flags|
    ensures forall i :: 0 <= i < |flags| ==> slots[i] == if flags[i] then old(counter[0]) + Warp.Rank(flags, i) else -1
  {
    CountBelow(flags);
    forall i | 0 <= i < |flags| ensures Warp.Rank(flags, i) <= |flags| { CountBelow(flags[..i]); }
    var leader := Warp.First(flags);
    if leader == -1 {
      NoneFlagged(flags);
      slots := seq(|flags|, i => -1);
    } else {
      var base := counter[0];
      counter[0] := AddI32(counter[0], Warp.Count(flags));
      slots := seq(|flags|, i requires 0 <= i < |flags| => SlotOf(base, flags, i));
    }
  }

  function SlotOf(base: I32, flags: seq<bool>, i: nat): I32
    requires i < |flags|
  {
    if flags[i] then ToI32(base + Warp.Rank(flags, i)) else -1
  }

  lemma {:induction false} CountBelow(flags: seq<bool>)
    ensures Warp.Count(flags) <= |flags|
  {
    if |flags| > 0 { CountBelow(flags[..|flags| - 1]); }
  }

  lemma {:induction false} NoneFlagged(flags: seq<bool>)
    requires forall i :: 0 <= i < |flags| ==> !flags[i]
    ensures Warp.Count(flags) == 0
  {
    if |flags| > 0 { NoneFlagged(flags[..|flags| - 1]); }
  }

  function One(flag: bool): I32 { if flag then 1 else 0 }

  function Ones(flags: seq<bool>): (r: seq<I32>)
    ensures |r| == |flags| && forall i :: 0 <= i < |flags| ==> r[i] == One(flags[i])
  {
    seq(|flags|, i requires 0 <= i < |flags| => One(flags[i]))
  }

  lemma {:induction false} SumOfOnes(flags: seq<bool>)
    ensures Sum(Ones(flags)) == Warp.Count(flags)
  {
    if |flags| > 0 {
      SumOfOnes(flags[..|flags| - 1]);
      assert Ones(flags)[..|flags| - 1] == Ones(flags[..|flags| - 1]);
    }
  }

  /** A ballot's rank and population count are the exclusive scan and the sum of the flags as 0 or 1. */
  lemma BallotPrefix(flags: seq<bool>, i: nat)
    requires i <= |flags| < 0x8000_0000
    ensures Fold(sumI32, Ones(flags)[..i]) == Warp.Rank(flags, i) && Fold(sumI32, Ones(flags)) == Warp.Count(flags)
  {
    hide Fold, Sum, Warp.Count;
    CountBelow(flags);
    SumOfOnes(flags);
    SumOfOnes(flags[..i]);
    FoldFits(Ones(flags), i);
    FoldFits(Ones(flags), |flags|);
    assert Ones(flags)[..i] == Ones(flags[..i]) && Ones(flags)[..|flags|] == Ones(flags);
  }

  // ---------------------------------------------------------------- any number of warps

  /** A warp's call when its add lands: what its lanes claim. */
  type Call = counts: seq<I32> | Counts(counts)

  /** The counter after calls landed in an order, from where it was. */
  function Counter(start: int, calls: seq<Call>): int {
    if |calls| == 0 then start else Counter(start, calls[..|calls| - 1]) + Sum(calls[|calls| - 1])
  }

  /** The slots a lane of a call was handed. */
  predicate Owns(start: int, calls: seq<Call>, call: nat, lane: nat, slot: int)
    requires call < |calls| && lane < |calls[call]|
  {
    var first := Counter(start, calls[..call]) + Sum(calls[call][..lane]);
    first <= slot < first + calls[call][lane]
  }

  /** A slot of a call's lanes. */
  lemma {:induction false} LaneOf(counts: seq<I32>, offset: int) returns (lane: nat)
    requires Counts(counts) && 0 <= offset < Sum(counts)
    ensures lane < |counts| && Sum(counts[..lane]) <= offset < Sum(counts[..lane]) + counts[lane]
  {
    var last := |counts| - 1;
    if offset >= Sum(counts[..last]) {
      lane := last;
    } else {
      lane := LaneOf(counts[..last], offset);
      assert counts[..last][..lane] == counts[..lane];
    }
  }

  lemma {:induction false} CounterGrows(start: int, calls: seq<Call>, call: nat)
    requires call <= |calls|
    ensures Counter(start, calls[..call]) <= Counter(start, calls)
    decreases |calls|
  {
    if call < |calls| {
      CounterGrows(start, calls[..|calls| - 1], call);
      assert calls[..|calls| - 1][..call] == calls[..call];
      SumGrows(calls[|calls| - 1], 0);
    } else {
      assert calls[..call] == calls;
    }
  }

  /** Every slot the counter grew by is some lane's. */
  lemma {:induction false} EverySlotIsOwned(start: int, calls: seq<Call>, slot: int) returns (call: nat, lane: nat)
    requires start <= slot < Counter(start, calls)
    ensures call < |calls| && lane < |calls[call]| && Owns(start, calls, call, lane, slot)
  {
    var last := |calls| - 1;
    var base := Counter(start, calls[..last]);
    if slot >= base {
      call := last;
      lane := LaneOf(calls[last], slot - base);
    } else {
      call, lane := EverySlotIsOwned(start, calls[..last], slot);
      assert calls[..last][..call] == calls[..call];
    }
  }

  lemma OwnsWithin(start: int, calls: seq<Call>, call: nat, lane: nat, slot: int)
    requires call < |calls| && lane < |calls[call]| && Owns(start, calls, call, lane, slot)
    ensures Counter(start, calls[..call]) <= slot < Counter(start, calls[..call + 1])
    ensures start <= slot < Counter(start, calls)
  {
    var counts := calls[call];
    SumGrows(counts, lane);
    SumGrows(counts, lane + 1);
    assert counts[..lane + 1][..lane] == counts[..lane];
    assert calls[..call + 1][..call] == calls[..call];
    CounterGrows(start, calls, call + 1);
    CounterGrows(start, calls[..call], 0);
    assert calls[..call][..0] == [];
  }

  /** No slot is two lanes', of one call or of two: they are handed out in the order the adds landed
      and in lane order within a warp. */
  lemma NoSlotTwice(start: int, calls: seq<Call>, c: nat, i: nat, d: nat, j: nat, slot: int)
    requires c < |calls| && i < |calls[c]| && d < |calls| && j < |calls[d]|
    requires Owns(start, calls, c, i, slot) && Owns(start, calls, d, j, slot)
    ensures c == d && i == j
  {
    OwnsWithin(start, calls, c, i, slot);
    OwnsWithin(start, calls, d, j, slot);
    if c < d { CallsOrder(start, calls, c, d); }
    if d < c { CallsOrder(start, calls, d, c); }
    if c == d {
      if i < j { LanesOrder(calls[c], i, j); }
      if j < i { LanesOrder(calls[c], j, i); }
    }
  }

  lemma CallsOrder(start: int, calls: seq<Call>, c: nat, d: nat)
    requires c < d <= |calls|
    ensures Counter(start, calls[..c + 1]) <= Counter(start, calls[..d])
  {
    CounterGrows(start, calls[..d], c + 1);
    assert calls[..d][..c + 1] == calls[..c + 1];
  }

  lemma LanesOrder(counts: seq<I32>, i: nat, j: nat)
    requires Counts(counts) && i < j <= |counts|
    ensures Sum(counts[..i]) + counts[i] <= Sum(counts[..j])
  {
    SumGrows(counts[..j], i + 1);
    assert counts[..j][..i + 1] == counts[..i + 1] && counts[..i + 1][..i] == counts[..i];
  }
}
