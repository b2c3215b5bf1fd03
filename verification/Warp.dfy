/** The warp engines (src/patos/cuda/primitives/warp.py). */
module Warp {
  // Lanes step together, so one shuffle is one new sequence of lane values. A warp is 32 lanes; the
  // engines are proved for every 2^k.

  import opened Monoids
  import opened Integers
  import opened Words

  lemma HalvedRemainder(i: nat, p: nat)
    requires p > 0
    ensures i % (2 * p) == 2 * (i / 2 % p) + i % 2
  {
    var q := i / 2 / p;
    assert i / 2 == q * p + i / 2 % p;
    assert i == q * (2 * p) + (2 * (i / 2 % p) + i % 2);
    ModUnique(2 * p, i, q, 2 * (i / 2 % p) + i % 2);
  }

  /** Exclusive or with a power of two moves a lane by that much, up or down. */
  lemma {:induction false} XorPow2(i: nat, j: nat)
    ensures Xor(i, Pow2(j)) == if i % Pow2(j + 1) < Pow2(j) then i + Pow2(j) else i - Pow2(j)
  {
    if j == 0 {
      BitsWithZero(i / 2);
    } else {
      XorPow2(i / 2, j - 1);
      BitsStep(XorGate, i, Pow2(j));
      assert Pow2(j) % 2 == 0 && Pow2(j) / 2 == Pow2(j - 1) && Pow2(j + 1) == 2 * Pow2(j);
      hide Bits, Pow2;
      HalvedRemainder(i, Pow2(j));
    }
  }

  // ---------------------------------------------------------------- the butterfly reduction

  lemma Residue(p: nat, i: nat, q: nat, r: nat)
    requires i == q * p + r && r < p
    ensures i % p == r
  {
    ModUnique(p, i, q, r);
  }

  lemma TimesMonotone(a: nat, b: nat, p: nat)
    ensures a <= b ==> a * p <= b * p
  {}

  lemma DivMod(i: nat, p: nat) returns (q: nat, r: nat)
    requires p > 0
    ensures i == q * p + r && r < p && i % p == r
  {
    q, r := i / p, i % p;
  }

  /** A lane in the lower half of its group of `p == 2 * h`, and the lane `h` above it. */
  lemma LowerHalf(c: nat, p: nat, h: nat, i: nat, q: nat, r: nat)
    requires p == 2 * h && i == q * p + r && i < c * p && r < h
    ensures i + h < c * p && i % h == r && (i + h) % p == r + h
  {
    assert q * p == 2 * q * h;
    Residue(h, i, 2 * q, r);
    Residue(p, i + h, q, r + h);
    TimesMonotone(c, q, p);
    TimesMonotone(q + 1, c, p);
  }

  /** A lane in the upper half, and the lane `h` below it. */
  lemma UpperHalf(p: nat, h: nat, i: nat, q: nat, r: nat)
    requires p == 2 * h && i == q * p + r && h <= r < p
    ensures i >= h && i % h == r - h && (i - h) % p == r - h
  {
    assert q * p + h == (2 * q + 1) * h;
    TimesMonotone(0, q, p);
    Residue(h, i, 2 * q + 1, r - h);
    Residue(p, i - h, q, r - h);
  }

  /** Where lane `i`'s partner `2^j` away lies: in its own group of `2^(j+1)`, in the other half. */
  lemma Partner(c: nat, j: nat, i: nat)
    requires i < c * Pow2(j + 1)
    ensures var h, p, x := Pow2(j), Pow2(j + 1), Xor(i, Pow2(j));
      && 0 <= x < c * p
      && (if i % p < h then i % h == i % p && x % p == i % p + h
          else i % h == i % p - h && x % p == i % p - h)
  {
    XorPow2(i, j);
    var h, p := Pow2(j), Pow2(j + 1);
    var q, r := DivMod(i, p);
    if r < h { LowerHalf(c, p, h, i, q, r); } else { UpperHalf(p, h, i, q, r); }
  }

  /** One butterfly step at offset `2^j`: every lane combines with the one its exclusive or names. */
  function Exchanged<T>(m: Monoid<T>, lanes: seq<T>, c: nat, j: nat): (r: seq<T>)
    requires |lanes| == c * Pow2(j + 1)
    ensures |r| == |lanes|
  {
    seq(|lanes|, i requires 0 <= i < |lanes| =>
      Partner(c, j, i);
      m.combine(lanes[i], lanes[Xor(i, Pow2(j))]))
  }

  /** Groups of `p` lanes all alike, each folding to `whole`. */
  ghost predicate Alike<T>(m: Monoid<T>, lanes: seq<T>, p: nat, whole: T) {
    && 0 < p <= |lanes|
    && (forall i :: 0 <= i < |lanes| ==> lanes[i] == lanes[i % p])
    && Fold(m, lanes[..p]) == whole
  }

  /** A step halves the groups: the two halves of each become one another's mirror image, so
      commuting makes them alike, and combining element by element loses nothing of the fold. */
  lemma ExchangedAlike<T(!new)>(m: Monoid<T>, lanes: seq<T>, c: nat, j: nat, whole: T)
    requires Lawful(m) && Commutative(m)
    requires |lanes| == c * Pow2(j + 1) && Alike(m, lanes, Pow2(j + 1), whole)
    ensures Alike(m, Exchanged(m, lanes, c, j), Pow2(j), whole)
  {
    var h, next := Pow2(j), Exchanged(m, lanes, c, j);
    var low, high := lanes[..h], lanes[h..2 * h];
    var mixed := Zipped(m, low, high);
    forall i | 0 <= i < |lanes| ensures next[i] == mixed[i % h] {
      Partner(c, j, i);
      assert Commutes(m, low[i % h], high[i % h]);
    }
    forall i | 0 <= i < |lanes| ensures next[i] == next[i % h] {
      Residue(h, i % h, 0, i % h);
    }
    forall i | 0 <= i < h ensures next[i] == mixed[i] {
      Residue(h, i, 0, i);
    }
    assert next[..h] == mixed;
    FoldZipped(m, low, high);
    FoldSplit(m, lanes, 0, h, 2 * h);
    assert lanes[0..h] == low && lanes[0..2 * h] == lanes[..2 * h];
  }

  lemma AlikeWhole<T>(m: Monoid<T>, lanes: seq<T>)
    requires |lanes| > 0
    ensures Alike(m, lanes, |lanes|, Fold(m, lanes))
  {
    forall i | 0 <= i < |lanes| ensures i % |lanes| == i { Residue(|lanes|, i, 0, i); }
    assert lanes[..|lanes|] == lanes;
  }

  lemma AlikeSingly<T(!new)>(m: Monoid<T>, lanes: seq<T>, whole: T)
    requires Lawful(m) && Alike(m, lanes, 1, whole)
    ensures forall i :: 0 <= i < |lanes| ==> lanes[i] == whole
  {
    FoldOne(m, lanes[0]);
    assert lanes[..1] == [lanes[0]];
    forall i | 0 <= i < |lanes| ensures lanes[i] == whole {
      Residue(1, i, i, 0);
      assert lanes[i] == lanes[i % 1];
    }
  }

  /** The lanes after the exchanges at offsets `2^(j-1)` down to 1. */
  function Butterflied<T>(m: Monoid<T>, lanes: seq<T>, groups: nat, j: nat): (r: seq<T>)
    requires |lanes| == groups * Pow2(j)
    ensures |r| == |lanes|
    decreases j
  {
    if j == 0 then lanes
    else
      assert groups * (2 * Pow2(j - 1)) == 2 * groups * Pow2(j - 1);
      Butterflied(m, Exchanged(m, lanes, groups, j - 1), 2 * groups, j - 1)
  }

  lemma {:induction false} ButterfliedFolds<T(!new)>(m: Monoid<T>, lanes: seq<T>, groups: nat, j: nat, whole: T)
    requires Lawful(m) && Commutative(m)
    requires |lanes| == groups * Pow2(j) && Alike(m, lanes, Pow2(j), whole)
    ensures forall i :: 0 <= i < |lanes| ==> Butterflied(m, lanes, groups, j)[i] == whole
    decreases j
  {
    if j == 0 {
      AlikeSingly(m, lanes, whole);
    } else {
      ExchangedAlike(m, lanes, groups, j - 1, whole);
      assert groups * (2 * Pow2(j - 1)) == 2 * groups * Pow2(j - 1);
      ButterfliedFolds(m, Exchanged(m, lanes, groups, j - 1), 2 * groups, j - 1, whole);
    }
  }

  /** The butterfly of a warp of `2^k` lanes. */
  function Reduced<T>(m: Monoid<T>, k: nat, lanes: seq<T>): (r: seq<T>)
    requires |lanes| == Pow2(k)
    ensures |r| == |lanes|
  {
    Butterflied(m, lanes, 1, k)
  }

  /** Whatever the type, every lane ends with the fold of all of them, if the operator commutes. */
  lemma ReducedFolds<T(!new)>(m: Monoid<T>, k: nat, lanes: seq<T>)
    requires Lawful(m) && Commutative(m) && |lanes| == Pow2(k)
    ensures forall i :: 0 <= i < |lanes| ==> Reduced(m, k, lanes)[i] == Fold(m, lanes)
  {
    AlikeWhole(m, lanes);
    ButterfliedFolds(m, lanes, 1, k, Fold(m, lanes));
  }

  /** Five shuffles for 32 lanes. */
  method Butterfly<T(!new)>(m: Monoid<T>, k: nat, values: seq<T>) returns (lanes: seq<T>)
    requires |values| == Pow2(k)
    ensures lanes == Reduced(m, k, values)
    ensures Lawful(m) && Commutative(m) ==> forall i :: 0 <= i < |values| ==> lanes[i] == Fold(m, values)
  {
    lanes := values;
    var groups, j := 1, k;
    while j > 0
      invariant 0 <= j <= k
      invariant |lanes| == |values| == groups * Pow2(j)
      invariant Butterflied(m, lanes, groups, j) == Reduced(m, k, values)
    {
      j := j - 1;
      assert groups * (2 * Pow2(j)) == 2 * groups * Pow2(j);
      lanes := Exchanged(m, lanes, groups, j);
      groups := 2 * groups;
    }
    if Lawful(m) && Commutative(m) { ReducedFolds(m, k, values); }
  }

  /** Two values in lanes 0 and 1 of every group of `p`, identities elsewhere. */
  ghost predicate Paired<T>(m: Monoid<T>, lanes: seq<T>, p: nat, a: T, b: T)
    requires p > 0
  {
    forall i :: 0 <= i < |lanes| ==> lanes[i] == PairLane(m, i % p, a, b)
  }

  ghost function PairLane<T>(m: Monoid<T>, r: nat, a: T, b: T): T {
    if r == 0 then a else if r == 1 then b else m.identity
  }

  lemma PairStays<T(!new)>(m: Monoid<T>, lanes: seq<T>, groups: nat, j: nat, a: T, b: T)
    requires Lawful(m) && j > 0
    requires |lanes| == groups * Pow2(j + 1) && Paired(m, lanes, Pow2(j + 1), a, b)
    ensures Paired(m, Exchanged(m, lanes, groups, j), Pow2(j), a, b)
  {
    var h, next := Pow2(j), Exchanged(m, lanes, groups, j);
    assert h == 2 * Pow2(j - 1);
    forall i | 0 <= i < |next| ensures next[i] == PairLane(m, i % h, a, b) {
      Partner(groups, j, i);
    }
  }

  /** The butterfly combines a pair in lane order in lane 0, commuting or not. */
  lemma {:induction false} PairReduces<T(!new)>(m: Monoid<T>, lanes: seq<T>, groups: nat, j: nat, a: T, b: T)
    requires Lawful(m) && j > 0 && groups > 0
    requires |lanes| == groups * Pow2(j) && Paired(m, lanes, Pow2(j), a, b)
    ensures |lanes| > 0 && Butterflied(m, lanes, groups, j)[0] == m.combine(a, b)
    decreases j
  {
    var next := Exchanged(m, lanes, groups, j - 1);
    assert groups * (2 * Pow2(j - 1)) == 2 * groups * Pow2(j - 1);
    TimesMonotone(1, groups, Pow2(j));
    if j == 1 {
      XorPow2(0, 0);
      Residue(2, 0, 0, 0);
      Residue(2, 1, 0, 1);
      assert next[0] == m.combine(lanes[0], lanes[1]);
    } else {
      PairStays(m, lanes, groups, j - 1, a, b);
      PairReduces(m, next, 2 * groups, j - 1, a, b);
    }
  }

  // ---------------------------------------------------------------- the scans

  /** A shuffle up: each lane receives from `offset` lanes lower, the lowest ones from themselves. */
  function Lowered<T>(lanes: seq<T>, offset: nat): (r: seq<T>)
    ensures |r| == |lanes|
  {
    seq(|lanes|, i requires 0 <= i < |lanes| => if i >= offset then lanes[i - offset] else lanes[i])
  }

  /** The `width` lanes up to and including lane `i`, fewer at the bottom of the warp. */
  function UpTo<T>(s: seq<T>, i: nat, width: nat): seq<T>
    requires i < |s| && width > 0
  {
    s[if i + 1 < width then 0 else i + 1 - width..i + 1]
  }

  lemma UpToDoubles<T(!new)>(m: Monoid<T>, s: seq<T>, i: nat, width: nat)
    requires Lawful(m) && i < |s| && width > 0
    ensures Fold(m, UpTo(s, i, 2 * width)) ==
            if i >= width then m.combine(Fold(m, UpTo(s, i - width, width)), Fold(m, UpTo(s, i, width)))
            else Fold(m, UpTo(s, i, width))
  {
    if i >= width {
      FoldSplit(m, s, if i + 1 < 2 * width then 0 else i + 1 - 2 * width, i + 1 - width, i + 1);
    }
  }

  /** What each lane of a scan holds once it has shuffled at every offset below `width`. */
  ghost predicate ScannedTo<T>(m: Monoid<T>, values: seq<T>, width: nat, lanes: seq<T>) {
    && width > 0 && |lanes| == |values|
    && forall i :: 0 <= i < |values| ==> lanes[i] == Fold(m, UpTo(values, i, width))
  }

  lemma ScanStarts<T(!new)>(m: Monoid<T>, values: seq<T>)
    requires Lawful(m)
    ensures ScannedTo(m, values, 1, values)
  {
    forall i | 0 <= i < |values| ensures values[i] == Fold(m, UpTo(values, i, 1)) {
      assert UpTo(values, i, 1) == [values[i]];
      FoldOne(m, values[i]);
    }
  }

  function ScanStep<T>(m: Monoid<T>, lanes: seq<T>, offset: nat): (r: seq<T>)
    ensures |r| == |lanes|
  {
    var below := Lowered(lanes, offset);
    seq(|lanes|, i requires 0 <= i < |lanes| =>
      if i >= offset then m.combine(below[i], lanes[i]) else lanes[i])
  }

  lemma ScanSteps<T(!new)>(m: Monoid<T>, values: seq<T>, width: nat, lanes: seq<T>)
    requires Lawful(m) && ScannedTo(m, values, width, lanes)
    ensures ScannedTo(m, values, 2 * width, ScanStep(m, lanes, width))
  {
    forall i | 0 <= i < |values|
      ensures ScanStep(m, lanes, width)[i] == Fold(m, UpTo(values, i, 2 * width))
    {
      UpToDoubles(m, values, i, width);
    }
  }

  lemma ScanEnds<T>(m: Monoid<T>, values: seq<T>, width: nat, lanes: seq<T>)
    requires ScannedTo(m, values, width, lanes) && width >= |values|
    ensures forall i :: 0 <= i < |values| ==> lanes[i] == Fold(m, values[..i + 1])
  {
    forall i | 0 <= i < |values| ensures lanes[i] == Fold(m, values[..i + 1]) {
      assert UpTo(values, i, width) == values[..i + 1];
    }
  }

  /** The inclusive scan by shuffles, which needs no commuting. */
  method ShuffledScan<T(!new)>(m: Monoid<T>, values: seq<T>) returns (lanes: seq<T>)
    requires Lawful(m)
    ensures |lanes| == |values|
    ensures forall i :: 0 <= i < |values| ==> lanes[i] == Fold(m, values[..i + 1])
  {
    lanes := values;
    var offset := 1;
    ScanStarts(m, values);
    while offset < |values|
      invariant ScannedTo(m, values, offset, lanes)
    {
      ScanSteps(m, values, offset, lanes);
      lanes := ScanStep(m, lanes, offset);
      offset := 2 * offset;
    }
    ScanEnds(m, values, offset, lanes);
  }

  /** The exclusive scan: the inclusive one lowered by a lane, lane 0 the identity. */
  method Exclusive<T(!new)>(m: Monoid<T>, values: seq<T>) returns (lanes: seq<T>)
    requires Lawful(m)
    ensures |lanes| == |values|
    ensures forall i :: 0 <= i < |values| ==> lanes[i] == Fold(m, values[..i])
  {
    var inclusive := ShuffledScan(m, values);
    var before := Lowered(inclusive, 1);
    lanes := seq(|values|, i requires 0 <= i < |values| => if i == 0 then m.identity else before[i]);
  }

  /** One step of `inclusive_sum`'s instructions: the shuffle's predicate lets only the lanes add that
      received from another, with what they received as the second operand. */
  function PredicatedStep(lanes: seq<I32>, offset: nat): (r: seq<I32>)
    ensures |r| == |lanes|
  {
    seq(|lanes|, i requires 0 <= i < |lanes| =>
      if i >= offset then AddI32(lanes[i], lanes[i - offset]) else lanes[i])
  }

  lemma PredicatedStepScans(lanes: seq<I32>, offset: nat)
    ensures PredicatedStep(lanes, offset) == ScanStep(sumI32, lanes, offset)
  {
    var one, two := PredicatedStep(lanes, offset), ScanStep(sumI32, lanes, offset);
    forall i | 0 <= i < |lanes| ensures one[i] == two[i] {
      if i >= offset {
        assert one[i] == AddI32(lanes[i], lanes[i - offset]);
        assert two[i] == sumI32.combine(lanes[i - offset], lanes[i]);
      }
    }
  }

  method InclusiveSum(values: seq<I32>) returns (lanes: seq<I32>)
    ensures |lanes| == |values|
    ensures forall i :: 0 <= i < |values| ==> lanes[i] == Fold(sumI32, values[..i + 1])
  {
    SumI32Reduces();
    lanes := values;
    var offset := 1;
    ScanStarts(sumI32, values);
    while offset < |values|
      invariant ScannedTo(sumI32, values, offset, lanes)
    {
      ScanSteps(sumI32, values, offset, lanes);
      PredicatedStepScans(lanes, offset);
      lanes := PredicatedStep(lanes, offset);
      offset := 2 * offset;
    }
    ScanEnds(sumI32, values, offset, lanes);
  }

  // ---------------------------------------------------------------- ballots

  // A ballot is a mask word, read here as its bits: lane `i` is `mask[i]`.

  /** How many bits `mask` sets, as a population count. */
  function Count(mask: seq<bool>): nat {
    if |mask| == 0 then 0 else Count(mask[..|mask| - 1]) + if mask[|mask| - 1] then 1 else 0
  }

  /** Find-first-set less one: -1 for an empty mask. */
  function First(mask: seq<bool>): (r: int)
    ensures -1 <= r < |mask|
    ensures r == -1 ==> forall i :: 0 <= i < |mask| ==> !mask[i]
    ensures r >= 0 ==> mask[r] && forall i :: 0 <= i < r ==> !mask[i]
  {
    if |mask| == 0 then -1
    else
      var lower := First(mask[..|mask| - 1]);
      if lower >= 0 then lower else if mask[|mask| - 1] then |mask| - 1 else -1
  }

  /** The population count of a mask's bits under `lane`. */
  function Rank(mask: seq<bool>, lane: nat): nat
    requires lane <= |mask|
  {
    Count(mask[..lane])
  }

  /** A flagged lane's rank is its own: ranks number the flagged lanes 0, 1, 2 in lane order. */
  lemma {:induction false} RankSteps(mask: seq<bool>, low: nat, high: nat)
    requires low <= high <= |mask|
    ensures Rank(mask, high) == Rank(mask, low) + Count(mask[low..high])
    decreases high
  {
    if low < high {
      RankSteps(mask, low, high - 1);
      assert mask[..high][..high - 1] == mask[..high - 1];
      assert mask[low..high][..high - 1 - low] == mask[low..high - 1];
    } else {
      assert mask[low..high] == [];
    }
  }
}
