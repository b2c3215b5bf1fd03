/** The reductions of 64-bit integers by the one instruction that reduces 32-bit ones over a warp
    (src/patos/cuda/primitives/redux.py:125-182). The instruction itself is the fold of the lanes. A sum
    goes by the 16-bit halves of the low words and by the high words, a bitwise operator by the two
    words, a minimum or maximum by the high words and then the low words of the lanes that win. */
module Redux {
  import opened Integers
  import opened Monoids

  /** What every lane of a warp computes of its own value. */
  function Each<A, B>(f: A -> B, lanes: seq<A>): (r: seq<B>)
    ensures |r| == |lanes| && forall i :: 0 <= i < |lanes| ==> r[i] == f(lanes[i])
  {
    seq(|lanes|, i requires 0 <= i < |lanes| => f(lanes[i]))
  }

  lemma EachSnoc<A, B>(f: A -> B, lanes: seq<A>)
    requires |lanes| > 0
    ensures Each(f, lanes) == Each(f, lanes[..|lanes| - 1]) + [f(lanes[|lanes| - 1])]
  {}

  // ---------------------------------------------------------------- sums

  /** The low 16 bits of the low word, its high 16 bits, and the high word. */
  function Masked(v: int): U32 { v % TWO32 % 0x1_0000 }
  function Shifted(v: int): U32 { v % TWO32 / 0x1_0000 }
  function Top(v: int): U32 { ToU32(v / TWO32) }
  function Beyond(v: int): int { v / TWO64 }

  /** The sum of a warp's 64-bit lanes, signed or not, as a 64-bit word. */
  function SumWide(lanes: seq<int>): U64 {
    var small := Fold(sumU32, Each(Masked, lanes));
    var large := Fold(sumU32, Each(Shifted, lanes));
    var high := Fold(sumU32, Each(Top, lanes));
    Joining(small, large, high)
  }

  /** Each operation wraps at 64 bits. */
  function Joining(small: int, large: int, high: int): U64 {
    ToU64(ToU64(small + ToU64(large * 0x1_0000)) + ToU64(high * TWO32))
  }

  lemma PartsOf(v: int)
    ensures v == Masked(v) + 0x1_0000 * Shifted(v) + TWO32 * Top(v) + TWO64 * Beyond(v)
  {}

  lemma {:induction false} SumOfParts(lanes: seq<int>)
    ensures Sum(lanes) == Sum(Each(Masked, lanes)) + 0x1_0000 * Sum(Each(Shifted, lanes))
                        + TWO32 * Sum(Each(Top, lanes)) + TWO64 * Sum(Each(Beyond, lanes))
  {
    if |lanes| > 0 {
      var n := |lanes| - 1;
      SumOfParts(lanes[..n]);
      PartsOf(lanes[n]);
      EachSnoc(Masked, lanes);
      EachSnoc(Shifted, lanes);
      EachSnoc(Top, lanes);
      EachSnoc(Beyond, lanes);
    }
  }

  lemma {:induction false} SumBelow(s: seq<U32>, bound: nat)
    requires forall i :: 0 <= i < |s| ==> s[i] < bound
    ensures 0 <= Sum(s) <= |s| * bound
  {
    if |s| > 0 {
      var n := |s| - 1;
      SumBelow(s[..n], bound);
      assert |s| * bound == n * bound + bound;
    }
  }

  /** Neither half of the low words overflows its 32 bits. */
  lemma NoPartialOverflow(lanes: seq<int>)
    requires |lanes| <= 0x1_0000
    ensures Fold(sumU32, Each(Masked, lanes)) == Sum(Each(Masked, lanes))
    ensures Fold(sumU32, Each(Shifted, lanes)) == Sum(Each(Shifted, lanes))
  {
    FoldSumU32(Each(Masked, lanes));
    FoldSumU32(Each(Shifted, lanes));
    SumBelow16(Each(Masked, lanes));
    SumBelow16(Each(Shifted, lanes));
  }

  lemma SumBelow16(s: seq<U32>)
    requires |s| <= 0x1_0000 && forall i :: 0 <= i < |s| ==> s[i] < 0x1_0000
    ensures 0 <= Sum(s) < TWO32
  {
    if |s| > 0 {
      var n := |s| - 1;
      SumBelow(s[..n], 0x1_0000);
      SumBelow(s, 0x1_0000);
      assert n * 0x1_0000 <= 0xFFFF * 0x1_0000;
    }
  }

  /** The sum is exact modulo 2^64. */
  lemma SumWideIsExact(lanes: seq<int>)
    requires |lanes| <= 0x1_0000
    ensures SumWide(lanes) == ToU64(Sum(lanes))
  {
    hide *;
    NoPartialOverflow(lanes);
    FoldSumU32(Each(Top, lanes));
    SumOfParts(lanes);
    SumWideJoins(lanes);
    Joined(Sum(Each(Masked, lanes)), Sum(Each(Shifted, lanes)), Sum(Each(Top, lanes)), Sum(Each(Beyond, lanes)),
           Sum(lanes));
  }

  lemma SumWideJoins(lanes: seq<int>)
    ensures SumWide(lanes) == Joining(Fold(sumU32, Each(Masked, lanes)), Fold(sumU32, Each(Shifted, lanes)),
                                      Fold(sumU32, Each(Top, lanes)))
  {
    hide Fold, Each, Joining;
  }

  lemma Joined(a: int, b: int, c: int, k: int, total: int)
    requires 0 <= a < TWO32 && 0 <= b < TWO32 && total == a + 0x1_0000 * b + TWO32 * c + TWO64 * k
    ensures Joining(a, b, ToU32(c)) == ToU64(total)
  {
    Fits(a, b, ToU32(c));
    var x := a + 0x1_0000 * b + ToU32(c) * TWO32;
    assert c == ToU32(c) + TWO32 * (c / TWO32);
    assert total == x + TWO64 * (c / TWO32 + k);
    AddMultiple(x, c / TWO32 + k);
  }

  lemma Fits(a: int, b: int, c: int)
    requires 0 <= a < TWO32 && 0 <= b < TWO32 && 0 <= c < TWO32
    ensures Joining(a, b, c) == ToU64(a + 0x1_0000 * b + c * TWO32)
  {
    assert ToU64(b * 0x1_0000) == b * 0x1_0000;
    assert ToU64(c * TWO32) == c * TWO32;
  }

  lemma AddMultiple(x: int, k: int)
    ensures ToU64(x + TWO64 * k) == ToU64(x)
    ensures ToI64(x + TWO64 * k) == ToI64(x)
  {
    ModUnique(TWO64, x + TWO64 * k, x / TWO64 + k, x % TWO64);
    var y := x + 0x8000_0000_0000_0000;
    ModUnique(TWO64, y + TWO64 * k, y / TWO64 + k, y % TWO64);
  }

  /** It is what the butterfly of the wrapping sum reduces a warp to, unsigned and signed. */
  lemma SumWideIsFold(lanes: seq<U64>)
    requires |lanes| <= 0x1_0000
    ensures SumWide(lanes) == Fold(sumU64, lanes)
  {
    SumWideIsExact(lanes);
    FoldSumU64(lanes);
  }

  lemma SignedSumWideIsFold(lanes: seq<I64>)
    requires |lanes| <= 0x1_0000
    ensures ToI64(SumWide(lanes)) == Fold(sumI64, lanes)
  {
    hide Fold, Sum, ToI64, SumWide;
    SumWideIsExact(lanes);
    FoldSumI64(lanes);
    var s := Sum(lanes);
    AddMultiple(s, -(s / TWO64));
  }

  // ---------------------------------------------------------------- the two words of a word

  function Low(v: bv64): bv32 { (v & 0xFFFF_FFFF) as bv32 }
  function High(v: bv64): bv32 { (v >> 32) as bv32 }
  function Join(low: bv32, high: bv32): bv64 { ((high as bv64) << 32) | (low as bv64) }

  /** A bitwise operator on each half. */
  function Halves(half: Monoid<bv32>, lanes: seq<bv64>): bv64 {
    Join(Fold(half, Each(Low, lanes)), Fold(half, Each(High, lanes)))
  }

  ghost predicate Splits(half: Monoid<bv32>, whole: Monoid<bv64>) {
    && Join(half.identity, half.identity) == whole.identity
    && forall l: bv32, h: bv32, v: bv64 :: SplitsAt(half, whole, l, h, v)
  }

  ghost predicate SplitsAt(half: Monoid<bv32>, whole: Monoid<bv64>, l: bv32, h: bv32, v: bv64) {
    Join(half.combine(l, Low(v)), half.combine(h, High(v))) == whole.combine(Join(l, h), v)
  }

  lemma {:induction false} HalvesAreExact(half: Monoid<bv32>, whole: Monoid<bv64>, lanes: seq<bv64>)
    requires Splits(half, whole)
    ensures Halves(half, lanes) == Fold(whole, lanes)
  {
    if |lanes| > 0 {
      var n := |lanes| - 1;
      HalvesAreExact(half, whole, lanes[..n]);
      EachSnoc(Low, lanes);
      EachSnoc(High, lanes);
      var l, h := Fold(half, Each(Low, lanes[..n])), Fold(half, Each(High, lanes[..n]));
      assert SplitsAt(half, whole, l, h, lanes[n]);
      FoldSnoc(half, Each(Low, lanes[..n]), Low(lanes[n]));
      FoldSnoc(half, Each(High, lanes[..n]), High(lanes[n]));
    }
  }

  lemma AndSplits(l: bv32, h: bv32, v: bv64)
    ensures Join(And32(l, Low(v)), And32(h, High(v))) == And64(Join(l, h), v)
  {}

  lemma OrSplits(l: bv32, h: bv32, v: bv64)
    ensures Join(Or32(l, Low(v)), Or32(h, High(v))) == Or64(Join(l, h), v)
  {}

  lemma XorSplits(l: bv32, h: bv32, v: bv64)
    ensures Join(Xor32(l, Low(v)), Xor32(h, High(v))) == Xor64(Join(l, h), v)
  {}

  /** Halves reduced apart and joined are the whole words reduced. */
  lemma HalvesMeanBitwise(lanes: seq<bv64>)
    ensures Halves(and32, lanes) == Fold(and64, lanes)
    ensures Halves(or32, lanes) == Fold(or64, lanes)
    ensures Halves(xor32, lanes) == Fold(xor64, lanes)
  {
    forall l, h, v ensures SplitsAt(and32, and64, l, h, v) { AndSplits(l, h, v); }
    forall l, h, v ensures SplitsAt(or32, or64, l, h, v) { OrSplits(l, h, v); }
    forall l, h, v ensures SplitsAt(xor32, xor64, l, h, v) { XorSplits(l, h, v); }
    HalvesAreExact(and32, and64, lanes);
    HalvesAreExact(or32, or64, lanes);
    HalvesAreExact(xor32, xor64, lanes);
  }

  // ---------------------------------------------------------------- extremes

  predicate Prefers(least: bool, a: int, b: int) { if least then a < b else b < a }

  /** The minimum or maximum of the lanes, as the one instruction gives it for 32-bit words. */
  function Extreme(least: bool, lanes: seq<int>): int
    requires |lanes| > 0
  {
    var n := |lanes| - 1;
    if n == 0 then lanes[0]
    else
      var r := Extreme(least, lanes[..n]);
      if Prefers(least, lanes[n], r) then lanes[n] else r
  }

  /** `r` is a lane and none is preferred to it. */
  ghost predicate IsBest(least: bool, r: int, lanes: seq<int>) {
    r in lanes && forall i :: 0 <= i < |lanes| ==> !Prefers(least, lanes[i], r)
  }

  lemma {:induction false} ExtremeIsBest(least: bool, lanes: seq<int>)
    requires |lanes| > 0
    ensures IsBest(least, Extreme(least, lanes), lanes)
  {
    var n := |lanes| - 1;
    if n > 0 {
      ExtremeIsBest(least, lanes[..n]);
      forall i | 0 <= i < |lanes| ensures !Prefers(least, lanes[i], Extreme(least, lanes)) {
        if i < n { assert !Prefers(least, lanes[..n][i], Extreme(least, lanes[..n])); }
      }
    }
  }

  lemma BestIsUnique(least: bool, r: int, q: int, lanes: seq<int>)
    requires IsBest(least, r, lanes) && IsBest(least, q, lanes)
    ensures r == q
  {
    var i, j :| 0 <= i < |lanes| && lanes[i] == r && 0 <= j < |lanes| && lanes[j] == q;
    assert !Prefers(least, lanes[i], q) && !Prefers(least, lanes[j], r);
  }

  /** The word no unsigned one comes after in the order: the operator's identity. */
  function Last(least: bool): int { if least then 0xFFFF_FFFF else 0 }

  /** The high word, signed where the value is, and what a lane gives of its low one. */
  function Upper(v: int): int { v / TWO32 }
  function LowOf(least: bool, best: int, v: int): int { if Upper(v) != best then Last(least) else ToU32(v) }

  function JoinedWords(signed: bool, low: int, high: int): int {
    var word := low + ToU32(high) * TWO32;
    if signed then ToI64(word) else word
  }

  /** The minimum or maximum of a warp's 64-bit lanes: of the high words, then of the low words of
      the lanes that hold that high word. */
  function ExtremeWide(least: bool, signed: bool, lanes: seq<int>): int
    requires |lanes| > 0
  {
    var best := Extreme(least, Each(Upper, lanes));
    JoinedWords(signed, Extreme(least, Each(v => LowOf(least, best, v), lanes)), best)
  }

  predicate Fits64(signed: bool, v: int) {
    if signed then -0x8000_0000_0000_0000 <= v < 0x8000_0000_0000_0000 else 0 <= v < TWO64
  }

  lemma JoinedIs(signed: bool, v: int)
    requires Fits64(signed, v)
    ensures JoinedWords(signed, ToU32(v), Upper(v)) == v
  {}

  lemma OrderOfParts(least: bool, a: int, b: int)
    ensures Prefers(least, a, b) <==>
      || Prefers(least, Upper(a), Upper(b))
      || (Upper(a) == Upper(b) && Prefers(least, ToU32(a), ToU32(b)))
  {}

  /** It is the warp's minimum or maximum, signed or unsigned. */
  lemma ExtremeWideIsExact(least: bool, signed: bool, lanes: seq<int>)
    requires |lanes| > 0 && forall i :: 0 <= i < |lanes| ==> Fits64(signed, lanes[i])
    ensures ExtremeWide(least, signed, lanes) == Extreme(least, lanes)
  {
    var tops := Each(Upper, lanes);
    var best := Extreme(least, tops);
    var lows := Each(v => LowOf(least, best, v), lanes);
    var low := Extreme(least, lows);
    ExtremeIsBest(least, tops);
    ExtremeIsBest(least, lows);
    var i :| 0 <= i < |lanes| && tops[i] == best;
    var j :| 0 <= j < |lanes| && lows[j] == low;
    assert !Prefers(least, lows[i], low);
    hide Extreme, Prefers, JoinedWords, Upper, ToU32, Fits64;
    var k := HeldByALane(least, best, low, lanes, i, j);
    JoinedIs(signed, lanes[k]);
    forall h | 0 <= h < |lanes| ensures !Prefers(least, lanes[h], lanes[k]) {
      OrderOfParts(least, lanes[h], lanes[k]);
      assert !Prefers(least, tops[h], best) && !Prefers(least, lows[h], low);
    }
    ExtremeIsBest(least, lanes);
    BestIsUnique(least, lanes[k], Extreme(least, lanes), lanes);
  }

  /** The joined words are a lane's: where the low one came from a lane without the best high word
      it is the identity, and the lane that holds the best high word can hold no other. */
  lemma HeldByALane(least: bool, best: int, low: int, lanes: seq<int>, i: nat, j: nat) returns (k: nat)
    requires i < |lanes| && j < |lanes| && Upper(lanes[i]) == best && LowOf(least, best, lanes[j]) == low
    requires !Prefers(least, LowOf(least, best, lanes[i]), low)
    ensures k < |lanes| && Upper(lanes[k]) == best && ToU32(lanes[k]) == low
  {
    k := if Upper(lanes[j]) == best then j else i;
  }

  // ---------------------------------------------------------------- the built-in extremes

  lemma {:induction false} ExtremeIsFoldU64(lanes: seq<U64>)
    requires |lanes| > 0
    ensures Extreme(true, lanes) == Fold(minU64, lanes) && Extreme(false, lanes) == Fold(maxU64, lanes)
  {
    if |lanes| > 1 { ExtremeIsFoldU64(lanes[..|lanes| - 1]); }
  }

  lemma {:induction false} ExtremeIsFoldI64(lanes: seq<I64>)
    requires |lanes| > 0
    ensures Extreme(true, lanes) == Fold(minI64, lanes) && Extreme(false, lanes) == Fold(maxI64, lanes)
  {
    if |lanes| > 1 { ExtremeIsFoldI64(lanes[..|lanes| - 1]); }
  }

  /** So a warp reduces by them to what a butterfly of the operator would. */
  lemma ExtremeWideIsFold(lanes: seq<U64>)
    requires |lanes| > 0
    ensures ExtremeWide(true, false, lanes) == Fold(minU64, lanes)
    ensures ExtremeWide(false, false, lanes) == Fold(maxU64, lanes)
  {
    ExtremeWideIsExact(true, false, lanes);
    ExtremeWideIsExact(false, false, lanes);
    ExtremeIsFoldU64(lanes);
  }

  lemma SignedExtremeWideIsFold(lanes: seq<I64>)
    requires |lanes| > 0
    ensures ExtremeWide(true, true, lanes) == Fold(minI64, lanes)
    ensures ExtremeWide(false, true, lanes) == Fold(maxI64, lanes)
  {
    ExtremeWideIsExact(true, true, lanes);
    ExtremeWideIsExact(false, true, lanes);
    ExtremeIsFoldI64(lanes);
  }
}
