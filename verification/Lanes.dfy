/** Operations on the packed lanes of a 32-bit word (src/patos/cuda/primitives/bits.py:26-133,
    204-247), each proved lane by lane: nothing borrows across a lane. */
module Lanes {
  import opened Bytes
  import opened Integers
  import opened Monoids
  import opened Words

  /** The instruction that picks four bytes out of eight: bit 3 of a nibble picks the byte's sign. */
  function Picked(low: nat, high: nat, nibble: nat): (b: nat)
    ensures b < 0x100
  {
    var b := if nibble % 8 < 4 then Byte(low, nibble % 8) else Byte(high, nibble % 8 - 4);
    if nibble < 8 then b else SignOf(b)
  }

  function SignOf(b: nat): (r: nat)
    ensures r < 0x100
  {
    if b >= 0x80 then 0xFF else 0
  }

  function Permute(low: nat, high: nat, selector: nat): nat {
    Picked(low, high, selector % 0x10) + 0x100 * Picked(low, high, selector / 0x10 % 0x10)
    + 0x1_0000 * Picked(low, high, selector / 0x100 % 0x10) + 0x100_0000 * Picked(low, high, selector / 0x1000 % 0x10)
  }

  // ---------------------------------------------------------------- comparing bytes

  /** The rounded mean of each byte of `a` and of `b` inverted, before the subtraction wraps. */
  function MeanRaw(a: nat, b: nat, n: nat): int {
    var flipped := Xor(b, Spread(0xFF, n));
    Or(a, flipped) - And(Xor(a, flipped), Spread(0xFE, n)) / 2
  }

  function ByteMean(a: nat, b: nat): (r: nat)
    requires a < 0x100 && b < 0x100
    ensures r < 0x100 && (r >= 0x80 <==> a >= b)
  {
    (a + (0xFF - b) + (a + (0xFF - b)) % 2) / 2
  }

  function AtLeast(a: nat, b: nat): nat { Permute(Wrapped(MeanRaw(a, b, 4), 4), 0, 0xBA98) }

  lemma AndEven(a: nat, b: nat)
    requires b % 2 == 0
    ensures And(a, b) % 2 == 0
  {
    BitsStep(AndGate, a, b);
  }

  /** A byte's mean needs nine bits only on the way. */
  lemma MeanOfByte(a: nat, b: nat)
    requires a < 0x100 && b < 0x100
    ensures Or(a, 0xFF - b) - And(Xor(a, 0xFF - b), 0xFE) / 2 == ByteMean(a, b)
  {
    hide Bits;
    var f := 0xFF - b;
    BitsOfTops(XorGate, a, f);
    ByteEven(Xor(a, f));
    OrIsMean(a, f);
  }

  /** Halving a word of even bytes halves each. */
  lemma HalvedEven(low: nat, high: nat)
    requires low % 2 == 0 && high % 2 == 0
    ensures (low + 0x100 * high) / 2 == low / 2 + 0x100 * (high / 2)
  {}

  lemma EvenSpread(n: nat)
    ensures Spread(0xFE, n) % 2 == 0
  {}

  lemma MeanSplit(a: nat, b: nat, n: nat)
    requires n > 0
    ensures MeanRaw(a, b, n) == ByteMean(a % 0x100, b % 0x100) + 0x100 * MeanRaw(a / 0x100, b / 0x100, n - 1)
  {
    hide Bits, Spread, ByteMean;
    var ones, evens := Spread(0xFF, n), Spread(0xFE, n);
    SpreadSplit(0xFF, n);
    SpreadSplit(0xFE, n);
    var f := Xor(b, ones);
    BitsOfBytes(XorGate, b, ones);
    ByteInverted(b % 0x100);
    var x := Xor(a, f);
    BitsOfBytes(XorGate, a, f);
    BitsOfBytes(OrGate, a, f);
    BitsOfBytes(AndGate, x, evens);
    EvenSpread(n - 1);
    AndEven(x % 0x100, 0xFE);
    AndEven(x / 0x100, Spread(0xFE, n - 1));
    Whole(Or(a, f));
    Whole(And(x, evens));
    HalvedEven(And(x % 0x100, 0xFE), And(x / 0x100, Spread(0xFE, n - 1)));
    MeanOfByte(a % 0x100, b % 0x100);
  }

  lemma Stacked(low: int, high: int, n: nat)
    requires n > 0 && 0 <= low < 0x100 && 0 <= high < Base(n - 1)
    ensures 0 <= low + 0x100 * high < Base(n)
  {}

  lemma {:induction false} MeanBounds(a: nat, b: nat, n: nat)
    requires a < Base(n) && b < Base(n)
    ensures 0 <= MeanRaw(a, b, n) < Base(n)
  {
    if n > 0 {
      hide MeanRaw, ByteMean;
      BaseSplit(a, n);
      BaseSplit(b, n);
      MeanBounds(a / 0x100, b / 0x100, n - 1);
      MeanSplit(a, b, n);
      Stacked(ByteMean(a % 0x100, b % 0x100), MeanRaw(a / 0x100, b / 0x100, n - 1), n);
    }
  }

  /** The top bit of a byte of the mean says which byte is greater. */
  lemma {:induction false} MeanTops(a: nat, b: nat, n: nat, i: nat)
    requires a < Base(n) && b < Base(n) && i < n
    ensures 0 <= MeanRaw(a, b, n)
    ensures Byte(MeanRaw(a, b, n), i) >= 0x80 <==> Byte(a, i) >= Byte(b, i)
  {
    hide MeanRaw, ByteMean;
    MeanBounds(a, b, n);
    BaseSplit(a, n);
    BaseSplit(b, n);
    MeanBounds(a / 0x100, b / 0x100, n - 1);
    MeanSplit(a, b, n);
    Parts(MeanRaw(a, b, n), ByteMean(a % 0x100, b % 0x100), MeanRaw(a / 0x100, b / 0x100, n - 1));
    if i > 0 { MeanTops(a / 0x100, b / 0x100, n - 1, i - 1); }
  }

  function IfAtLeast(): (nat, nat) -> nat { (x, y) => if x >= y then 0xFF else 0 }

  lemma BothOf4(f: (nat, nat) -> nat, a: nat, b: nat)
    ensures Both(f, a, b, 4) == f(Byte(a, 0), Byte(b, 0)) + 0x100 * f(Byte(a, 1), Byte(b, 1))
                              + 0x1_0000 * f(Byte(a, 2), Byte(b, 2)) + 0x100_0000 * f(Byte(a, 3), Byte(b, 3))
  {
    BothStep(f, a, b, 4);
    BothStep(f, a / 0x100, b / 0x100, 3);
    BothStep(f, a / 0x100 / 0x100, b / 0x100 / 0x100, 2);
    BothStep(f, a / 0x100 / 0x100 / 0x100, b / 0x100 / 0x100 / 0x100, 1);
    ByteSteps(a);
    ByteSteps(b);
  }

  lemma BothStep(f: (nat, nat) -> nat, a: nat, b: nat, n: nat)
    requires n > 0
    ensures Both(f, a, b, n) == f(a % 0x100, b % 0x100) + 0x100 * Both(f, a / 0x100, b / 0x100, n - 1)
  {}

  lemma ByteSteps(a: nat)
    ensures Byte(a, 0) == a % 0x100 && Byte(a, 1) == a / 0x100 % 0x100
    ensures Byte(a, 2) == a / 0x100 / 0x100 % 0x100 && Byte(a, 3) == a / 0x100 / 0x100 / 0x100 % 0x100
  {}

  /** A byte is all ones exactly where `a`'s is at least `b`'s, and clear elsewhere. */
  lemma AtLeastIsExact(a: nat, b: nat)
    requires a < Base(4) && b < Base(4)
    ensures AtLeast(a, b) == Both(IfAtLeast(), a, b, 4)
  {
    hide MeanRaw, Byte, Base, Both, Wrapped;
    MeanBounds(a, b, 4);
    WrappedFits(MeanRaw(a, b, 4), 4);
    SelectsSigns(MeanRaw(a, b, 4));
    BothOf4(IfAtLeast(), a, b);
    MeanTops(a, b, 4, 0);
    MeanTops(a, b, 4, 1);
    MeanTops(a, b, 4, 2);
    MeanTops(a, b, 4, 3);
  }

  lemma SelectsSigns(word: nat)
    ensures Permute(word, 0, 0xBA98) ==
      SignOf(Byte(word, 0)) + 0x100 * SignOf(Byte(word, 1)) + 0x1_0000 * SignOf(Byte(word, 2)) + 0x100_0000 * SignOf(Byte(word, 3))
  {
    hide Picked, SignOf, Byte;
    PickedSign(word, 0);
    PickedSign(word, 1);
    PickedSign(word, 2);
    PickedSign(word, 3);
  }

  lemma PickedSign(word: nat, i: nat)
    requires i < 4
    ensures Picked(word, 0, 8 + i) == SignOf(Byte(word, i))
  {
    hide Byte, SignOf;
    assert (8 + i) % 8 == i;
  }

  // ---------------------------------------------------------------- minimum and maximum

  function MinLanes(a: nat, b: nat): nat { Xor(a, And(Xor(a, b), AtLeast(a, b))) }
  function MaxLanes(a: nat, b: nat): nat { Xor(b, And(Xor(a, b), AtLeast(a, b))) }

  function Lower(): (nat, nat) -> nat { (x, y) => if x < y then x else y }
  function Higher(): (nat, nat) -> nat { (x, y) => if x < y then y else x }

  lemma SelectsByte(a: nat, b: nat)
    requires a < 0x100 && b < 0x100
    ensures Xor(a, And(Xor(a, b), IfAtLeast()(a, b))) == Lower()(a, b)
    ensures Xor(b, And(Xor(a, b), IfAtLeast()(a, b))) == Higher()(a, b)
  {
    hide Bits;
    BitsOfTops(XorGate, a, b);
    ByteMasks(Xor(a, b));
    BitsWithZero(Xor(a, b));
    BitsWithZero(a);
    BitsWithZero(b);
    XorCancels(a, b);
    XorCancels(b, a);
    XorCommutes(a, b);
  }

  lemma SelectSplit(c: nat, a: nat, b: nat, mask: nat)
    ensures Xor(c, And(Xor(a, b), mask)) ==
      Xor(c % 0x100, And(Xor(a % 0x100, b % 0x100), mask % 0x100))
      + 0x100 * Xor(c / 0x100, And(Xor(a / 0x100, b / 0x100), mask / 0x100))
  {
    hide Bits;
    BitsOfBytes(XorGate, a, b);
    BitsOfBytes(AndGate, Xor(a, b), mask);
    BitsOfBytes(XorGate, c, And(Xor(a, b), mask));
    Whole(Xor(c, And(Xor(a, b), mask)));
  }

  lemma {:induction false} SelectsBytes(a: nat, b: nat, n: nat)
    requires a < Base(n) && b < Base(n)
    ensures Xor(a, And(Xor(a, b), Both(IfAtLeast(), a, b, n))) == Both(Lower(), a, b, n)
    ensures Xor(b, And(Xor(a, b), Both(IfAtLeast(), a, b, n))) == Both(Higher(), a, b, n)
  {
    if n == 0 {
      BitsWithZero(0);
    } else {
      BaseSplit(a, n);
      BaseSplit(b, n);
      SelectsBytes(a / 0x100, b / 0x100, n - 1);
      var mask := Both(IfAtLeast(), a, b, n);
      BothStep(IfAtLeast(), a, b, n);
      Parts(mask, IfAtLeast()(a % 0x100, b % 0x100), Both(IfAtLeast(), a / 0x100, b / 0x100, n - 1));
      hide Bits, Both;
      SelectSplit(a, a, b, mask);
      SelectSplit(b, a, b, mask);
      SelectsByte(a % 0x100, b % 0x100);
      BothStep(Lower(), a, b, n);
      BothStep(Higher(), a, b, n);
    }
  }

  /** The minimum and the maximum of each pair of bytes. */
  lemma ExtremesAreExact(a: nat, b: nat)
    requires a < Base(4) && b < Base(4)
    ensures MinLanes(a, b) == Both(Lower(), a, b, 4) && MaxLanes(a, b) == Both(Higher(), a, b, 4)
  {
    AtLeastIsExact(a, b);
    SelectsBytes(a, b, 4);
    hide Bits, Both, AtLeast;
  }

  // ---------------------------------------------------------------- bytes as monoids

  lemma Word32()
    ensures Base(4) == TWO32
  {
    assert Base(2) == 0x1_0000;
  }

  function BytesMinimum(a: U32, b: U32): U32 {
    Word32();
    ExtremesAreExact(a, b);
    BothBelow(Lower(), a, b, 4);
    MinLanes(a, b)
  }

  function BytesMaximum(a: U32, b: U32): U32 {
    Word32();
    ExtremesAreExact(a, b);
    BothBelow(Higher(), a, b, 4);
    MaxLanes(a, b)
  }

  const bytesMin: Monoid<U32> := Monoid(BytesMinimum, 0xFFFF_FFFF)
  const bytesMax: Monoid<U32> := Monoid(BytesMaximum, 0)

  /** An operator on bytes with its identity. */
  ghost predicate ByteMonoid(f: (nat, nat) -> nat, identity: nat) {
    && identity < 0x100
    && (forall x, y :: ByteCommutes(f, x, y))
    && (forall x, y, z :: ByteAssociates(f, x, y, z))
    && (forall x :: ByteKeeps(f, identity, x))
  }

  predicate ByteCommutes(f: (nat, nat) -> nat, x: nat, y: nat) {
    x < 0x100 && y < 0x100 ==> f(x, y) < 0x100 && f(x, y) == f(y, x)
  }

  predicate ByteAssociates(f: (nat, nat) -> nat, x: nat, y: nat, z: nat) {
    x < 0x100 && y < 0x100 && z < 0x100 ==> f(f(x, y), z) == f(x, f(y, z))
  }

  predicate ByteKeeps(f: (nat, nat) -> nat, identity: nat, x: nat) { x < 0x100 ==> f(identity, x) == x }

  lemma BothParts(f: (nat, nat) -> nat, a: nat, b: nat, n: nat)
    requires n > 0 && f(a % 0x100, b % 0x100) < 0x100
    ensures Both(f, a, b, n) % 0x100 == f(a % 0x100, b % 0x100)
    ensures Both(f, a, b, n) / 0x100 == Both(f, a / 0x100, b / 0x100, n - 1)
  {
    BothStep(f, a, b, n);
    Parts(Both(f, a, b, n), f(a % 0x100, b % 0x100), Both(f, a / 0x100, b / 0x100, n - 1));
  }

  lemma {:induction false} BothAssociates(f: (nat, nat) -> nat, identity: nat, a: nat, b: nat, c: nat, n: nat)
    requires ByteMonoid(f, identity)
    ensures Both(f, Both(f, a, b, n), c, n) == Both(f, a, Both(f, b, c, n), n)
  {
    if n > 0 {
      BothAssociates(f, identity, a / 0x100, b / 0x100, c / 0x100, n - 1);
      var x, y, z := a % 0x100, b % 0x100, c % 0x100;
      assert ByteAssociates(f, x, y, z) && ByteCommutes(f, x, y) && ByteCommutes(f, y, z);
      BothParts(f, a, b, n);
      BothParts(f, b, c, n);
      BothStep(f, Both(f, a, b, n), c, n);
      BothStep(f, a, Both(f, b, c, n), n);
      hide Both, ByteMonoid;
    }
  }

  lemma {:induction false} BothCommutes(f: (nat, nat) -> nat, identity: nat, a: nat, b: nat, n: nat)
    requires ByteMonoid(f, identity)
    ensures Both(f, a, b, n) == Both(f, b, a, n)
  {
    if n > 0 {
      assert ByteCommutes(f, a % 0x100, b % 0x100);
      BothCommutes(f, identity, a / 0x100, b / 0x100, n - 1);
    }
  }

  lemma {:induction false} BothIdentity(f: (nat, nat) -> nat, identity: nat, a: nat, n: nat)
    requires ByteMonoid(f, identity) && a < Base(n)
    ensures Both(f, Spread(identity, n), a, n) == a
  {
    if n > 0 {
      assert ByteKeeps(f, identity, a % 0x100);
      BaseSplit(a, n);
      BothIdentity(f, identity, a / 0x100, n - 1);
      SpreadSplit(identity, n);
      BothStep(f, Spread(identity, n), a, n);
      Whole(a);
      hide Both, Spread, Base, ByteMonoid;
    }
  }

  lemma WordIdentities()
    ensures Spread(0xFF, 4) == 0xFFFF_FFFF && Spread(0, 4) == 0
  {
    assert Spread(0xFF, 2) == 0xFFFF && Spread(0, 2) == 0;
  }

  /** The engines may reduce and scan words by their bytes. */
  lemma BytesReduce()
    ensures Reduces(bytesMin) && Reduces(bytesMax)
  {
    forall a: U32, b: U32, c: U32 ensures Associates(bytesMin, a, b, c) { BytesReduceAt(a, b, c); }
    forall a: U32, b: U32, c: U32 ensures Associates(bytesMax, a, b, c) { BytesReduceAt(a, b, c); }
    forall a: U32, b: U32 ensures Commutes(bytesMin, a, b) { BytesReduceAt(a, b, b); }
    forall a: U32, b: U32 ensures Commutes(bytesMax, a, b) { BytesReduceAt(a, b, b); }
    hide BytesMinimum, BytesMaximum;
    forall a: U32
      ensures bytesMin.combine(bytesMin.identity, a) == a && bytesMin.combine(a, bytesMin.identity) == a
      ensures bytesMax.combine(bytesMax.identity, a) == a && bytesMax.combine(a, bytesMax.identity) == a
    {
      BytesReduceAt(a, a, a);
      assert Commutes(bytesMin, bytesMin.identity, a) && Commutes(bytesMax, bytesMax.identity, a);
    }
  }

  lemma BytesReduceAt(a: U32, b: U32, c: U32)
    ensures Associates(bytesMin, a, b, c) && Commutes(bytesMin, a, b) && bytesMin.combine(bytesMin.identity, a) == a
    ensures Associates(bytesMax, a, b, c) && Commutes(bytesMax, a, b) && bytesMax.combine(bytesMax.identity, a) == a
  {
    Word32();
    WordIdentities();
    hide Both, Spread, MinLanes, MaxLanes, Base;
    ExtremesAreExact(a, b);
    ExtremesAreExact(b, a);
    ExtremesAreExact(b, c);
    ExtremesAreExact(BytesMinimum(a, b), c);
    ExtremesAreExact(a, BytesMinimum(b, c));
    ExtremesAreExact(BytesMaximum(a, b), c);
    ExtremesAreExact(a, BytesMaximum(b, c));
    ExtremesAreExact(0xFFFF_FFFF, a);
    ExtremesAreExact(0, a);
    BothAssociates(Lower(), 0xFF, a, b, c, 4);
    BothAssociates(Higher(), 0, a, b, c, 4);
    BothCommutes(Lower(), 0xFF, a, b, 4);
    BothCommutes(Higher(), 0, a, b, 4);
    BothIdentity(Lower(), 0xFF, a, 4);
    BothIdentity(Higher(), 0, a, 4);
  }

  /** Reduced, each byte is the lowest of the lanes' bytes there, or the highest. */
  lemma {:induction false} BytesMinPerLane(words: seq<U32>, i: nat)
    requires i < 4 && |words| > 0
    ensures var least := Byte(Fold(bytesMin, words), i);
      && (exists k :: 0 <= k < |words| && Byte(words[k], i) == least)
      && forall k :: 0 <= k < |words| ==> least <= Byte(words[k], i)
  {
    hide Byte, BytesMinimum;
    var n := |words| - 1;
    var before, last := Fold(bytesMin, words[..n]), words[n];
    ByteOfMinimum(before, last, i);
    if n == 0 {
      BytesReduceAt(last, last, last);
    } else {
      BytesMinPerLane(words[..n], i);
      hide Fold;
      var k :| 0 <= k < n && Byte(words[..n][k], i) == Byte(before, i);
      assert words[..n][k] == words[k];
      forall j | 0 <= j < n ensures Byte(before, i) <= Byte(words[j], i) { assert words[..n][j] == words[j]; }
    }
  }

  lemma ByteOfMinimum(a: U32, b: U32, i: nat)
    requires i < 4
    ensures Byte(BytesMinimum(a, b), i) == Lower()(Byte(a, i), Byte(b, i))
  {
    Word32();
    ExtremesAreExact(a, b);
    ByteOfBoth(Lower(), a, b, 4, i);
  }

  // ---------------------------------------------------------------- absolute differences

  function Distance(a: int, b: int): nat { if a < b then b - a else a - b }

  function Distances(): (nat, nat) -> nat { (x, y) => Distance(x, y) }

  /** The instruction for unsigned bytes, and the form signed ones take to it. */
  function AbsDiffU8(a: nat, b: nat): nat { Both(Distances(), a, b, 4) }

  function Biased(lanes: nat): nat { Xor(lanes, Spread(0x80, 4)) }

  function AbsDiffI8(a: nat, b: nat): nat { AbsDiffU8(Biased(a), Biased(b)) }

  function SignedByte(b: nat): int { if b < 0x80 then b else b - 0x100 }

  lemma {:induction false} BiasedByte(word: nat, n: nat, i: nat)
    requires i < n
    ensures Byte(Xor(word, Spread(0x80, n)), i) == SignedByte(Byte(word, i)) + 0x80
  {
    hide Bits, Spread;
    SpreadSplit(0x80, n);
    BitsOfBytes(XorGate, word, Spread(0x80, n));
    ByteBiased(word % 0x100);
    if i > 0 { BiasedByte(word / 0x100, n - 1, i - 1); }
  }

  /** Biased, signed bytes are as far apart as they were. */
  lemma AbsDiffI8IsExact(a: nat, b: nat, i: nat)
    requires i < 4
    ensures Byte(AbsDiffI8(a, b), i) == Distance(SignedByte(Byte(a, i)), SignedByte(Byte(b, i)))
  {
    hide Xor, Spread;
    BiasedByte(a, 4, i);
    BiasedByte(b, 4, i);
    ByteOfBoth(Distances(), Biased(a), Biased(b), 4, i);
  }

  function SignedHalf(h: int): int { if h < 0x8000 then h else h - 0x1_0000 }

  /** Halves apart: the low ones' difference and the high ones', put together by a selection. */
  function AbsDiffU16(a: nat, b: nat): nat {
    Permute(Distance(a % 0x1_0000, b % 0x1_0000), Distance(a / 0x1_0000, b / 0x1_0000), 0x5410)
  }

  function AbsDiffI16(a: nat, b: nat): nat {
    Permute(Distance(SignedHalf(a % 0x1_0000), SignedHalf(b % 0x1_0000)),
            Distance(SignedHalf(a / 0x1_0000), SignedHalf(b / 0x1_0000)), 0x5410)
  }

  lemma JoinsHalves(low: nat, high: nat)
    requires low < 0x1_0000 && high < 0x1_0000
    ensures Permute(low, high, 0x5410) == low + 0x1_0000 * high
  {
    hide Byte, SignOf;
    HalfBytes(low);
    HalfBytes(high);
    PicksHalves(low, high);
    hide Picked;
  }

  lemma PicksHalves(low: nat, high: nat)
    ensures Picked(low, high, 0) == Byte(low, 0) && Picked(low, high, 1) == Byte(low, 1)
    ensures Picked(low, high, 4) == Byte(high, 0) && Picked(low, high, 5) == Byte(high, 1)
  {
    hide Byte, SignOf;
  }

  lemma HalfBytes(half: nat)
    requires half < 0x1_0000
    ensures half == Byte(half, 0) + 0x100 * Byte(half, 1)
  {
    ByteSteps(half);
    hide Byte;
    Whole(half);
    Whole(half / 0x100);
  }

  /** Each half of the result is the distance of the operands' halves, unsigned and signed. */
  lemma AbsDiff16IsExact(a: U32, b: U32)
    ensures AbsDiffU16(a, b) % 0x1_0000 == Distance(a % 0x1_0000, b % 0x1_0000)
    ensures AbsDiffU16(a, b) / 0x1_0000 == Distance(a / 0x1_0000, b / 0x1_0000)
    ensures AbsDiffI16(a, b) % 0x1_0000 == Distance(SignedHalf(a % 0x1_0000), SignedHalf(b % 0x1_0000))
    ensures AbsDiffI16(a, b) / 0x1_0000 == Distance(SignedHalf(a / 0x1_0000), SignedHalf(b / 0x1_0000))
  {
    hide Permute;
    JoinsHalves(Distance(a % 0x1_0000, b % 0x1_0000), Distance(a / 0x1_0000, b / 0x1_0000));
    JoinsHalves(Distance(SignedHalf(a % 0x1_0000), SignedHalf(b % 0x1_0000)),
                Distance(SignedHalf(a / 0x1_0000), SignedHalf(b / 0x1_0000)));
  }
}
