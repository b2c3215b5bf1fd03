/** The extremes of floats, through integer keys (src/patos/cuda/primitives/redux.py:185-212). */
module Floats {
  // A float is its bits, read as a signed integer.

  import opened Integers
  import opened Redux
  import Warp
  import Words

  datatype Format = F32 | F64 {
    function Width(): nat { if F32? then 32 else 64 }

    /** The weight of the sign bit, and of the lowest bit of the exponent. */
    function Half(): int { if F32? then 0x8000_0000 else 0x8000_0000_0000_0000 }
    function Scale(): int { if F32? then 0x80_0000 else 0x10_0000_0000_0000 }
    function Highest(): int { if F32? then 0xFF else 0x7FF }

    predicate Holds(raw: int) { -Half() <= raw < Half() }

    // -------------------------------------------------------------- what the bits mean

    function Exponent(raw: int): int { raw % Half() / Scale() }
    function Fraction(raw: int): int { raw % Half() % Scale() }

    predicate IsNaN(raw: int) { Exponent(raw) == Highest() && Fraction(raw) != 0 }

    /** The magnitude in units of the smallest subnormal (section 3.4 of IEEE 754-2019); an infinity
        is above every finite number. */
    function Magnitude(raw: int): int {
      if Exponent(raw) <= 0 then Fraction(raw)
      else (Scale() + Fraction(raw)) * Words.Pow2(Exponent(raw) - 1)
    }

    function Number(raw: int): int { if raw < 0 then -Magnitude(raw) else Magnitude(raw) }

    /** The order of numbers, with -0 below +0 (totalOrder, section 5.10 of IEEE 754-2019). */
    predicate Below(a: int, b: int) { Number(a) < Number(b) || (Number(a) == Number(b) && a < 0 <= b) }

    // -------------------------------------------------------------- keys

    /** The bits of a negative float all flipped, the sign bit of any other. */
    function Ordered(raw: int): int { if raw < 0 then -1 - raw else raw - Half() }

    function Unordered(raw: int): int { if raw < 0 then raw + Half() else -1 - raw }

    /** A word read unsigned, and an unsigned one read signed. */
    function Unsigned(raw: int): int { if raw < 0 then raw + 2 * Half() else raw }
    function Signed(key: int): int { if key < Half() then key else key - 2 * Half() }

    function Key(raw: int): int { Unsigned(Ordered(raw)) }

    /** The identity of the operator at the key's type. */
    function LastKey(least: bool): int { if least then 2 * Half() - 1 else 0 }

    function KeyOf(least: bool, raw: int): int { if IsNaN(raw) then LastKey(least) else Key(raw) }

    /** The extreme of a warp's floats: of their keys, where a NaN gives the identity. */
    function ExtremeFloat(least: bool, lanes: seq<int>): int
      requires |lanes| > 0
    {
      var keys := Each(raw => KeyOf(least, raw), lanes);
      Unordered(Signed(if F32? then Extreme(least, keys) else ExtremeWide(least, false, keys)))
    }
  }

  // ---------------------------------------------------------------- the keys in bits

  /** A word's bits, shifted down arithmetically by all but one: every one the sign. */
  function Signs(f: Format, raw: int): nat
    requires f.Holds(raw)
  {
    f.Unsigned(raw / f.Half())
  }

  /** The keys as the instructions make them, of a word's bits and a mask's. */
  function OrderedBits(f: Format, raw: int): int
    requires f.Holds(raw)
  {
    f.Signed(Words.Xor(f.Unsigned(raw), Words.Or(Signs(f, raw), f.Half())))
  }

  function UnorderedBits(f: Format, raw: int): int
    requires f.Holds(raw)
  {
    f.Signed(Words.Xor(f.Unsigned(raw), Words.Or(2 * f.Half() - 1 - Signs(f, raw), f.Half())))
  }

  lemma Doubles(k: nat)
    ensures Words.Pow2(k + 1) == 2 * Words.Pow2(k)
  {}

  lemma HalfIsPow2(f: Format)
    ensures f.Half() == Words.Pow2(f.Width() - 1) && 2 * f.Half() == Words.Pow2(f.Width())
  {
    hide Words.Pow2;
    Doubles(f.Width() - 1);
    Words.Pow2Bytes();
    Words.Pow2Adds(8, 8);
    Words.Pow2Adds(16, 16);
    Words.Pow2Adds(32, 32);
  }

  /** Flipping every bit and flipping the top one. */
  lemma Flips(f: Format, word: nat)
    requires word < 2 * f.Half()
    ensures Words.Xor(word, Words.Or(2 * f.Half() - 1, f.Half())) == 2 * f.Half() - 1 - word
    ensures Words.Xor(word, Words.Or(0, f.Half())) == if word < f.Half() then word + f.Half() else word - f.Half()
  {
    var k := f.Width() - 1;
    HalfIsPow2(f);
    hide Words.Bits, Words.Pow2;
    Words.OrCommutes(2 * f.Half() - 1, f.Half());
    Words.OrCommutes(0, f.Half());
    Words.BitsWithOnes(f.Half(), k + 1);
    Words.BitsWithZero(f.Half());
    Words.XorOnes(word, k + 1);
    Warp.XorPow2(word, k);
  }

  /** `Ordered` and `Unordered` are what the instructions make of every word. */
  lemma KeysInBits(f: Format, raw: int)
    requires f.Holds(raw)
    ensures OrderedBits(f, raw) == f.Ordered(raw) && UnorderedBits(f, raw) == f.Unordered(raw)
  {
    hide Words.Bits;
    Flips(f, f.Unsigned(raw));
    assert Signs(f, raw) == if raw < 0 then 2 * f.Half() - 1 else 0;
  }

  // ---------------------------------------------------------------- the keys order as the floats do

  /** `Ordered` and `Unordered` undo each other, and keep to the width. */
  lemma KeysInvert(f: Format, raw: int)
    requires f.Holds(raw)
    ensures f.Holds(f.Ordered(raw)) && f.Unordered(f.Ordered(raw)) == raw
    ensures f.Holds(f.Unordered(raw)) && f.Ordered(f.Unordered(raw)) == raw
    ensures 0 <= f.Key(raw) < 2 * f.Half() && f.Unordered(f.Signed(f.Key(raw))) == raw
  {}

  lemma Positive(a: int, b: int)
    requires a > 0 && b > 0
    ensures a * b > 0
  {}

  lemma Scaled(x: int, y: int, p: nat)
    requires x < y && p > 0
    ensures x * p < y * p
  {
    assert (y - x) * p == y * p - x * p;
    Positive(y - x, p);
  }

  lemma {:induction false} PowersGrow(a: nat, b: nat)
    requires a <= b
    ensures 0 < Words.Pow2(a) <= Words.Pow2(b)
  {
    if a < b {
      PowersGrow(a, b - 1);
    } else if a > 0 {
      PowersGrow(a - 1, b - 1);
    }
  }

  /** Exponent above fraction: the magnitude grows with the bits below the sign. */
  lemma MagnitudeGrows(f: Format, a: int, b: int)
    requires a % f.Half() < b % f.Half()
    ensures 0 <= f.Magnitude(a) < f.Magnitude(b)
  {
    var ea, eb, fa, fb := f.Exponent(a), f.Exponent(b), f.Fraction(a), f.Fraction(b);
    assert ea <= eb && 0 <= ea && 0 <= fa < f.Scale() && 0 <= fb < f.Scale() && (ea == eb ==> fa < fb);
    var s := f.Scale();
    MagnitudesOrder(s, ea, fa, eb, fb);
  }

  function Magnified(s: int, e: nat, frac: int): int { if e <= 0 then frac else (s + frac) * Words.Pow2(e - 1) }

  lemma MagnitudesOrder(s: int, ea: nat, fa: int, eb: nat, fb: int)
    requires 0 <= fa < s && 0 <= fb < s && ea <= eb && (ea == eb ==> fa < fb)
    ensures 0 <= Magnified(s, ea, fa) < Magnified(s, eb, fb)
  {
    if ea == eb {
      if ea > 0 {
        PowersGrow(0, ea - 1);
        Scaled(s + fa, s + fb, Words.Pow2(ea - 1));
        Scaled(0, s + fa, Words.Pow2(ea - 1));
      }
    } else {
      PowersGrow(ea, eb - 1);
      var p, q := Words.Pow2(ea), Words.Pow2(eb - 1);
      PowersTimes(s, p, q, fb);
      if ea > 0 {
        PowersGrow(0, ea - 1);
        assert p == 2 * Words.Pow2(ea - 1);
        Scaled(s + fa, 2 * s, Words.Pow2(ea - 1));
        Scaled(0, s + fa, Words.Pow2(ea - 1));
        assert 2 * s * Words.Pow2(ea - 1) == s * (2 * Words.Pow2(ea - 1));
      }
    }
  }

  lemma PowersTimes(s: int, p: nat, q: nat, frac: int)
    requires s > 0 && 0 < p <= q && frac >= 0
    ensures s <= s * p <= (s + frac) * q
  {}

  lemma MagnitudesDiffer(f: Format, a: int, b: int)
    ensures f.Magnitude(a) < f.Magnitude(b) <==> a % f.Half() < b % f.Half()
    ensures f.Magnitude(a) >= 0
  {
    if a % f.Half() < b % f.Half() { MagnitudeGrows(f, a, b); }
    if b % f.Half() < a % f.Half() { MagnitudeGrows(f, b, a); }
  }

  /** Read unsigned, the keys order exactly as the floats do. */
  lemma KeysOrder(f: Format, a: int, b: int)
    requires f.Holds(a) && f.Holds(b)
    ensures f.Key(a) < f.Key(b) <==> f.Below(a, b)
  {
    hide f.Magnitude;
    MagnitudesDiffer(f, a, b);
    MagnitudesDiffer(f, b, a);
    if f.F32? {} else {}
  }

  // ---------------------------------------------------------------- reductions

  /** A NaN lane's key is the operator's identity, whose float is a NaN. */
  lemma LastKeyIsNaN(f: Format, least: bool)
    ensures f.IsNaN(f.Unordered(f.Signed(f.LastKey(least))))
    ensures f.LastKey(least) ==
      if f.F32? then (if least then minU32 else maxU32).identity else (if least then minU64 else maxU64).identity
  {}

  ghost predicate AllNaN(f: Format, lanes: seq<int>) {
    forall i :: 0 <= i < |lanes| ==> f.IsNaN(lanes[i])
  }

  /** `r` is a lane that holds a number, and no lane that holds one is below it (above it). */
  ghost predicate IsExtremeFloat(f: Format, least: bool, r: int, lanes: seq<int>) {
    && r in lanes && !f.IsNaN(r)
    && forall i :: 0 <= i < |lanes| && !f.IsNaN(lanes[i]) ==>
      !(if least then f.Below(lanes[i], r) else f.Below(r, lanes[i]))
  }

  /** The reduction is the float of the best key, which some lane gives. */
  lemma ReducedTo(f: Format, least: bool, lanes: seq<int>) returns (j: nat)
    requires |lanes| > 0 && forall i :: 0 <= i < |lanes| ==> f.Holds(lanes[i])
    ensures j < |lanes| && f.ExtremeFloat(least, lanes) == f.Unordered(f.Signed(f.KeyOf(least, lanes[j])))
    ensures forall i :: 0 <= i < |lanes| ==> !Prefers(least, f.KeyOf(least, lanes[i]), f.KeyOf(least, lanes[j]))
  {
    var keys := Each(raw => f.KeyOf(least, raw), lanes);
    forall i | 0 <= i < |lanes| ensures Fits64(false, keys[i]) { KeysInvert(f, lanes[i]); }
    ExtremeWideIsExact(least, false, keys);
    ExtremeIsBest(least, keys);
    hide Prefers;
    j :| 0 <= j < |keys| && keys[j] == Extreme(least, keys);
    forall i | 0 <= i < |lanes| ensures !Prefers(least, f.KeyOf(least, lanes[i]), f.KeyOf(least, lanes[j])) {
      assert !Prefers(least, keys[i], keys[j]);
    }
  }

  /** A lane with a number is preferred to every NaN, and by its key to every number after it. */
  lemma NumberLeads(f: Format, least: bool, a: int, best: int)
    requires f.Holds(a) && f.Holds(best) && !f.IsNaN(a)
    requires !Prefers(least, f.KeyOf(least, a), f.KeyOf(least, best))
    ensures !f.IsNaN(best)
    ensures !(if least then f.Below(a, best) else f.Below(best, a))
  {
    KeysInvert(f, a);
    KeysInvert(f, best);
    LastKeyIsNaN(f, least);
    KeysOrder(f, a, best);
    KeysOrder(f, best, a);
    hide f.Below, f.IsNaN, f.Key;
  }

  /** The reduction gives the extreme of the lanes that hold numbers, and a NaN if and only if every
      lane holds one. */
  lemma ExtremeFloatIsExact(f: Format, least: bool, lanes: seq<int>)
    requires |lanes| > 0 && forall i :: 0 <= i < |lanes| ==> f.Holds(lanes[i])
    ensures f.IsNaN(f.ExtremeFloat(least, lanes)) <==> AllNaN(f, lanes)
    ensures !AllNaN(f, lanes) ==> IsExtremeFloat(f, least, f.ExtremeFloat(least, lanes), lanes)
  {
    var j := ReducedTo(f, least, lanes);
    KeysInvert(f, lanes[j]);
    LastKeyIsNaN(f, least);
    hide f.Below, f.IsNaN, f.Key, f.Unordered, f.Signed, f.LastKey, f.ExtremeFloat, f.Holds;
    forall i | 0 <= i < |lanes| && !f.IsNaN(lanes[i])
      ensures !f.IsNaN(lanes[j]) && !(if least then f.Below(lanes[i], lanes[j]) else f.Below(lanes[j], lanes[i]))
    {
      NumberLeads(f, least, lanes[i], lanes[j]);
    }
  }
}
