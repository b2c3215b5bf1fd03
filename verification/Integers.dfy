/** Machine integers: words of 32 and 64 bits, signed and unsigned, as integers in a range, with the
    conversions that keep the low bits and the remainders they wrap by; the built-in monoids over them
    (src/patos/cuda/primitives/monoid.py:51-130) with the laws every engine assumes of its operator,
    and what folding by the wrapping sum means: the true sum, wrapped once. */
module Integers {
  import opened Monoids

  const TWO32: int := 0x1_0000_0000
  const TWO64: int := 0x1_0000_0000_0000_0000

  type U32 = x: int | 0 <= x < TWO32
  type U64 = x: int | 0 <= x < TWO64
  type I32 = x: int | -0x8000_0000 <= x < 0x8000_0000
  type I64 = x: int | -0x8000_0000_0000_0000 <= x < 0x8000_0000_0000_0000

  /** Conversions keep the low bits; a signed one reads them in two's complement. */
  function ToU32(x: int): U32 { x % TWO32 }
  function ToU64(x: int): U64 { x % TWO64 }
  function ToI32(x: int): I32 { (x + 0x8000_0000) % TWO32 - 0x8000_0000 }
  function ToI64(x: int): I64 { (x + 0x8000_0000_0000_0000) % TWO64 - 0x8000_0000_0000_0000 }

  lemma ModUnique(m: int, x: int, q: int, r: int)
    requires m > 0 && x == q * m + r && 0 <= r < m
    ensures x / m == q && x % m == r
  {
    var d := x / m - q;
    assert d * m == r - x % m by {
      assert x == x / m * m + x % m;
      assert d * m == x / m * m - q * m;
    }
    if d != 0 { MultipleApart(d, m); }
  }

  lemma MultipleApart(d: int, m: int)
    requires m > 0 && d != 0
    ensures d * m >= m || d * m <= -m
  {}

  /** Reducing an addend first changes no remainder. */
  lemma ModAbsorb(m: int, x: int, y: int)
    requires m > 0
    ensures (x % m + y) % m == (x + y) % m
  {
    var q, r := (x % m + y) / m, (x % m + y) % m;
    assert x + y == (x / m + q) * m + r by {
      assert x == x / m * m + x % m;
      assert x % m + y == q * m + r;
      assert (x / m + q) * m == x / m * m + q * m;
    }
    ModUnique(m, x + y, x / m + q, r);
  }

  lemma Wraps32(x: int, y: int)
    ensures ToU32(ToU32(x) + y) == ToU32(x + y)
    ensures ToI32(ToI32(x) + y) == ToI32(x + y)
  {
    ModAbsorb(TWO32, x, y);
    ModAbsorb(TWO32, x + 0x8000_0000, y);
  }

  lemma Wraps64(x: int, y: int)
    ensures ToU64(ToU64(x) + y) == ToU64(x + y)
    ensures ToI64(ToI64(x) + y) == ToI64(x + y)
  {
    ModAbsorb(TWO64, x, y);
    ModAbsorb(TWO64, x + 0x8000_0000_0000_0000, y);
  }

  function AddU32(a: U32, b: U32): U32 { ToU32(a + b) }
  function AddI32(a: I32, b: I32): I32 { ToI32(a + b) }
  function AddU64(a: U64, b: U64): U64 { ToU64(a + b) }
  function AddI64(a: I64, b: I64): I64 { ToI64(a + b) }
  function MinU32(a: U32, b: U32): U32 { if b < a then b else a }
  function MinI32(a: I32, b: I32): I32 { if b < a then b else a }
  function MinU64(a: U64, b: U64): U64 { if b < a then b else a }
  function MinI64(a: I64, b: I64): I64 { if b < a then b else a }
  function MaxU32(a: U32, b: U32): U32 { if b > a then b else a }
  function MaxI32(a: I32, b: I32): I32 { if b > a then b else a }
  function MaxU64(a: U64, b: U64): U64 { if b > a then b else a }
  function MaxI64(a: I64, b: I64): I64 { if b > a then b else a }

  const sumU32: Monoid<U32> := Monoid(AddU32, 0)
  const sumI32: Monoid<I32> := Monoid(AddI32, 0)
  const sumU64: Monoid<U64> := Monoid(AddU64, 0)
  const sumI64: Monoid<I64> := Monoid(AddI64, 0)
  const minU32: Monoid<U32> := Monoid(MinU32, 0xFFFF_FFFF)
  const minI32: Monoid<I32> := Monoid(MinI32, 0x7FFF_FFFF)
  const minU64: Monoid<U64> := Monoid(MinU64, 0xFFFF_FFFF_FFFF_FFFF)
  const minI64: Monoid<I64> := Monoid(MinI64, 0x7FFF_FFFF_FFFF_FFFF)
  const maxU32: Monoid<U32> := Monoid(MaxU32, 0)
  const maxI32: Monoid<I32> := Monoid(MaxI32, -0x8000_0000)
  const maxU64: Monoid<U64> := Monoid(MaxU64, 0)
  const maxI64: Monoid<I64> := Monoid(MaxI64, -0x8000_0000_0000_0000)

  function And32(a: bv32, b: bv32): bv32 { a & b }
  function Or32(a: bv32, b: bv32): bv32 { a | b }
  function Xor32(a: bv32, b: bv32): bv32 { a ^ b }
  function And64(a: bv64, b: bv64): bv64 { a & b }
  function Or64(a: bv64, b: bv64): bv64 { a | b }
  function Xor64(a: bv64, b: bv64): bv64 { a ^ b }

  const and32: Monoid<bv32> := Monoid(And32, 0xFFFF_FFFF)
  const or32: Monoid<bv32> := Monoid(Or32, 0)
  const xor32: Monoid<bv32> := Monoid(Xor32, 0)
  const and64: Monoid<bv64> := Monoid(And64, 0xFFFF_FFFF_FFFF_FFFF)
  const or64: Monoid<bv64> := Monoid(Or64, 0)
  const xor64: Monoid<bv64> := Monoid(Xor64, 0)

  ghost predicate Reduces<T(!new)>(m: Monoid<T>) { Lawful(m) && Commutative(m) }

  // Every built-in integer monoid meets the laws the engines assume of it.

  lemma SumU32Associates(a: U32, b: U32, c: U32)
    ensures Associates(sumU32, a, b, c)
  {
    Wraps32(a + b, c);
    Wraps32(b + c, a);
    hide ToU32;
  }

  lemma SumU32Reduces()
    ensures Reduces(sumU32)
  {
    forall a: U32, b: U32, c: U32 ensures Associates(sumU32, a, b, c) { SumU32Associates(a, b, c); }
  }

  lemma SumI32Associates(a: I32, b: I32, c: I32)
    ensures Associates(sumI32, a, b, c)
  {
    Wraps32(a + b, c);
    Wraps32(b + c, a);
    hide ToI32;
  }

  lemma SumI32Reduces()
    ensures Reduces(sumI32)
  {
    forall a: I32, b: I32, c: I32 ensures Associates(sumI32, a, b, c) { SumI32Associates(a, b, c); }
  }

  lemma SumU64Associates(a: U64, b: U64, c: U64)
    ensures Associates(sumU64, a, b, c)
  {
    Wraps64(a + b, c);
    Wraps64(b + c, a);
    hide ToU64;
  }

  lemma SumU64Reduces()
    ensures Reduces(sumU64)
  {
    forall a: U64, b: U64, c: U64 ensures Associates(sumU64, a, b, c) { SumU64Associates(a, b, c); }
  }

  lemma SumI64Associates(a: I64, b: I64, c: I64)
    ensures Associates(sumI64, a, b, c)
  {
    Wraps64(a + b, c);
    Wraps64(b + c, a);
    hide ToI64;
  }

  lemma SumI64Reduces()
    ensures Reduces(sumI64)
  {
    forall a: I64, b: I64, c: I64 ensures Associates(sumI64, a, b, c) { SumI64Associates(a, b, c); }
  }

  lemma ExtremesReduce()
    ensures Reduces(minU32) && Reduces(minI32) && Reduces(minU64) && Reduces(minI64)
    ensures Reduces(maxU32) && Reduces(maxI32) && Reduces(maxU64) && Reduces(maxI64)
  {}

  // ---------------------------------------------------------------- what extremes are

  /** Of two operands the first, unless the second comes before it by `rank`. */
  ghost predicate Selects<T(!new)>(m: Monoid<T>, rank: T -> int) {
    && (forall a, b :: m.combine(a, b) == if rank(b) < rank(a) then b else a)
    && forall a :: m.combine(m.identity, a) == a
  }

  /** A value that `s` holds, and that none in `s` comes before. */
  ghost predicate IsFirst<T>(s: seq<T>, rank: T -> int, r: T) {
    r in s && forall i :: 0 <= i < |s| ==> rank(r) <= rank(s[i])
  }

  lemma {:induction false} FoldIsFirst<T(!new)>(m: Monoid<T>, rank: T -> int, s: seq<T>)
    requires Selects(m, rank) && |s| > 0
    ensures IsFirst(s, rank, Fold(m, s))
  {
    var n := |s| - 1;
    var before, last := s[..n], s[n];
    if n == 0 {
      assert Fold(m, s) == m.combine(Fold(m, before), last) == last;
    } else {
      FoldIsFirst(m, rank, before);
      var r := Fold(m, before);
      assert Fold(m, s) == if rank(last) < rank(r) then last else r;
      forall i | 0 <= i < |s| ensures rank(Fold(m, s)) <= rank(s[i]) {
        if i < n { assert before[i] == s[i]; }
      }
    }
  }

  function Negated(x: int): int { -x }

  /** Folded, an extreme is a lane's own value that no lane's is below, or above, at each type. */
  lemma ExtremesU32(s: seq<U32>)
    requires |s| > 0
    ensures Fold(minU32, s) in s && Fold(maxU32, s) in s
    ensures forall i :: 0 <= i < |s| ==> Fold(minU32, s) <= s[i] <= Fold(maxU32, s)
  {
    FoldIsFirst(minU32, (x: U32) => x, s);
    FoldIsFirst(maxU32, (x: U32) => Negated(x), s);
    hide Fold;
  }

  lemma ExtremesI32(s: seq<I32>)
    requires |s| > 0
    ensures Fold(minI32, s) in s && Fold(maxI32, s) in s
    ensures forall i :: 0 <= i < |s| ==> Fold(minI32, s) <= s[i] <= Fold(maxI32, s)
  {
    FoldIsFirst(minI32, (x: I32) => x, s);
    FoldIsFirst(maxI32, (x: I32) => Negated(x), s);
    hide Fold;
  }

  lemma ExtremesU64(s: seq<U64>)
    requires |s| > 0
    ensures Fold(minU64, s) in s && Fold(maxU64, s) in s
    ensures forall i :: 0 <= i < |s| ==> Fold(minU64, s) <= s[i] <= Fold(maxU64, s)
  {
    FoldIsFirst(minU64, (x: U64) => x, s);
    FoldIsFirst(maxU64, (x: U64) => Negated(x), s);
    hide Fold;
  }

  lemma ExtremesI64(s: seq<I64>)
    requires |s| > 0
    ensures Fold(minI64, s) in s && Fold(maxI64, s) in s
    ensures forall i :: 0 <= i < |s| ==> Fold(minI64, s) <= s[i] <= Fold(maxI64, s)
  {
    FoldIsFirst(minI64, (x: I64) => x, s);
    FoldIsFirst(maxI64, (x: I64) => Negated(x), s);
    hide Fold;
  }

  lemma And32Associates(a: bv32, b: bv32, c: bv32)
    ensures And32(And32(a, b), c) == And32(a, And32(b, c))
  {}

  lemma And32Commutes(a: bv32, b: bv32)
    ensures And32(a, b) == And32(b, a) && And32(a, and32.identity) == a
  {}

  lemma And32Reduces()
    ensures Reduces(and32)
  {
    forall a, b, c ensures Associates(and32, a, b, c) { And32Associates(a, b, c); }
    forall a, b ensures Commutes(and32, a, b) { And32Commutes(a, b); }
    forall a
      ensures and32.combine(and32.identity, a) == a && and32.combine(a, and32.identity) == a
    { And32Commutes(a, and32.identity); }
  }

  lemma And64Is(a: bv64, b: bv64)
    ensures And64(a, b) == a & b
  {}

  lemma And64Regroups(a: bv64, b: bv64, c: bv64)
    ensures And64(a & b, c) == And64(a, b & c)
  {}

  lemma And64Associates(a: bv64, b: bv64, c: bv64)
    ensures And64(And64(a, b), c) == And64(a, And64(b, c))
  {
    hide And64;
    And64Is(a, b);
    And64Is(b, c);
    And64Regroups(a, b, c);
  }

  lemma And64Commutes(a: bv64, b: bv64)
    ensures And64(a, b) == And64(b, a) && And64(a, and64.identity) == a
  {}

  lemma And64Reduces()
    ensures Reduces(and64)
  {
    forall a, b, c ensures Associates(and64, a, b, c) { And64Associates(a, b, c); }
    forall a, b ensures Commutes(and64, a, b) { And64Commutes(a, b); }
    forall a
      ensures and64.combine(and64.identity, a) == a && and64.combine(a, and64.identity) == a
    { And64Commutes(a, and64.identity); }
  }

  lemma Or32Associates(a: bv32, b: bv32, c: bv32)
    ensures Or32(Or32(a, b), c) == Or32(a, Or32(b, c))
  {}

  lemma Or32Commutes(a: bv32, b: bv32)
    ensures Or32(a, b) == Or32(b, a) && Or32(a, or32.identity) == a
  {}

  lemma Or32Reduces()
    ensures Reduces(or32)
  {
    forall a, b, c ensures Associates(or32, a, b, c) { Or32Associates(a, b, c); }
    forall a, b ensures Commutes(or32, a, b) { Or32Commutes(a, b); }
    forall a
      ensures or32.combine(or32.identity, a) == a && or32.combine(a, or32.identity) == a
    { Or32Commutes(a, or32.identity); }
  }

  lemma Or64Is(a: bv64, b: bv64)
    ensures Or64(a, b) == a | b
  {}

  lemma Or64Regroups(a: bv64, b: bv64, c: bv64)
    ensures Or64(a | b, c) == Or64(a, b | c)
  {}

  lemma Or64Associates(a: bv64, b: bv64, c: bv64)
    ensures Or64(Or64(a, b), c) == Or64(a, Or64(b, c))
  {
    hide Or64;
    Or64Is(a, b);
    Or64Is(b, c);
    Or64Regroups(a, b, c);
  }

  lemma Or64Commutes(a: bv64, b: bv64)
    ensures Or64(a, b) == Or64(b, a) && Or64(a, or64.identity) == a
  {}

  lemma Or64Reduces()
    ensures Reduces(or64)
  {
    forall a, b, c ensures Associates(or64, a, b, c) { Or64Associates(a, b, c); }
    forall a, b ensures Commutes(or64, a, b) { Or64Commutes(a, b); }
    forall a
      ensures or64.combine(or64.identity, a) == a && or64.combine(a, or64.identity) == a
    { Or64Commutes(a, or64.identity); }
  }

  lemma Xor32Associates(a: bv32, b: bv32, c: bv32)
    ensures Xor32(Xor32(a, b), c) == Xor32(a, Xor32(b, c))
  {}

  lemma Xor32Commutes(a: bv32, b: bv32)
    ensures Xor32(a, b) == Xor32(b, a) && Xor32(a, xor32.identity) == a
  {}

  lemma Xor32Reduces()
    ensures Reduces(xor32)
  {
    forall a, b, c ensures Associates(xor32, a, b, c) { Xor32Associates(a, b, c); }
    forall a, b ensures Commutes(xor32, a, b) { Xor32Commutes(a, b); }
    forall a
      ensures xor32.combine(xor32.identity, a) == a && xor32.combine(a, xor32.identity) == a
    { Xor32Commutes(a, xor32.identity); }
  }

  lemma Xor64Is(a: bv64, b: bv64)
    ensures Xor64(a, b) == a ^ b
  {}

  lemma Xor64Regroups(a: bv64, b: bv64, c: bv64)
    ensures Xor64(a ^ b, c) == Xor64(a, b ^ c)
  {}

  lemma Xor64Associates(a: bv64, b: bv64, c: bv64)
    ensures Xor64(Xor64(a, b), c) == Xor64(a, Xor64(b, c))
  {
    hide Xor64;
    Xor64Is(a, b);
    Xor64Is(b, c);
    Xor64Regroups(a, b, c);
  }

  lemma Xor64Commutes(a: bv64, b: bv64)
    ensures Xor64(a, b) == Xor64(b, a) && Xor64(a, xor64.identity) == a
  {}

  lemma Xor64Reduces()
    ensures Reduces(xor64)
  {
    forall a, b, c ensures Associates(xor64, a, b, c) { Xor64Associates(a, b, c); }
    forall a, b ensures Commutes(xor64, a, b) { Xor64Commutes(a, b); }
    forall a
      ensures xor64.combine(xor64.identity, a) == a && xor64.combine(a, xor64.identity) == a
    { Xor64Commutes(a, xor64.identity); }
  }

  function Sum(s: seq<int>): int {
    if |s| == 0 then 0 else Sum(s[..|s| - 1]) + s[|s| - 1]
  }

  /** Folding by a wrapping sum is the true sum, wrapped once. */
  lemma {:induction false} FoldSumU32(s: seq<U32>)
    ensures Fold(sumU32, s) == ToU32(Sum(s))
  {
    if |s| > 0 {
      FoldSumU32(s[..|s| - 1]);
      Wraps32(Sum(s[..|s| - 1]), s[|s| - 1]);
    }
  }

  lemma {:induction false} FoldSumI32(s: seq<I32>)
    ensures Fold(sumI32, s) == ToI32(Sum(s))
  {
    if |s| > 0 {
      FoldSumI32(s[..|s| - 1]);
      Wraps32(Sum(s[..|s| - 1]), s[|s| - 1]);
    }
  }

  lemma {:induction false} FoldSumU64(s: seq<U64>)
    ensures Fold(sumU64, s) == ToU64(Sum(s))
  {
    if |s| > 0 {
      FoldSumU64(s[..|s| - 1]);
      Wraps64(Sum(s[..|s| - 1]), s[|s| - 1]);
    }
  }

  lemma {:induction false} FoldSumI64(s: seq<I64>)
    ensures Fold(sumI64, s) == ToI64(Sum(s))
  {
    if |s| > 0 {
      FoldSumI64(s[..|s| - 1]);
      Wraps64(Sum(s[..|s| - 1]), s[|s| - 1]);
    }
  }
}
