/** Words as numbers (the types src/patos/cuda/primitives/bits.py and bytewise.py compute on): powers of
    two, the bitwise operations of two numbers, bit by bit, and the bytes of a word of any width. The
    lemmas split an operation on words into the operation on their lowest bytes and the one on the
    rest, which is how every proof about all the bytes of a word goes. */
module Words {
  import opened Integers

  function Pow2(k: nat): (r: nat)
    ensures r > 0
  {
    if k == 0 then 1 else 2 * Pow2(k - 1)
  }

  lemma {:induction false} Pow2Adds(a: nat, b: nat)
    ensures Pow2(a + b) == Pow2(a) * Pow2(b)
  {
    if a > 0 {
      Pow2Adds(a - 1, b);
      assert Pow2(a) == 2 * Pow2(a - 1) && Pow2(a + b) == 2 * Pow2(a - 1 + b);
      hide Pow2;
      Twice(Pow2(a - 1), Pow2(b));
    }
  }

  lemma Twice(p: nat, q: nat)
    ensures 2 * p * q == 2 * (p * q)
  {}

  lemma Pow2Bytes()
    ensures Pow2(7) == 0x80 && Pow2(8) == 0x100
  {
    assert Pow2(4) == 16;
  }

  datatype Gate = AndGate | OrGate | XorGate {
    /** Of two bits. */
    function Of(a: int, b: int): nat {
      match this
      case AndGate => if a == 1 && b == 1 then 1 else 0
      case OrGate => if a == 1 || b == 1 then 1 else 0
      case XorGate => if a != b then 1 else 0
    }
  }

  /** A gate on every bit of two numbers. */
  function Bits(g: Gate, a: nat, b: nat): nat
    decreases a + b
  {
    if a == 0 && b == 0 then 0 else g.Of(a % 2, b % 2) + 2 * Bits(g, a / 2, b / 2)
  }

  function And(a: nat, b: nat): nat { Bits(AndGate, a, b) }
  function Or(a: nat, b: nat): nat { Bits(OrGate, a, b) }
  function Xor(a: nat, b: nat): nat { Bits(XorGate, a, b) }

  lemma {:induction false} BitsBelow(g: Gate, a: nat, b: nat, k: nat)
    requires a < Pow2(k) && b < Pow2(k)
    ensures Bits(g, a, b) < Pow2(k)
  {
    if k > 0 && (a > 0 || b > 0) { BitsBelow(g, a / 2, b / 2, k - 1); }
  }

  ghost predicate Splits(g: Gate, p: nat, low: nat, high: nat, low': nat, high': nat) {
    Bits(g, low + p * high, low' + p * high') == Bits(g, low, low') + p * Bits(g, high, high')
  }

  /** A gate works on the low `k` bits and on the rest apart. */
  lemma {:induction false} BitsSplit(g: Gate, k: nat, low: nat, high: nat, low': nat, high': nat)
    requires low < Pow2(k) && low' < Pow2(k)
    ensures Splits(g, Pow2(k), low, high, low', high')
  {
    if k == 0 {
      assert 1 * high == high && 1 * high' == high' && 1 * Bits(g, high, high') == Bits(g, high, high');
    } else {
      BitsSplit(g, k - 1, low / 2, high, low' / 2, high');
      SplitMore(g, Pow2(k - 1), low, high, low', high');
    }
  }

  lemma SplitMore(g: Gate, p: nat, low: nat, high: nat, low': nat, high': nat)
    requires Splits(g, p, low / 2, high, low' / 2, high')
    ensures Splits(g, 2 * p, low, high, low', high')
  {
    hide Bits;
    Halved(p, low, high);
    Halved(p, low', high');
    Halved(p, 0, Bits(g, high, high'));
    SplitStep(g, low + 2 * p * high, low' + 2 * p * high', low, low', p * Bits(g, high, high'));
  }

  lemma SplitStep(g: Gate, a: nat, b: nat, low: nat, low': nat, rest: nat)
    requires a % 2 == low % 2 && b % 2 == low' % 2
    requires Bits(g, a / 2, b / 2) == Bits(g, low / 2, low' / 2) + rest
    ensures Bits(g, a, b) == Bits(g, low, low') + 2 * rest
  {
    BitsStep(g, a, b);
    BitsStep(g, low, low');
    hide Bits;
  }

  lemma Halved(p: nat, low: nat, high: nat)
    ensures 2 * p * high == 2 * (p * high)
    ensures (low + 2 * p * high) / 2 == low / 2 + p * high && (low + 2 * p * high) % 2 == low % 2
  {
    var h := p * high;
    assert 2 * p * high == 2 * h;
  }

  lemma BitsStep(g: Gate, a: nat, b: nat)
    ensures Bits(g, a, b) == g.Of(a % 2, b % 2) + 2 * Bits(g, a / 2, b / 2)
  {}

  /** With all `k` bits set, and with none. */
  lemma {:induction false} BitsWithOnes(a: nat, k: nat)
    requires a < Pow2(k)
    ensures And(a, Pow2(k) - 1) == a && Or(a, Pow2(k) - 1) == Pow2(k) - 1
  {
    if k > 0 {
      BitsWithOnes(a / 2, k - 1);
      assert (Pow2(k) - 1) / 2 == Pow2(k - 1) - 1 && (Pow2(k) - 1) % 2 == 1;
      BitsStep(AndGate, a, Pow2(k) - 1);
      BitsStep(OrGate, a, Pow2(k) - 1);
    }
  }

  lemma {:induction false} BitsWithZero(a: nat)
    ensures And(a, 0) == 0 && Or(a, 0) == a && Xor(a, 0) == a
  {
    if a > 0 { BitsWithZero(a / 2); }
  }

  lemma {:induction false} OrCommutes(a: nat, b: nat)
    ensures Or(a, b) == Or(b, a)
    decreases a + b
  {
    if a > 0 || b > 0 { OrCommutes(a / 2, b / 2); }
  }

  lemma {:induction false} XorCommutes(a: nat, b: nat)
    ensures Xor(a, b) == Xor(b, a)
  {
    if a > 0 || b > 0 { XorCommutes(a / 2, b / 2); }
  }

  lemma {:induction false} XorCancels(a: nat, b: nat)
    ensures Xor(a, Xor(a, b)) == b
  {
    if a > 0 || b > 0 {
      XorCancels(a / 2, b / 2);
      BitsStep(XorGate, a, Xor(a, b));
    }
  }

  /** The union of two numbers' bits is the half of their sum and difference. */
  lemma {:induction false} OrIsMean(a: nat, b: nat)
    ensures 2 * Or(a, b) == a + b + Xor(a, b)
  {
    if a > 0 || b > 0 { OrIsMean(a / 2, b / 2); }
  }

  // ---------------------------------------------------------------- bytes

  const HIGH: nat := 0x80
  const LOW7: nat := 0x7F

  /** `256^n`, past the numbers of `n` bytes. */
  function Base(n: nat): (r: nat)
    ensures r > 0
  {
    if n == 0 then 1 else 0x100 * Base(n - 1)
  }

  function Byte(word: nat, i: nat): (b: nat)
    ensures b < 0x100
  {
    if i == 0 then word % 0x100 else Byte(word / 0x100, i - 1)
  }

  lemma Parts(x: int, low: int, high: int)
    requires x == low + 0x100 * high && 0 <= low < 0x100
    ensures x % 0x100 == low && x / 0x100 == high
  {}

  lemma Whole(x: int)
    ensures x == x % 0x100 + 0x100 * (x / 0x100)
  {}

  /** A function of each pair of bytes of two words. */
  function Both(f: (nat, nat) -> nat, a: nat, b: nat, n: nat): nat {
    if n == 0 then 0 else f(a % 0x100, b % 0x100) + 0x100 * Both(f, a / 0x100, b / 0x100, n - 1)
  }

  /** A byte in each of `n` bytes. */
  function Spread(byte: nat, n: nat): nat { if n == 0 then 0 else byte + 0x100 * Spread(byte, n - 1) }

  function Not(word: nat, n: nat): nat
    requires word < Base(n)
  {
    Base(n) - 1 - word
  }

  function Wrapped(word: int, n: nat): (r: nat)
    ensures r < Base(n)
  {
    word % Base(n)
  }

  /** Wrapping keeps the lowest byte and wraps the rest. */
  lemma WrapSplit(x: int, n: nat)
    requires n > 0
    ensures Wrapped(x, n) == x % 0x100 + 0x100 * Wrapped(x / 0x100, n - 1)
  {
    var q, r := x / 0x100 / Base(n - 1), x / 0x100 % Base(n - 1);
    assert x / 0x100 == q * Base(n - 1) + r;
    assert q * Base(n) == 0x100 * (q * Base(n - 1));
    ModUnique(Base(n), x, q, x % 0x100 + 0x100 * r);
  }

  lemma WrappedFits(x: int, n: nat)
    requires 0 <= x < Base(n)
    ensures Wrapped(x, n) == x
  {
    ModUnique(Base(n), x, 0, x);
  }

  lemma {:induction false} ByteOfBoth(f: (nat, nat) -> nat, a: nat, b: nat, n: nat, i: nat)
    requires i < n && forall x, y :: 0 <= x < 0x100 && 0 <= y < 0x100 ==> f(x, y) < 0x100
    ensures Byte(Both(f, a, b, n), i) == f(Byte(a, i), Byte(b, i))
  {
    if i > 0 { ByteOfBoth(f, a / 0x100, b / 0x100, n - 1, i - 1); }
  }

  lemma {:induction false} BothBelow(f: (nat, nat) -> nat, a: nat, b: nat, n: nat)
    requires forall x, y :: 0 <= x < 0x100 && 0 <= y < 0x100 ==> f(x, y) < 0x100
    ensures Both(f, a, b, n) < Base(n)
  {
    if n > 0 { BothBelow(f, a / 0x100, b / 0x100, n - 1); }
  }

  /** Spreading a byte is multiplying it by a word of ones. */
  lemma {:induction false} SpreadIsProduct(byte: nat, n: nat)
    requires byte < 0x100
    ensures Spread(byte, n) == byte * Spread(1, n) && Spread(byte, n) < Base(n)
  {
    if n > 0 {
      SpreadIsProduct(byte, n - 1);
      SpreadStep(byte, n);
      SpreadStep(1, n);
      hide Spread;
      ByteTimes(byte, Spread(1, n - 1));
    }
  }

  lemma SpreadStep(byte: nat, n: nat)
    requires n > 0
    ensures Spread(byte, n) == byte + 0x100 * Spread(byte, n - 1)
  {}

  lemma ByteTimes(byte: nat, ones: nat)
    ensures byte * (1 + 0x100 * ones) == byte + 0x100 * (byte * ones)
  {}

  lemma SpreadSplit(byte: nat, n: nat)
    requires byte < 0x100 && n > 0
    ensures Spread(byte, n) % 0x100 == byte && Spread(byte, n) / 0x100 == Spread(byte, n - 1)
  {
    Parts(Spread(byte, n), byte, Spread(byte, n - 1));
  }

  lemma {:induction false} BaseIsPow2(n: nat)
    ensures Base(n) == Pow2(8 * n)
  {
    if n > 0 {
      BaseIsPow2(n - 1);
      Pow2Adds(8, 8 * (n - 1));
      Pow2Bytes();
    }
  }

  lemma BaseSplit(word: nat, n: nat)
    requires n > 0 && word < Base(n)
    ensures word / 0x100 < Base(n - 1)
  {}

  /** A gate's result is as wide as its operands. */
  lemma BitsFit(g: Gate, a: nat, b: nat, n: nat)
    requires a < Base(n) && b < Base(n)
    ensures Bits(g, a, b) < Base(n)
  {
    BaseIsPow2(n);
    BitsBelow(g, a, b, 8 * n);
  }

  lemma BitsOfBytes(g: Gate, a: nat, b: nat)
    ensures Bits(g, a, b) % 0x100 == Bits(g, a % 0x100, b % 0x100)
    ensures Bits(g, a, b) / 0x100 == Bits(g, a / 0x100, b / 0x100)
  {
    hide Bits;
    Whole(a);
    Whole(b);
    BitsSplit8(g, a % 0x100, a / 0x100, b % 0x100, b / 0x100, a, b);
    Parts(Bits(g, a, b), Bits(g, a % 0x100, b % 0x100), Bits(g, a / 0x100, b / 0x100));
  }

  lemma BitsSplit8(g: Gate, low: nat, high: nat, low': nat, high': nat, a: nat, b: nat)
    requires low < 0x100 && low' < 0x100 && a == low + 0x100 * high && b == low' + 0x100 * high'
    ensures Bits(g, a, b) == Bits(g, low, low') + 0x100 * Bits(g, high, high')
    ensures Bits(g, low, low') < 0x100
  {
    Pow2Bytes();
    hide Bits, Pow2;
    BitsSplit(g, 8, low, high, low', high');
    BitsBelow(g, low, low', 8);
    assert Splits(g, 0x100, low, high, low', high');
  }

  /** Whether a byte's top bit is set, and what two bytes' gates make of it. */
  function Top(byte: nat): nat { byte / 0x80 }

  lemma BitsOfTops(g: Gate, a: nat, b: nat)
    requires a < 0x100 && b < 0x100
    ensures Bits(g, a, b) < 0x100
    ensures Top(Bits(g, a, b)) == g.Of(Top(a), Top(b))
    ensures Bits(g, a, b) % 0x80 == Bits(g, a % 0x80, b % 0x80)
  {
    Pow2Bytes();
    hide Bits, Pow2;
    BitsSplit(g, 7, a % 0x80, a / 0x80, b % 0x80, b / 0x80);
    BitsBelow(g, a % 0x80, b % 0x80, 7);
    OneBit(g, a / 0x80, b / 0x80);
    var low := Bits(g, a % 0x80, b % 0x80);
    assert Bits(g, a, b) == low + 0x80 * g.Of(a / 0x80, b / 0x80);
  }

  lemma OneBit(g: Gate, a: nat, b: nat)
    requires a < 2 && b < 2
    ensures Bits(g, a, b) == g.Of(a, b)
  {}

  /** The masks of a byte's low seven bits and of its top one. */
  lemma ByteMasks(b: nat)
    requires b < 0x100
    ensures And(b, 0x7F) == b % 0x80 && Or(b, 0x7F) == 0x80 * Top(b) + 0x7F
    ensures And(b, 0x80) == 0x80 * Top(b) && And(b, 0xFF) == b
  {
    Pow2Bytes();
    BitsOfTops(AndGate, b, 0x7F);
    BitsOfTops(OrGate, b, 0x7F);
    BitsOfTops(AndGate, b, 0x80);
    BitsWithOnes(b % 0x80, 7);
    BitsWithOnes(b, 8);
    BitsWithZero(b % 0x80);
  }

  /** A byte but its lowest bit, and a byte with every bit or the top one flipped. */
  lemma ByteEven(b: nat)
    requires b < 0x100
    ensures And(b, 0xFE) == b - b % 2
  {
    hide Bits;
    BitsStep(AndGate, b, 0xFE);
    ByteMasks(b / 2);
    assert 0xFE % 2 == 0 && 0xFE / 2 == 0x7F && AndGate.Of(b % 2, 0) == 0;
    assert And(b, 0xFE) == 2 * And(b / 2, 0x7F);
  }

  lemma ByteInverted(b: nat)
    requires b < 0x100
    ensures Xor(b, 0xFF) == 0xFF - b
  {
    Pow2Bytes();
    XorOnes(b, 8);
  }

  lemma ByteBiased(b: nat)
    requires b < 0x100
    ensures Xor(b, HIGH) == if b < HIGH then b + HIGH else b - HIGH
  {
    hide Bits;
    BitsOfTops(XorGate, b, HIGH);
    BitsWithZero(b % 0x80);
    var x := Xor(b, HIGH);
    assert x == 0x80 * Top(x) + b % 0x80;
  }

  lemma {:induction false} XorOnes(a: nat, k: nat)
    requires a < Pow2(k)
    ensures Xor(a, Pow2(k) - 1) == Pow2(k) - 1 - a
  {
    if k > 0 {
      XorOnes(a / 2, k - 1);
      assert (Pow2(k) - 1) / 2 == Pow2(k - 1) - 1 && (Pow2(k) - 1) % 2 == 1;
      BitsStep(XorGate, a, Pow2(k) - 1);
    }
  }
}
