/** Operations on all bytes of a word (src/patos/cuda/primitives/bytewise.py:30-94), each the operation on
    every byte of a word of any number of bytes: nothing carries from a byte into the next. A mask flags
    a byte by its top bit. */
module Bytes {
  import opened Integers
  import opened Warp
  import opened Words

  function FlagIf(holds: bool): nat { if holds then HIGH else 0 }

  /** A flag for each byte of a word that meets `p`: the reference for every mask below. */
  function Flagging(p: nat -> bool, word: nat, n: nat): nat {
    if n == 0 then 0 else FlagIf(p(word % 0x100)) + 0x100 * Flagging(p, word / 0x100, n - 1)
  }

  function IsByte(byte: nat): nat -> bool { b => b == byte }
  function IsWithin(low: nat, high: nat): nat -> bool { b => low <= b <= high }

  /** The bytes of UTF-8 (section 3 of RFC 3629): 0xxxxxxx, 10xxxxxx, and any that opens a character. */
  function IsAscii(): nat -> bool { b => b < 0x80 }
  function IsContinuation(): nat -> bool { b => 0x80 <= b < 0xC0 }
  function IsOpening(): nat -> bool { b => b < 0x80 || b >= 0xC0 }

  /** The top bits of a word's bytes. */
  function Highs(n: nat): nat { Spread(HIGH, n) }

  lemma NotSplit(word: nat, n: nat)
    requires n > 0 && word < Base(n)
    ensures Not(word, n) % 0x100 == 0xFF - word % 0x100
    ensures word / 0x100 < Base(n - 1) && Not(word, n) / 0x100 == Not(word / 0x100, n - 1)
  {}

  // ---------------------------------------------------------------- zeros and equal bytes

  /** The low seven bits of every byte, with 0x7F added. */
  function LowSums(word: nat, n: nat): nat {
    var low := Spread(LOW7, n);
    Wrapped(And(word, low) + low, n)
  }

  function Marked(word: nat, n: nat): (r: nat)
    requires word < Base(n)
    ensures r < Base(n)
  {
    SpreadIsProduct(LOW7, n);
    BitsFit(OrGate, LowSums(word, n), word, n);
    BitsFit(OrGate, Or(LowSums(word, n), word), Spread(LOW7, n), n);
    Or(Or(LowSums(word, n), word), Spread(LOW7, n))
  }

  /** Flag the zero bytes of a word of `n` bytes. */
  function Zeros(word: nat, n: nat): nat
    requires word < Base(n)
  {
    Not(Marked(word, n), n)
  }

  lemma ZerosOfByte(b: nat)
    requires b < 0x100
    ensures Or(Or(b % 0x80 + LOW7, b), LOW7) == 0xFF - FlagIf(b == 0)
  {
    hide Bits;
    BitsOfTops(OrGate, b % 0x80 + LOW7, b);
    ByteMasks(Or(b % 0x80 + LOW7, b));
  }

  lemma LowSumsSplit(word: nat, n: nat)
    requires n > 0
    ensures LowSums(word, n) == (word % 0x80 + LOW7) + 0x100 * LowSums(word / 0x100, n - 1)
  {
    hide Bits, Base, Wrapped;
    var ones, lows := Spread(LOW7, n), And(word, Spread(LOW7, n));
    SpreadSplit(LOW7, n);
    BitsOfBytes(AndGate, word, ones);
    ByteMasks(word % 0x100);
    WrapSplit(lows + ones, n);
    Parts(lows + ones, word % 0x80 + LOW7, lows / 0x100 + ones / 0x100);
  }

  lemma MarkedSplit(word: nat, n: nat)
    requires word < Base(n) && n > 0
    ensures word / 0x100 < Base(n - 1)
    ensures Marked(word, n) % 0x100 == Or(Or(word % 0x100 % 0x80 + LOW7, word % 0x100), LOW7)
    ensures Marked(word, n) / 0x100 == Marked(word / 0x100, n - 1)
  {
    hide Bits, LowSums, Spread, Base;
    BaseSplit(word, n);
    var sums, ones := LowSums(word, n), Spread(LOW7, n);
    LowSumsSplit(word, n);
    SpreadSplit(LOW7, n);
    Parts(sums, word % 0x80 + LOW7, LowSums(word / 0x100, n - 1));
    BitsOfBytes(OrGate, sums, word);
    BitsOfBytes(OrGate, Or(sums, word), ones);
  }

  lemma ZerosSplit(word: nat, n: nat)
    requires word < Base(n) && n > 0
    ensures Zeros(word, n) == FlagIf(word % 0x100 == 0) + 0x100 * Zeros(word / 0x100, n - 1)
  {
    hide Bits, Marked, FlagIf, Base, Not;
    MarkedSplit(word, n);
    ZerosOfByte(word % 0x100);
    var marked := Marked(word, n);
    NotSplit(marked, n);
    Whole(Not(marked, n));
  }

  /** The flags are set exactly where a byte is zero. */
  lemma {:induction false} ZerosAreExact(word: nat, n: nat)
    requires word < Base(n)
    ensures Zeros(word, n) == Flagging(IsByte(0), word, n)
  {
    if n > 0 {
      ZerosAreExact(word / 0x100, n - 1);
      ZerosSplit(word, n);
      hide Zeros;
    }
  }

  /** Flag the bytes that equal `byte`. */
  function Equal(word: nat, byte: nat, n: nat): nat
    requires word < Base(n) && byte < 0x100
  {
    SpreadIsProduct(byte, n);
    BitsFit(XorGate, word, Spread(byte, n), n);
    Zeros(Xor(word, Spread(byte, n)), n)
  }

  lemma XorIsZero(a: nat, b: nat)
    ensures Xor(a, b) == 0 <==> a == b
  {
    XorCancels(a, b);
    XorCancels(a, 0);
    BitsWithZero(a);
  }

  lemma {:induction false} EqualIsExact(word: nat, byte: nat, n: nat)
    requires word < Base(n) && byte < 0x100
    ensures Equal(word, byte, n) == Flagging(IsByte(byte), word, n)
  {
    if n > 0 {
      EqualIsExact(word / 0x100, byte, n - 1);
      hide Bits, Zeros, Spread;
      SpreadSplit(byte, n);
      BitsOfBytes(XorGate, word, Spread(byte, n));
      SpreadIsProduct(byte, n);
      BitsFit(XorGate, word, Spread(byte, n), n);
      ZerosSplit(Xor(word, Spread(byte, n)), n);
      XorIsZero(word % 0x100, byte);
    }
  }

  // ---------------------------------------------------------------- ranges

  /** Every byte is below 0x80. */
  predicate AllAscii(word: nat, n: nat) { n == 0 || (word % 0x100 < 0x80 && AllAscii(word / 0x100, n - 1)) }

  /** Flag the bytes from `low` to `high`, both below 0x80, of a word of ASCII bytes. */
  function Within(word: nat, low: nat, high: nat, n: nat): nat
    requires low < 0x80 && high < 0x80
  {
    var fromLow := Wrapped(word + Spread(0x80 - low, n), n);
    var pastHigh := Wrapped(word + Spread(LOW7 - high, n), n);
    And(And(fromLow, Not(pastHigh, n)), Highs(n))
  }

  /** A byte's top bit survives `and` with another's and the high mask. */
  lemma TopsAnd(a: nat, b: nat)
    requires a < 0x100 && b < 0x100
    ensures And(And(a, b), HIGH) == FlagIf(a >= 0x80 && b >= 0x80)
  {
    BitsOfTops(AndGate, a, b);
    ByteMasks(And(a, b));
  }

  lemma MaskedSplit(a: nat, b: nat, n: nat)
    requires n > 0
    ensures And(And(a, b), Highs(n)) ==
      FlagIf(a % 0x100 >= 0x80 && b % 0x100 >= 0x80) + 0x100 * And(And(a / 0x100, b / 0x100), Highs(n - 1))
  {
    hide Bits, Spread;
    SpreadSplit(HIGH, n);
    BitsOfBytes(AndGate, a, b);
    BitsOfBytes(AndGate, And(a, b), Highs(n));
    TopsAnd(a % 0x100, b % 0x100);
  }

  lemma WithinSplit(word: nat, low: nat, high: nat, n: nat)
    requires n > 0 && low < 0x80 && high < 0x80 && word % 0x100 < 0x80
    ensures Within(word, low, high, n) ==
      FlagIf(low <= word % 0x100 <= high) + 0x100 * Within(word / 0x100, low, high, n - 1)
  {
    hide Bits, Wrapped, Base, Spread;
    RangeSum(word, 0x80 - low, n);
    RangeSum(word, LOW7 - high, n);
    var from, past := Wrapped(word + Spread(0x80 - low, n), n), Wrapped(word + Spread(LOW7 - high, n), n);
    NotSplit(past, n);
    MaskedSplit(from, Not(past, n), n);
  }

  /** Up to 0x80 added to an ASCII byte carries nothing. */
  lemma RangeSum(word: nat, byte: nat, n: nat)
    requires n > 0 && byte <= 0x80 && word % 0x100 < 0x80
    ensures var sum := Wrapped(word + Spread(byte, n), n);
      && sum % 0x100 == word % 0x100 + byte
      && sum / 0x100 == Wrapped(word / 0x100 + Spread(byte, n - 1), n - 1)
  {
    hide Wrapped, Spread;
    SpreadSplit(byte, n);
    var sum := word + Spread(byte, n);
    WrapSplit(sum, n);
    Parts(sum, word % 0x100 + byte, word / 0x100 + Spread(byte, n - 1));
    Parts(Wrapped(sum, n), sum % 0x100, Wrapped(sum / 0x100, n - 1));
  }

  /** The flags are set exactly where a byte is in the range. */
  lemma {:induction false} WithinIsExact(word: nat, low: nat, high: nat, n: nat)
    requires low < 0x80 && high < 0x80 && AllAscii(word, n)
    ensures Within(word, low, high, n) == Flagging(IsWithin(low, high), word, n)
  {
    if n == 0 {
      BitsWithZero(And(Wrapped(word, 0), Not(Wrapped(word, 0), 0)));
    } else {
      WithinIsExact(word / 0x100, low, high, n - 1);
      WithinSplit(word, low, high, n);
      hide Within;
    }
  }

  // ---------------------------------------------------------------- UTF-8

  /** Flag the ASCII bytes, those that continue a character, and those that open one. */
  function Ascii(word: nat, n: nat): nat
    requires word < Base(n)
  {
    And(Not(word, n), Highs(n))
  }

  function Continuations(word: nat, n: nat): nat
    requires word < Base(n)
  {
    And(And(word, Not(Wrapped(2 * word, n), n)), Highs(n))
  }

  function Openings(word: nat, n: nat): nat
    requires word < Base(n)
  {
    And(Or(Not(word, n), Wrapped(2 * word, n)), Highs(n))
  }

  lemma {:induction false} AsciiIsExact(word: nat, n: nat)
    requires word < Base(n)
    ensures Ascii(word, n) == Flagging(IsAscii(), word, n)
  {
    if n == 0 {
      BitsWithZero(Not(word, 0));
    } else {
      hide Ascii, Not;
      NotSplit(word, n);
      AsciiSplit(word, n);
      AsciiIsExact(word / 0x100, n - 1);
    }
  }

  lemma AsciiSplit(word: nat, n: nat)
    requires n > 0 && word < Base(n) && word / 0x100 < Base(n - 1)
    ensures Ascii(word, n) == FlagIf(word % 0x100 < 0x80) + 0x100 * Ascii(word / 0x100, n - 1)
  {
    hide Bits, Spread, Not, Base;
    NotSplit(word, n);
    SpreadSplit(HIGH, n);
    BitsOfBytes(AndGate, Not(word, n), Highs(n));
    ByteMasks(0xFF - word % 0x100);
  }

  /** A shift left, `carry` coming in below: it leaves bit 6 of every byte as bit 7. */
  function Doubled(word: nat, carry: nat, n: nat): (r: nat)
    ensures r < Base(n)
  {
    Wrapped(2 * word + carry, n)
  }

  lemma DoubledSplit(word: nat, carry: nat, n: nat)
    requires n > 0 && carry < 2
    ensures Doubled(word, carry, n) % 0x100 == (2 * (word % 0x100) + carry) % 0x100
    ensures Doubled(word, carry, n) / 0x100 == Doubled(word / 0x100, Top(word % 0x100), n - 1)
  {
    hide Wrapped;
    WrapSplit(2 * word + carry, n);
    var low, top := 2 * (word % 0x100) + carry, Top(word % 0x100);
    Parts(low, low - 0x100 * top, top);
    Parts(2 * word + carry, low - 0x100 * top, 2 * (word / 0x100) + top);
    Parts(Doubled(word, carry, n), low - 0x100 * top, Doubled(word / 0x100, top, n - 1));
  }

  lemma ContinuationsSplit(word: nat, carry: nat, n: nat)
    requires n > 0 && carry < 2
    ensures And(And(word, Not(Doubled(word, carry, n), n)), Highs(n)) ==
      FlagIf(0x80 <= word % 0x100 < 0xC0) +
      0x100 * And(And(word / 0x100, Not(Doubled(word / 0x100, Top(word % 0x100), n - 1), n - 1)), Highs(n - 1))
  {
    hide Bits, Doubled, Base;
    DoubledSplit(word, carry, n);
    NotSplit(Doubled(word, carry, n), n);
    MaskedSplit(word, Not(Doubled(word, carry, n), n), n);
  }

  lemma {:induction false} ContinuationsWithCarry(word: nat, carry: nat, n: nat)
    requires word < Base(n) && carry < 2
    ensures And(And(word, Not(Doubled(word, carry, n), n)), Highs(n)) == Flagging(IsContinuation(), word, n)
  {
    if n == 0 {
      BitsWithZero(And(word, Not(Doubled(word, carry, 0), 0)));
    } else {
      ContinuationsWithCarry(word / 0x100, Top(word % 0x100), n - 1);
      ContinuationsSplit(word, carry, n);
      hide And, Doubled;
    }
  }

  lemma ContinuationsAreExact(word: nat, n: nat)
    requires word < Base(n)
    ensures Continuations(word, n) == Flagging(IsContinuation(), word, n)
  {
    ContinuationsWithCarry(word, 0, n);
  }

  lemma TopsOr(a: nat, b: nat)
    requires a < 0x100 && b < 0x100
    ensures And(Or(a, b), HIGH) == FlagIf(a >= 0x80 || b >= 0x80)
  {
    BitsOfTops(OrGate, a, b);
    ByteMasks(Or(a, b));
  }

  lemma OpeningsSplit(word: nat, carry: nat, n: nat)
    requires n > 0 && carry < 2 && word < Base(n)
    ensures word / 0x100 < Base(n - 1)
    ensures And(Or(Not(word, n), Doubled(word, carry, n)), Highs(n)) ==
      FlagIf(word % 0x100 < 0x80 || word % 0x100 >= 0xC0) +
      0x100 * And(Or(Not(word / 0x100, n - 1), Doubled(word / 0x100, Top(word % 0x100), n - 1)), Highs(n - 1))
  {
    hide Bits, Doubled, Base, Spread;
    var shifted := Doubled(word, carry, n);
    DoubledSplit(word, carry, n);
    NotSplit(word, n);
    SpreadSplit(HIGH, n);
    BitsOfBytes(OrGate, Not(word, n), shifted);
    BitsOfBytes(AndGate, Or(Not(word, n), shifted), Highs(n));
    TopsOr(0xFF - word % 0x100, shifted % 0x100);
  }

  lemma {:induction false} OpeningsWithCarry(word: nat, carry: nat, n: nat)
    requires word < Base(n) && carry < 2
    ensures And(Or(Not(word, n), Doubled(word, carry, n)), Highs(n)) == Flagging(IsOpening(), word, n)
  {
    if n == 0 {
      BitsWithZero(Or(Not(word, 0), Doubled(word, carry, 0)));
    } else {
      OpeningsWithCarry(word / 0x100, Top(word % 0x100), n - 1);
      OpeningsSplit(word, carry, n);
      hide And, Or, Doubled;
    }
  }

  lemma OpeningsAreExact(word: nat, n: nat)
    requires word < Base(n)
    ensures Openings(word, n) == Flagging(IsOpening(), word, n)
  {
    OpeningsWithCarry(word, 0, n);
  }

  // ---------------------------------------------------------------- reading a mask

  /** The mask that flags the bytes `s` does. */
  function Mask(s: seq<bool>): nat { if |s| == 0 then 0 else FlagIf(s[0]) + 0x100 * Mask(s[1..]) }

  function Holding(p: nat -> bool, word: nat, n: nat): (s: seq<bool>)
    ensures |s| == n
  {
    seq(n, i requires 0 <= i < n => p(Byte(word, i)))
  }

  /** Every mask above flags exactly the bytes that meet its condition. */
  lemma {:induction false} FlaggingIsMask(p: nat -> bool, word: nat, n: nat)
    ensures Flagging(p, word, n) == Mask(Holding(p, word, n))
  {
    if n > 0 {
      FlaggingIsMask(p, word / 0x100, n - 1);
      var here, above := Holding(p, word, n), Holding(p, word / 0x100, n - 1);
      forall i | 0 <= i < n - 1 ensures here[i + 1] == above[i] { assert Byte(word, i + 1) == Byte(word / 0x100, i); }
      assert Byte(word, 0) == word % 0x100 && here[0] == p(Byte(word, 0));
      assert here[1..] == above;
    }
  }

  /** The population count, find-first-set and count-leading-zeros instructions. */
  function Popc(word: nat): nat { if word == 0 then 0 else word % 2 + Popc(word / 2) }

  function Ffs(word: nat): nat { if word == 0 then 0 else if word % 2 == 1 then 1 else 1 + Ffs(word / 2) }

  function BitsOf(word: nat): nat { if word == 0 then 0 else 1 + BitsOf(word / 2) }

  function Clz(word: nat, n: nat): int { 8 * n - BitsOf(word) }

  function CountOf(mask: nat): nat { Popc(mask) }
  function FirstOf(mask: nat): int { (Ffs(mask) - 1) / 8 }
  function LastOf(mask: nat, n: nat): int { (8 * n - 1 - Clz(mask, n)) / 8 }

  function Raised(word: nat, k: nat): nat { Pow2(k) * word }

  /** Shifting up by `k` moves the lowest and the highest bit by `k` and counts as many. */
  lemma {:induction false} ShiftedUp(word: nat, k: nat)
    requires word > 0
    ensures Raised(word, k) > 0 && Popc(Raised(word, k)) == Popc(word)
    ensures Ffs(Raised(word, k)) == Ffs(word) + k && BitsOf(Raised(word, k)) == BitsOf(word) + k
  {
    if k > 0 {
      ShiftedUp(word, k - 1);
      var under := Raised(word, k - 1);
      assert Raised(word, k) == 2 * under;
      EvenBits(under);
      hide Popc, Ffs, BitsOf, Raised;
    }
  }

  /** A flag below seven clear bits and a word above them. */
  lemma FlagBelow(word: nat)
    ensures Popc(HIGH + 0x100 * word) == 1 + Popc(word)
    ensures Ffs(HIGH + 0x100 * word) == 8
    ensures word > 0 ==> BitsOf(HIGH + 0x100 * word) == BitsOf(word) + 8
    ensures word == 0 ==> BitsOf(HIGH + 0x100 * word) == 8
  {
    hide Raised, Popc, Ffs, BitsOf;
    OddBits(word);
    ShiftedUp(1 + 2 * word, 7);
    RaisedBytes(1 + 2 * word);
  }

  lemma RaisedBytes(word: nat)
    ensures Raised(word, 7) == 0x80 * word && Raised(word, 8) == 0x100 * word
  {
    Pow2Bytes();
    hide Pow2;
  }

  lemma EvenBits(word: nat)
    requires word > 0
    ensures Popc(2 * word) == Popc(word) && Ffs(2 * word) == Ffs(word) + 1 && BitsOf(2 * word) == BitsOf(word) + 1
  {
    var even := 2 * word;
    assert even % 2 == 0 && even / 2 == word;
  }

  lemma OddBits(word: nat)
    ensures Popc(1 + 2 * word) == 1 + Popc(word) && Ffs(1 + 2 * word) == 1
    ensures BitsOf(1 + 2 * word) == 1 + BitsOf(word) && BitsOf(0) == 0
  {}

  lemma ClearBelow(word: nat)
    ensures Popc(0x100 * word) == Popc(word)
    ensures word > 0 ==> Ffs(0x100 * word) == Ffs(word) + 8 && BitsOf(0x100 * word) == BitsOf(word) + 8
  {
    if word > 0 {
      hide Raised, Popc, Ffs, BitsOf;
      ShiftedUp(word, 8);
      RaisedBytes(word);
    }
  }

  lemma {:induction false} CountCons(s: seq<bool>)
    requires |s| > 0
    ensures Count(s) == (if s[0] then 1 else 0) + Count(s[1..])
  {
    if |s| > 1 {
      CountCons(s[..|s| - 1]);
      assert s[1..][..|s| - 2] == s[..|s| - 1][1..];
    }
  }

  lemma {:induction false} MaskIsClear(s: seq<bool>)
    ensures Mask(s) == 0 <==> forall i :: 0 <= i < |s| ==> !s[i]
  {
    if |s| > 0 {
      MaskIsClear(s[1..]);
      assert (forall i :: 0 <= i < |s[1..]| ==> !s[1..][i]) && !s[0] ==> forall i :: 0 <= i < |s| ==> !s[i];
    }
  }

  /** A mask counts its flags. */
  lemma {:induction false} CountIsExact(s: seq<bool>)
    ensures CountOf(Mask(s)) == Count(s)
  {
    if |s| > 0 {
      hide Popc;
      CountIsExact(s[1..]);
      CountCons(s);
      FlagBelow(Mask(s[1..]));
      ClearBelow(Mask(s[1..]));
    }
  }

  lemma FirstStep(flag: bool, rest: nat)
    ensures FirstOf(FlagIf(flag) + 0x100 * rest) == if flag then 0 else if rest > 0 then FirstOf(rest) + 1 else -1
  {
    if flag {
      hide Ffs;
      FlagBelow(rest);
    } else if rest > 0 {
      hide Ffs;
      ClearBelow(rest);
      Eighth(Ffs(rest) - 1);
    }
  }

  lemma Eighth(x: int)
    ensures (x + 8) / 8 == x / 8 + 1
  {}

  /** Find-first-set of a mask points at the lowest flag, or at none. */
  lemma {:induction false} FirstIsExact(s: seq<bool>)
    ensures FirstOf(Mask(s)) == First(s)
  {
    if |s| > 0 {
      FirstIsExact(s[1..]);
      MaskIsClear(s[1..]);
      FirstStep(s[0], Mask(s[1..]));
      FirstCons(s);
      hide FirstOf, FlagIf;
    }
  }

  lemma FirstCons(s: seq<bool>)
    requires |s| > 0
    ensures First(s) == if s[0] then 0 else if First(s[1..]) >= 0 then First(s[1..]) + 1 else -1
  {
    var r, q := First(s), First(s[1..]);
    if !s[0] {
      if q >= 0 { assert s[q + 1]; }
      if r >= 0 { assert s[1..][r - 1]; }
    }
  }

  lemma LastStep(flag: bool, rest: nat, n: nat)
    ensures LastOf(FlagIf(flag) + 0x100 * rest, n + 1) == if rest > 0 then LastOf(rest, n) + 1 else if flag then 0 else -1
  {
    if flag {
      hide BitsOf;
      FlagBelow(rest);
      Eighth(BitsOf(rest) - 1);
    } else if rest > 0 {
      hide BitsOf;
      ClearBelow(rest);
      Eighth(BitsOf(rest) - 1);
    }
  }

  ghost predicate IsLast(s: seq<bool>, last: int) {
    && -1 <= last < |s|
    && (last >= 0 ==> s[last])
    && forall i :: last < i < |s| ==> !s[i]
  }

  lemma IsLastCons(s: seq<bool>, up: int)
    requires |s| > 0 && IsLast(s[1..], up)
    ensures IsLast(s, if up >= 0 then up + 1 else if s[0] then 0 else -1)
  {
    var last := if up >= 0 then up + 1 else if s[0] then 0 else -1;
    forall i | last < i < |s| ensures !s[i] {
      if i > 0 { assert !s[1..][i - 1]; }
    }
  }

  /** Count-leading-zeros of a mask points at the highest flag, or at none. */
  lemma {:induction false} LastIsExact(s: seq<bool>)
    ensures IsLast(s, LastOf(Mask(s), |s|))
  {
    if |s| > 0 {
      LastIsExact(s[1..]);
      MaskIsClear(s[1..]);
      LastStep(s[0], Mask(s[1..]), |s| - 1);
      IsLastCons(s, LastOf(Mask(s[1..]), |s| - 1));
      hide LastOf, FlagIf;
    }
  }
}
