/** What splitmix tells apart (src/patos/cuda/hashing.py:19-26): every step of it can be undone, so no two
    64-bit words have one hash; and one published value. */
module HashingTells {
  import opened Hashing
  import opened Integers
  import opened Words
  import opened Warp

  // ---------------------------------------------------------------- no two words alike

  lemma XorParts(a: nat, b: nat)
    ensures Xor(a, b) % 2 == (if a % 2 == b % 2 then 0 else 1) && Xor(a, b) / 2 == Xor(a / 2, b / 2)
  {
    BitsStep(XorGate, a, b);
    hide Bits;
  }

  lemma {:induction false} XorAssociates(a: nat, b: nat, c: nat)
    ensures Xor(Xor(a, b), c) == Xor(a, Xor(b, c))
    decreases a + b + c
  {
    if a == 0 && b == 0 && c == 0 {
    } else {
      hide Bits;
      XorAssociates(a / 2, b / 2, c / 2);
      XorParts(a, b);
      XorParts(b, c);
      XorParts(Xor(a, b), c);
      XorParts(a, Xor(b, c));
    }
  }

  lemma HalfQuotient(a: nat, p: nat)
    requires p > 0
    ensures Quotient(a / 2, p) == Quotient(a, 2 * p)
  {
    var q, r := DivMod(a / 2, p);
    ModUnique(p, a / 2, q, r);
    assert a == q * (2 * p) + (2 * r + a % 2);
    ModUnique(2 * p, a, q, 2 * r + a % 2);
  }

  lemma QuotientOne(a: nat)
    ensures Quotient(a, 1) == a
  {}

  /** Shifting right goes through exclusive or. */
  lemma {:induction false} XorQuotient(k: nat, a: nat, b: nat)
    ensures Xor(Quotient(a, Pow2(k)), Quotient(b, Pow2(k))) == Quotient(Xor(a, b), Pow2(k))
  {
    hide Bits, Quotient;
    if k == 0 {
      QuotientOne(a);
      QuotientOne(b);
      QuotientOne(Xor(a, b));
    } else {
      XorQuotient(k - 1, a / 2, b / 2);
      XorParts(a, b);
      HalfQuotient(a, Pow2(k - 1));
      HalfQuotient(b, Pow2(k - 1));
      HalfQuotient(Xor(a, b), Pow2(k - 1));
    }
  }

  lemma DivModIs(a: nat, p: nat)
    requires p > 0
    ensures a == a % p + p * (a / p) && a % p < p && a / p >= 0
  {}

  lemma ShiftedSelf(d: nat, p: nat)
    requires p > 1 && d == Quotient(d, p)
    ensures d == 0
  {
    DivModIs(d, p);
    if d > 0 { TimesMonotone(2, p, d); }
  }

  /** A word xored with itself shifted right tells the word. */
  lemma MixedTells(k: nat, a: nat, b: nat)
    requires k > 0 && Mixed(a, Pow2(k)) == Mixed(b, Pow2(k))
    ensures a == b
  {
    var p := Pow2(k);
    assert p == 2 * Pow2(k - 1);
    var d, a', b' := Xor(a, b), Quotient(a, p), Quotient(b, p);
    hide Bits, Pow2, Quotient;
    XorQuotient(k, a, b);
    // a ^ a' == b ^ b', so a ^ b == a' ^ b'
    XorCancels(b, b');
    XorAssociates(b, a, a');
    XorCommutes(b, a);
    XorCommutes(d, a');
    XorCancels(a', d);
    XorCommutes(a', b');
    ShiftedSelf(d, p);
    XorCancels(a, b);
    BitsWithZero(a);
  }

  const UNMIX_ONE: nat := 0x96DE_1B17_3F11_9089
  const UNMIX_TWO: nat := 0x3196_42B2_D24D_8EC3

  /** Each multiplier has an inverse, so multiplying by it tells words apart. */
  lemma Unmixes(value: U64, mix: nat, unmix: nat)
    requires mix * unmix % TWO64 == 1
    ensures value * mix % TWO64 * unmix % TWO64 == value
  {
    var q, m := mix * unmix / TWO64, TWO64;
    var r := value * mix % m;
    var h := value * mix / m;
    assert value * mix == h * m + r;
    assert r * unmix == (value * q - h * unmix) * m + value by {
      assert r * unmix == (value * mix - h * m) * unmix == value * mix * unmix - h * m * unmix;
      assert value * mix * unmix == value * (mix * unmix) == value * (q * m + 1) == value * q * m + value;
      assert h * m * unmix == h * unmix * m;
    }
    ModUnique(m, r * unmix, value * q - h * unmix, value);
  }

  lemma Inverses()
    ensures MIX_ONE * UNMIX_ONE % TWO64 == 1 && MIX_TWO * UNMIX_TWO % TWO64 == 1
  {}

  lemma Shifts()
    ensures SHIFT27 == Pow2(27) && SHIFT30 == Pow2(30) && SHIFT31 == Pow2(31)
  {
    Pow2Bytes();
    Pow2Adds(7, 8);
    Pow2Adds(15, 15);
    Pow2Adds(7, 15);
    Pow2Adds(22, 8);
    hide Pow2;
  }

  /** A mix and a multiplication tell words apart. */
  lemma StageTells(k: nat, a: U64, b: U64, mix: nat, unmix: nat)
    requires k > 0 && mix * unmix % TWO64 == 1
    requires Mixed(a, Pow2(k)) * mix % TWO64 == Mixed(b, Pow2(k)) * mix % TWO64
    ensures a == b
  {
    Unmixes(MixedWord(a, Pow2(k)), mix, unmix);
    Unmixes(MixedWord(b, Pow2(k)), mix, unmix);
    hide Mixed, Pow2;
    MixedTells(k, a, b);
  }

  lemma SumTells(a: U64, b: U64)
    requires (a + GOLDEN_GAMMA) % TWO64 == (b + GOLDEN_GAMMA) % TWO64
    ensures a == b
  {}

  /** No two 64-bit words hash alike. */
  lemma SplitmixTells(a: U64, b: U64)
    requires Splitmix(a) == Splitmix(b)
    ensures a == b
  {
    hide Mixed, Pow2;
    Shifts();
    Inverses();
    var s, t: U64 := ToU64(a + GOLDEN_GAMMA), ToU64(b + GOLDEN_GAMMA);
    var s1, t1: U64 := ToU64(Mixed(s, SHIFT30) * MIX_ONE), ToU64(Mixed(t, SHIFT30) * MIX_ONE);
    var s2, t2: U64 := ToU64(Mixed(s1, SHIFT27) * MIX_TWO), ToU64(Mixed(t1, SHIFT27) * MIX_TWO);
    var h, g := MixedWord(s2, SHIFT31), MixedWord(t2, SHIFT31);
    assert Splitmix(a) == h && Splitmix(b) == g;
    hide Splitmix;
    MixedTells(31, s2, t2);
    StageTells(27, s1, t1, MIX_TWO, UNMIX_TWO);
    StageTells(30, s, t, MIX_ONE, UNMIX_ONE);
    SumTells(a, b);
  }

  // ---------------------------------------------------------------- published values

  function Differ(a: nat, b: nat): nat { if a % 2 == b % 2 then 0 else 1 }

  /** Exclusive or of two bytes, bit by bit, and of four pairs of bytes. */
  function Xor8(a: nat, b: nat): nat {
    Differ(a, b) + 2 * Differ(a / 2, b / 2) + 4 * Differ(a / 4, b / 4) + 8 * Differ(a / 8, b / 8)
    + 0x10 * Differ(a / 0x10, b / 0x10) + 0x20 * Differ(a / 0x20, b / 0x20)
    + 0x40 * Differ(a / 0x40, b / 0x40) + 0x80 * Differ(a / 0x80, b / 0x80)
  }

  function XorBytes(a0: nat, b0: nat, a1: nat, b1: nat, a2: nat, b2: nat, a3: nat, b3: nat): nat {
    Xor8(a0, b0) + 0x100 * Xor8(a1, b1) + 0x1_0000 * Xor8(a2, b2) + 0x100_0000 * Xor8(a3, b3)
  }

  lemma XorNext(a: nat, b: nat)
    ensures Xor(a, b) == Differ(a, b) + 2 * Xor(a / 2, b / 2)
  {
    hide Bits;
    XorParts(a, b);
  }

  lemma XorNibble(a: nat, b: nat)
    ensures Xor(a, b) == Differ(a, b) + 2 * Differ(a / 2, b / 2) + 4 * Differ(a / 4, b / 4) + 8 * Differ(a / 8, b / 8)
                         + 0x10 * Xor(a / 0x10, b / 0x10)
  {
    hide Bits, Differ;
    XorNext(a, b);
    XorNext(a / 2, b / 2);
    XorNext(a / 4, b / 4);
    XorNext(a / 8, b / 8);
    assert a / 2 / 2 == a / 4 && a / 4 / 2 == a / 8 && a / 8 / 2 == a / 0x10;
    assert b / 2 / 2 == b / 4 && b / 4 / 2 == b / 8 && b / 8 / 2 == b / 0x10;
  }

  lemma XorByte(a: nat, b: nat)
    ensures Xor(a, b) == Xor8(a, b) + 0x100 * Xor(a / 0x100, b / 0x100)
  {
    hide Bits, Differ;
    XorNibble(a, b);
    XorNibble(a / 0x10, b / 0x10);
    assert a / 0x10 / 2 == a / 0x20 && a / 0x10 / 4 == a / 0x40 && a / 0x10 / 8 == a / 0x80 && a / 0x10 / 0x10 == a / 0x100;
    assert b / 0x10 / 2 == b / 0x20 && b / 0x10 / 4 == b / 0x40 && b / 0x10 / 8 == b / 0x80 && b / 0x10 / 0x10 == b / 0x100;
  }

  lemma XorOfByte(low: nat, low': nat)
    requires low < 0x100 && low' < 0x100
    ensures Xor(low, low') == Xor8(low, low')
  {
    hide Bits, Xor8;
    XorByte(low, low');
    Parts(low, low, 0);
    Parts(low', low', 0);
    BitsWithZero(0);
  }

  /** Two bytes below two others. */
  lemma XorOver(low: nat, low': nat, high: nat, high': nat)
    requires low < 0x100 && low' < 0x100
    ensures Xor(low + 0x100 * high, low' + 0x100 * high') == Xor8(low, low') + 0x100 * Xor(high, high')
  {
    hide Bits, Xor8;
    var a, b := low + 0x100 * high, low' + 0x100 * high';
    Parts(a, low, high);
    Parts(b, low', high');
    BitsOfBytes(XorGate, a, b);
    XorOfByte(low, low');
    Whole(Xor(a, b));
  }

  function Word4(b0: nat, b1: nat, b2: nat, b3: nat, rest: nat): nat {
    b0 + 0x100 * (b1 + 0x100 * (b2 + 0x100 * (b3 + 0x100 * rest)))
  }

  /** Four bytes of each of two words, and the rest of them. */
  lemma XorOfBytes(a0: nat, b0: nat, a1: nat, b1: nat, a2: nat, b2: nat, a3: nat, b3: nat, a: nat, b: nat)
    requires a0 < 0x100 && a1 < 0x100 && a2 < 0x100 && a3 < 0x100
    requires b0 < 0x100 && b1 < 0x100 && b2 < 0x100 && b3 < 0x100
    ensures Xor(Word4(a0, a1, a2, a3, a), Word4(b0, b1, b2, b3, b))
            == XorBytes(a0, b0, a1, b1, a2, b2, a3, b3) + TWO32 * Xor(a, b)
  {
    hide Bits, Xor8;
    XorOver(a3, b3, a, b);
    XorOver(a2, b2, a3 + 0x100 * a, b3 + 0x100 * b);
    XorOver(a1, b1, a2 + 0x100 * (a3 + 0x100 * a), b2 + 0x100 * (b3 + 0x100 * b));
    XorOver(a0, b0, a1 + 0x100 * (a2 + 0x100 * (a3 + 0x100 * a)), b1 + 0x100 * (b2 + 0x100 * (b3 + 0x100 * b)));
  }

  datatype Bytes4 = Bytes4(b0: nat, b1: nat, b2: nat, b3: nat) {
    predicate Ok() { b0 < 0x100 && b1 < 0x100 && b2 < 0x100 && b3 < 0x100 }
    function Over(rest: nat): nat { Word4(b0, b1, b2, b3, rest) }
    function Xored(other: Bytes4): nat { XorBytes(b0, other.b0, b1, other.b1, b2, other.b2, b3, other.b3) }
  }

  lemma XorWithZero(byte: nat)
    requires byte < 0x100
    ensures Xor8(byte, 0) == byte
  {
    hide Xor8;
    XorOfByte(byte, 0);
    BitsWithZero(byte);
  }

  lemma QuotientIs(value: nat, scale: nat, quotient: nat)
    requires scale > 0 && quotient * scale <= value < quotient * scale + scale
    ensures Quotient(value, scale) == quotient
  {
    ModUnique(scale, value, quotient, value - quotient * scale);
  }

  /** Of a word and its quotient by their bytes. */
  lemma MixedIs(scale: nat, value: nat, quotient: nat, al: Bytes4, ah: Bytes4, bl: Bytes4, bh: Bytes4)
    requires scale > 0 && Quotient(value, scale) == quotient
    requires al.Ok() && ah.Ok() && bl.Ok() && bh.Ok()
    requires value == al.Over(ah.Over(0)) && quotient == bl.Over(bh.Over(0))
    ensures Mixed(value, scale) == al.Xored(bl) + TWO32 * ah.Xored(bh)
  {
    hide Bits, XorBytes, Quotient, Word4;
    XorOfBytes(al.b0, bl.b0, al.b1, bl.b1, al.b2, bl.b2, al.b3, bl.b3, ah.Over(0), bh.Over(0));
    XorOfBytes(ah.b0, bh.b0, ah.b1, bh.b1, ah.b2, bh.b2, ah.b3, bh.b3, 0, 0);
    BitsWithZero(0);
  }

  lemma FirstLow()
    ensures Bytes4(0x15, 0x7C, 0x4A, 0x7F).Xored(Bytes4(0xE5, 0xE6, 0xDD, 0x78)) == 0x797_9AF0
  {
    assert Xor8(0x15, 0xE5) == 0xF0;
    assert Xor8(0x7C, 0xE6) == 0x9A;
    assert Xor8(0x4A, 0xDD) == 0x97;
    assert Xor8(0x7F, 0x78) == 7;
    hide Xor8;
  }

  lemma FirstHigh()
    ensures Bytes4(0xB9, 0x79, 0x37, 0x9E).Xored(Bytes4(2, 0, 0, 0)) == 0x9E37_79BB
  {
    assert Xor8(0xB9, 2) == 0xBB;
    XorWithZero(0x79);
    XorWithZero(0x37);
    XorWithZero(0x9E);
    hide Xor8;
  }

  lemma FirstMix()
    ensures Mixed(0x9E37_79B9_7F4A_7C15, SHIFT30) == 0x9E37_79BB_0797_9AF0
  {
    hide Mixed, Quotient, XorBytes;
    FirstLow();
    FirstHigh();
    QuotientIs(0x9E37_79B9_7F4A_7C15, SHIFT30, 0x2_78DD_E6E5);
    MixedIs(SHIFT30, 0x9E37_79B9_7F4A_7C15, 0x2_78DD_E6E5,
            Bytes4(0x15, 0x7C, 0x4A, 0x7F), Bytes4(0xB9, 0x79, 0x37, 0x9E), Bytes4(0xE5, 0xE6, 0xDD, 0x78), Bytes4(2, 0, 0, 0));
  }

  lemma SecondLow()
    ensures Bytes4(0x70, 0xA7, 0xE7, 0x57).Xored(Bytes4(0x6A, 0xC3, 4, 0xED)) == 0xBAE3_641A
  {
    assert Xor8(0x70, 0x6A) == 0x1A;
    assert Xor8(0xA7, 0xC3) == 0x64;
    assert Xor8(0xE7, 4) == 0xE3;
    assert Xor8(0x57, 0xED) == 0xBA;
    hide Xor8;
  }

  lemma SecondHigh()
    ensures Bytes4(0x1B, 0x26, 0x68, 0x6F).Xored(Bytes4(0xD, 0, 0, 0)) == 0x6F68_2616
  {
    assert Xor8(0x1B, 0xD) == 0x16;
    XorWithZero(0x26);
    XorWithZero(0x68);
    XorWithZero(0x6F);
    hide Xor8;
  }

  lemma SecondMix()
    ensures Mixed(0x6F68_261B_57E7_A770, SHIFT27) == 0x6F68_2616_BAE3_641A
  {
    hide Mixed, Quotient, XorBytes;
    SecondLow();
    SecondHigh();
    QuotientIs(0x6F68_261B_57E7_A770, SHIFT27, 0xD_ED04_C36A);
    MixedIs(SHIFT27, 0x6F68_261B_57E7_A770, 0xD_ED04_C36A,
            Bytes4(0x70, 0xA7, 0xE7, 0x57), Bytes4(0x1B, 0x26, 0x68, 0x6F), Bytes4(0x6A, 0xC3, 4, 0xED), Bytes4(0xD, 0, 0, 0));
  }

  lemma ThirdLow()
    ensures Bytes4(0xDE, 0x9D, 0x5C, 0xBF).Xored(Bytes4(0x71, 0x50, 0x41, 0xC4)) == 0x7B1D_CDAF
  {
    assert Xor8(0xDE, 0x71) == 0xAF;
    assert Xor8(0x9D, 0x50) == 0xCD;
    assert Xor8(0x5C, 0x41) == 0x1D;
    assert Xor8(0xBF, 0xC4) == 0x7B;
    hide Xor8;
  }

  lemma ThirdHigh()
    ensures Bytes4(0x38, 0xA8, 0x20, 0xE2).Xored(Bytes4(1, 0, 0, 0)) == 0xE220_A839
  {
    assert Xor8(0x38, 1) == 0x39;
    XorWithZero(0xA8);
    XorWithZero(0x20);
    XorWithZero(0xE2);
    hide Xor8;
  }

  lemma ThirdMix()
    ensures Mixed(0xE220_A838_BF5C_9DDE, SHIFT31) == 0xE220_A839_7B1D_CDAF
  {
    hide Mixed, Quotient, XorBytes;
    ThirdLow();
    ThirdHigh();
    QuotientIs(0xE220_A838_BF5C_9DDE, SHIFT31, 0x1_C441_5071);
    MixedIs(SHIFT31, 0xE220_A838_BF5C_9DDE, 0x1_C441_5071,
            Bytes4(0xDE, 0x9D, 0x5C, 0xBF), Bytes4(0x38, 0xA8, 0x20, 0xE2), Bytes4(0x71, 0x50, 0x41, 0xC4), Bytes4(1, 0, 0, 0));
  }

  /** The first word that the generator gives from the seed 0, as published. */
  lemma SplitmixOfZero()
    ensures Splitmix(0) == 0xE220_A839_7B1D_CDAF
  {
    hide Mixed;
    FirstMix();
    assert 0x9E37_79BB_0797_9AF0 * MIX_ONE % TWO64 == 0x6F68_261B_57E7_A770;
    SecondMix();
    assert 0x6F68_2616_BAE3_641A * MIX_TWO % TWO64 == 0xE220_A838_BF5C_9DDE;
    ThirdMix();
  }
}
