/** Splitmix on both sides of a launch, and how large a table is made
    (src/patos/cuda/hashing.py:4-31, src/patos/cuda/primitives/hash.py:112-120). */
module Hashing {
  import opened Integers
  import opened Warp
  import opened Words

  const EMPTY_KEY: U64 := 0xFFFF_FFFF_FFFF_FFFF
  const GOLDEN_GAMMA: U64 := 0x9E37_79B9_7F4A_7C15
  const MIX_ONE: U64 := 0xBF58_476D_1CE4_E5B9
  const MIX_TWO: U64 := 0x94D0_49BB_1331_11EB

  // ---------------------------------------------------------------- splitmix

  /** A word xored with itself shifted right, the shift as a division. */
  function Mixed(value: nat, scale: nat): nat
    requires scale > 0
  {
    Xor(value, Quotient(value, scale))
  }

  function Quotient(value: nat, scale: nat): (q: nat)
    requires scale > 0
    ensures q <= value
  {
    QuotientBelow(value, scale);
    value / scale
  }

  lemma QuotientBelow(value: nat, scale: nat)
    requires scale > 0
    ensures 0 <= value / scale <= value
  {
    var q, r := DivMod(value, scale);
    TimesMonotone(1, scale, q);
  }

  const SHIFT27: nat := 0x800_0000
  const SHIFT30: nat := 0x4000_0000
  const SHIFT31: nat := 0x8000_0000

  /** The host's hash of an integer of any size, cut to 64 bits where the host cuts it. */
  function Splitmix(key: int): nat {
    var sum := (key + GOLDEN_GAMMA) % TWO64;
    var one := Mixed(sum, SHIFT30) * MIX_ONE % TWO64;
    var two := Mixed(one, SHIFT27) * MIX_TWO % TWO64;
    Mixed(two, SHIFT31) % TWO64
  }

  lemma Word64()
    ensures Pow2(64) == TWO64
  {
    assert Pow2(4) == 16;
    Pow2Adds(4, 4);
    assert Pow2(8) == 0x100;
    Pow2Adds(8, 8);
    assert Pow2(16) == 0x1_0000;
    Pow2Adds(16, 16);
    assert Pow2(32) == TWO32;
    Pow2Adds(32, 32);
  }

  /** A mask after a wrapping operation changes nothing. */
  lemma MaskedWord(x: int)
    ensures ToU64(x) % TWO64 == x % TWO64
  {}

  function MixedWord(value: U64, scale: nat): (r: U64)
    requires scale > 0
    ensures r == Mixed(value, scale)
  {
    Word64();
    BitsBelow(XorGate, value, Quotient(value, scale), 64);
    Mixed(value, scale)
  }

  /** The device hashes in wrapping 64-bit words, bit for bit as the host does. */
  method DeviceSplitmix(key: U64) returns (hash: U64)
    ensures hash == Splitmix(key)
  {
    hide Mixed, ToU64;
    var value: U64 := ToU64(key + GOLDEN_GAMMA) % TWO64;
    MaskedWord(key + GOLDEN_GAMMA);
    value := MixedWord(value, SHIFT30);
    MaskedWord(value * MIX_ONE);
    value := ToU64(value * MIX_ONE) % TWO64;
    value := MixedWord(value, SHIFT27);
    MaskedWord(value * MIX_TWO);
    value := ToU64(value * MIX_TWO) % TWO64;
    return MixedWord(value, SHIFT31);
  }

  /** The host hashes an integer as it hashes the 64-bit word the device is given of it. */
  lemma SplitmixOfWord(key: int)
    ensures Splitmix(key) == Splitmix(ToU64(key)) && Splitmix(key) < TWO64
  {
    hide Mixed;
    Wraps64(key, GOLDEN_GAMMA);
  }

  // ---------------------------------------------------------------- capacity

  function BitLength(n: nat): nat { if n == 0 then 0 else 1 + BitLength(n / 2) }

  function AtLeastOne(n: int): nat { if n > 1 then n else 1 }

  function TableCapacity(entries: nat): nat { Pow2(BitLength(AtLeastOne(entries * 2 - 1))) }

  lemma {:induction false} BitLengthBounds(n: nat)
    ensures n < Pow2(BitLength(n))
    ensures n > 0 ==> BitLength(n) > 0 && Pow2(BitLength(n) - 1) <= n
  {
    if n > 0 { BitLengthBounds(n / 2); }
  }

  lemma {:induction false} Pow2Grows(a: nat, b: nat)
    requires a <= b
    ensures Pow2(a) <= Pow2(b)
  {
    if a < b { Pow2Grows(a, b - 1); }
  }

  ghost predicate IsPow2(n: nat) { exists k: nat :: n == Pow2(k) }

  /** The capacity is the least power of two that is at least 2 and at least twice the entries. */
  lemma CapacityIsLeast(entries: nat, other: nat)
    ensures IsPow2(TableCapacity(entries)) && TableCapacity(entries) >= 2 && TableCapacity(entries) >= 2 * entries
    ensures IsPow2(other) && other >= 2 && other >= 2 * entries ==> TableCapacity(entries) <= other
  {
    var n := AtLeastOne(entries * 2 - 1);
    BitLengthBounds(n);
    assert TableCapacity(entries) == Pow2(BitLength(n));
    if IsPow2(other) && other >= 2 && other >= 2 * entries {
      var k: nat :| other == Pow2(k);
      assert other > n;
      if k < BitLength(n) { Pow2Grows(k, BitLength(n) - 1); } else { Pow2Grows(BitLength(n), k); }
    }
  }

  /** `shift` is the capacity's base-two logarithm, as a built map stores it. */
  lemma {:induction false} LengthOfPow2(k: nat)
    ensures BitLength(Pow2(k)) == k + 1
  {
    if k > 0 {
      LengthOfPow2(k - 1);
      assert Pow2(k) / 2 == Pow2(k - 1);
    }
  }

  lemma ShiftOfCapacity(entries: nat)
    ensures var shift := BitLength(TableCapacity(entries)) - 1;
      shift >= 0 && Pow2(shift) == TableCapacity(entries)
  {
    LengthOfPow2(BitLength(AtLeastOne(entries * 2 - 1)));
  }
}
