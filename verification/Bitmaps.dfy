/** Bitmaps of 64-bit words, and the filter that keeps one bit for each value
    (src/patos/cuda/primitives/hash.py:196-232). */
module Bitmaps {
  import opened Hashing
  import opened Integers
  import opened Words

  /** Flags as a number, the first its lowest bit. */
  function Packed(flags: seq<bool>): nat {
    if |flags| == 0 then 0 else (if flags[0] then 1 else 0) + 2 * Packed(flags[1..])
  }

  /** `word >> i`. */
  function Shifted(word: nat, i: nat): nat { if i == 0 then word else Shifted(word / 2, i - 1) }

  function Bit(word: nat, i: nat): bool { Shifted(word, i) % 2 == 1 }

  lemma {:induction false} BitOfPacked(flags: seq<bool>, i: nat)
    requires i < |flags|
    ensures Bit(Packed(flags), i) == flags[i]
  {
    assert Packed(flags) / 2 == Packed(flags[1..]) && (Packed(flags) % 2 == 1) == flags[0];
    if i > 0 { BitOfPacked(flags[1..], i - 1); }
  }

  lemma {:induction false} PackedBelow(flags: seq<bool>)
    ensures Packed(flags) < Pow2(|flags|)
  {
    if |flags| > 0 { PackedBelow(flags[1..]); }
  }

  lemma {:induction false} PackedConcat(a: seq<bool>, b: seq<bool>)
    ensures Packed(a + b) == Packed(a) + Pow2(|a|) * Packed(b)
  {
    if |a| == 0 {
      assert a + b == b;
    } else {
      PackedConcat(a[1..], b);
      assert (a + b)[1..] == a[1..] + b;
      assert 2 * (Pow2(|a| - 1) * Packed(b)) == 2 * Pow2(|a| - 1) * Packed(b);
    }
  }

  /** Bytes of eight flags each, as `packbits` gives them in little bit order. */
  function Bytes(flags: seq<bool>): (r: seq<nat>)
    ensures |r| == |flags| / 8
  {
    seq(|flags| / 8, i requires 0 <= i < |flags| / 8 => Packed(flags[8 * i..8 * i + 8]))
  }

  /** Bytes as a number, the first the lowest: how a word is viewed on them. */
  function LittleEndian(bytes: seq<nat>): nat {
    if |bytes| == 0 then 0 else bytes[0] + 0x100 * LittleEndian(bytes[1..])
  }

  lemma {:induction false} BytesPack(flags: seq<bool>)
    requires |flags| % 8 == 0
    ensures LittleEndian(Bytes(flags)) == Packed(flags)
  {
    if |flags| > 0 {
      var byte, rest := flags[..8], flags[8..];
      BytesPack(rest);
      assert Bytes(flags)[1..] == Bytes(rest) by {
        forall i | 0 <= i < |rest| / 8 ensures flags[8 * (i + 1)..8 * (i + 1) + 8] == rest[8 * i..8 * i + 8] {}
      }
      PackedConcat(byte, rest);
      assert byte + rest == flags && flags[0..8] == byte;
      assert Pow2(8) == 0x100;
    }
  }

  /** The 64-bit words of the bytes. */
  function Pack(flags: seq<bool>): (words: seq<nat>)
    requires |flags| % 64 == 0
    ensures |words| == |flags| / 64
  {
    var bytes := Bytes(flags);
    seq(|flags| / 64, w requires 0 <= w < |flags| / 64 => LittleEndian(bytes[8 * w..8 * w + 8]))
  }

  predicate Contains(words: seq<nat>, bit: nat)
    requires bit / 64 < |words|
  {
    Bit(words[bit / 64], bit % 64)
  }

  lemma SliceOfSlice<T>(s: seq<T>, a: nat, b: nat, c: nat, d: nat)
    requires a <= b <= |s| && c <= d <= b - a
    ensures s[a..b][c..d] == s[a + c..a + d]
  {
    forall k | 0 <= k < d - c ensures s[a..b][c..d][k] == s[a + c..a + d][k] {}
  }

  /** A packed bitmap answers each bit with its flag, from words that hold sixty-four bits. */
  lemma PackContains(flags: seq<bool>, bit: nat)
    requires |flags| % 64 == 0 && bit < |flags|
    ensures Contains(Pack(flags), bit) == flags[bit]
    ensures Pack(flags)[bit / 64] < TWO64
  {
    hide Packed, Bit, LittleEndian;
    var w := bit / 64;
    var own := flags[64 * w..64 * w + 64];
    OwnBytes(flags, w);
    BytesPack(own);
    BitOfPacked(own, bit % 64);
    PackedBelow(own);
    Word64();
  }

  /** The bytes of a word are those of its own flags. */
  lemma OwnBytes(flags: seq<bool>, w: nat)
    requires 64 * w + 64 <= |flags|
    ensures 8 * w + 8 <= |Bytes(flags)|
    ensures Bytes(flags)[8 * w..8 * w + 8] == Bytes(flags[64 * w..64 * w + 64])
  {
    var own := flags[64 * w..64 * w + 64];
    var all, part := Bytes(flags), Bytes(own);
    forall i | 0 <= i < 8 ensures all[8 * w + i] == part[i] {
      SliceOfSlice(flags, 64 * w, 64 * w + 64, 8 * i, 8 * i + 8);
    }
  }

  // ---------------------------------------------------------------- filters

  const FILTER_BITS: nat := 0x1_0000

  const FILTER_WORDS: nat := 0x400

  /** The bit a hash gives a value. */
  function FilterBit(hash: int -> nat, value: int): (bit: nat)
    ensures bit < FILTER_BITS && bit / 64 < FILTER_WORDS
  {
    hash(value) % FILTER_BITS
  }

  /** One of the first `n` values hashes to the bit. */
  ghost predicate Hashes(hash: int -> nat, values: seq<int>, n: nat, bit: nat)
    requires n <= |values|
  {
    exists i :: 0 <= i < n && FilterBit(hash, values[i]) == bit
  }

  /** A value hits if and only if one the filter was built from has the low 16 bits of its hash. */
  ghost predicate IsFilter(hash: int -> nat, words: seq<nat>, values: seq<int>)
    requires |words| == FILTER_WORDS
  {
    forall value: int :: HitsExactly(hash, words, values, value)
  }

  predicate SameBit(hash: int -> nat, a: int, b: int) { hash(a) % 0x1_0000 == hash(b) % 0x1_0000 }

  ghost predicate HitsExactly(hash: int -> nat, words: seq<nat>, values: seq<int>, value: int)
    requires |words| == FILTER_WORDS
  {
    Contains(words, hash(value) % 0x1_0000) <==> exists i :: 0 <= i < |values| && SameBit(hash, values[i], value)
  }

  lemma SharedBit(hash: int -> nat, values: seq<int>, value: int)
    ensures Hashes(hash, values, |values|, FilterBit(hash, value)) <==>
            exists i :: 0 <= i < |values| && SameBit(hash, values[i], value)
  {
    if i :| 0 <= i < |values| && SameBit(hash, values[i], value) {
      assert FilterBit(hash, values[i]) == FilterBit(hash, value);
    }
    if i :| 0 <= i < |values| && FilterBit(hash, values[i]) == FilterBit(hash, value) {
      assert SameBit(hash, values[i], value);
    }
  }

  /** The filter's words: the flags of the values' hashes, packed. */
  method BuildFilter(hash: int -> nat, values: seq<int>) returns (words: seq<nat>)
    ensures |words| == FILTER_WORDS && IsFilter(hash, words, values)
  {
    var flags := new bool[FILTER_BITS](_ => false);
    for n := 0 to |values|
      invariant forall bit :: 0 <= bit < FILTER_BITS ==> flags[bit] == Hashes(hash, values, n, bit)
    {
      forall bit | 0 <= bit < FILTER_BITS
        ensures Hashes(hash, values, n + 1, bit) == (Hashes(hash, values, n, bit) || FilterBit(hash, values[n]) == bit)
      {}
      flags[FilterBit(hash, values[n])] := true;
    }
    words := Pack(flags[..]);
    forall value ensures HitsExactly(hash, words, values, value) {
      PackContains(flags[..], FilterBit(hash, value));
      SharedBit(hash, values, value);
    }
  }

  /** A filter of splitmix never misses a value it was built from: the host hashed the integer, the
      device hashes its word. */
  lemma FilterNeverMisses(values: seq<int>, words: seq<nat>, i: nat)
    requires |words| == FILTER_WORDS && IsFilter(Splitmix, words, values) && i < |values|
    ensures Contains(words, Splitmix(ToU64(values[i])) % 0x1_0000)
  {
    hide Contains, ToU64, Hashing.Splitmix;
    var word := ToU64(values[i]);
    SplitmixOfWord(values[i]);
    assert HitsExactly(Splitmix, words, values, word);
    assert SameBit(Splitmix, values[i], word);
  }
}
