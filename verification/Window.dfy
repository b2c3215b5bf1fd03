/** Sixteen bytes from any byte offset (src/patos/cuda/primitives/memory.py:41-100): aligned loads and
    funnel shifts (src/patos/cuda/primitives/bits.py:37-50) give what packing single bytes gives.
    Addresses count from a 4-aligned start of the allocation. */
module Window {
  import opened Integers
  import opened Words

  type Octet = b: int | 0 <= b < 0x100

  /** The word of the `n` bytes from `at`, little-endian, with nothing from `end` on. */
  function Little(memory: seq<Octet>, end: nat, at: nat, n: nat): nat
    requires end <= |memory|
    decreases n
  {
    if n == 0 then 0 else (if at < end then memory[at] else 0) + 0x100 * Little(memory, end, at + 1, n - 1)
  }

  lemma {:induction false} LittleBelow(memory: seq<Octet>, end: nat, at: nat, n: nat)
    requires end <= |memory|
    ensures Little(memory, end, at, n) < Base(n)
    decreases n
  {
    if n > 0 { LittleBelow(memory, end, at + 1, n - 1); }
  }

  lemma BaseTimes(n: nat, x: nat)
    requires n > 0
    ensures Base(n) * x == 0x100 * (Base(n - 1) * x)
  {}

  lemma {:induction false} LittleSplit(memory: seq<Octet>, end: nat, at: nat, n: nat, m: nat)
    requires end <= |memory|
    ensures Little(memory, end, at, n + m) == Little(memory, end, at, n) + Base(n) * Little(memory, end, at + n, m)
    decreases n
  {
    if n > 0 {
      LittleSplit(memory, end, at + 1, n - 1, m);
      BaseTimes(n, Little(memory, end, at + n, m));
    }
  }

  /** Bytes past `at + n` do not count, nor bytes where there are none. */
  lemma {:induction false} LittleEnds(memory: seq<Octet>, end: nat, end': nat, at: nat, n: nat)
    requires end <= |memory| && end' <= |memory|
    requires end == end' || (at + n <= end && at + n <= end')
    ensures Little(memory, end, at, n) == Little(memory, end', at, n)
    decreases n
  {
    if n > 0 { LittleEnds(memory, end, end', at + 1, n - 1); }
  }

  lemma {:induction false} LittleEmpty(memory: seq<Octet>, end: nat, at: nat, n: nat)
    requires end <= |memory| && end <= at
    ensures Little(memory, end, at, n) == 0
    decreases n
  {
    if n > 0 { LittleEmpty(memory, end, at + 1, n - 1); }
  }

  /** Two halves' bits never meet, so `or` puts them together as a sum does. */
  lemma OrIsSum(low: nat, high: nat, k: nat)
    requires low < Pow2(k)
    ensures Or(low, Pow2(k) * high) == low + Pow2(k) * high
  {
    BitsSplit(OrGate, k, low, 0, 0, high);
    BitsWithZero(low);
    OrZero(high);
    assert Pow2(k) * 0 == 0;
  }

  lemma {:induction false} OrZero(a: nat)
    ensures Or(0, a) == a
  {
    if a > 0 { OrZero(a / 2); }
  }

  // ---------------------------------------------------------------- one byte at a time

  /** A word with a byte put in at an offset, by a shift and an or. */
  function WithByte(word: nat, offset: nat, byte: nat): nat { Or(word, Pow2(8 * offset) * byte) }

  /** One more byte above the ones a word holds. */
  lemma OrByte(memory: seq<Octet>, end: nat, at: nat, n: nat)
    requires end <= |memory| && at + n < end
    ensures WithByte(Little(memory, end, at, n), n, memory[at + n]) == Little(memory, end, at, n + 1)
  {
    LittleBelow(memory, end, at, n);
    BaseIsPow2(n);
    OrIsSum(Little(memory, end, at, n), memory[at + n], 8 * n);
    LittleSplit(memory, end, at, n, 1);
    assert Little(memory, end, at + n, 1) == memory[at + n];
  }

  function Least(a: nat, b: nat): nat { if a < b then a else b }

  /** The first `n` bytes from `from`, eight in each word. */
  predicate Packed(memory: seq<Octet>, end: nat, from: nat, n: nat, low: nat, high: nat) {
    && end <= |memory| && low == Little(memory, end, from, Least(n, 8))
    && high == Little(memory, end, from + 8, if n < 8 then 0 else n - 8)
  }

  lemma PackedNone(memory: seq<Octet>, end: nat, from: nat)
    requires end <= |memory|
    ensures Packed(memory, end, from, 0, 0, 0)
  {}

  lemma PackedMore(memory: seq<Octet>, end: nat, from: nat, n: nat, low: nat, high: nat)
    requires Packed(memory, end, from, n, low, high) && from + n < end
    ensures if n < 8 then Packed(memory, end, from, n + 1, WithByte(low, n, memory[from + n]), high)
            else Packed(memory, end, from, n + 1, low, WithByte(high, n - 8, memory[from + n]))
  {
    hide Little;
    if n < 8 { OrByte(memory, end, from, n); } else { OrByte(memory, end, from + 8, n - 8); }
    hide WithByte;
  }

  lemma PackedAll(memory: seq<Octet>, from: nat, count: nat, low: nat, high: nat)
    requires Packed(memory, from + count, from, count, low, high) && count <= 16
    ensures low == Little(memory, from + count, from, 8) && high == Little(memory, from + count, from + 8, 8)
  {
    hide Little;
    if count < 8 {
      NothingBeyond(memory, from + count, from, count, 8);
      NothingBeyond(memory, from + count, from + 8, 0, 8);
    } else {
      NothingBeyond(memory, from + count, from + 8, count - 8, 8);
    }
  }

  /** Up to sixteen bytes loaded singly into two words. */
  method Pack(memory: seq<Octet>, start: nat, size: nat, at: nat, count: nat) returns (low: nat, high: nat)
    requires start + size <= |memory| && count <= 16 && at + count <= size
    ensures low == Little(memory, start + at + count, start + at, 8)
    ensures high == Little(memory, start + at + count, start + at + 8, 8)
  {
    low, high := 0, 0;
    ghost var from, end := start + at, start + at + count;
    hide WithByte, Packed;
    PackedNone(memory, end, from);
    for offset := 0 to count
      invariant Packed(memory, end, from, offset, low, high)
    {
      PackedMore(memory, end, from, offset, low, high);
      if offset < 8 {
        low := WithByte(low, offset, memory[start + at + offset]);
      } else {
        high := WithByte(high, offset - 8, memory[start + at + offset]);
      }
    }
    PackedAll(memory, from, count, low, high);
  }


  /** A word that reaches the end holds nothing more. */
  lemma NothingBeyond(memory: seq<Octet>, end: nat, at: nat, n: nat, m: nat)
    requires end <= |memory| && end <= at + n && n <= m
    ensures Little(memory, end, at, n) == Little(memory, end, at, m)
  {
    LittleSplit(memory, end, at, n, m - n);
    LittleEmpty(memory, end, at + n, m - n);
    assert Base(n) * 0 == 0;
  }

  // ---------------------------------------------------------------- aligned words

  /** An aligned load, of bytes between `first` and `end` only. */
  method Load32(memory: seq<Octet>, at: nat, ghost first: nat, ghost end: nat) returns (word: nat)
    requires at % 4 == 0 && first <= at && at + 4 <= end <= |memory|
    ensures word == Little(memory, end, at, 4)
  {
    word := WordOf(memory[at], memory[at + 1], memory[at + 2], memory[at + 3]);
    assert Little(memory, end, at + 3, 1) == memory[at + 3];
    LittleSplit(memory, end, at, 3, 1);
    LittleSplit(memory, end, at, 2, 1);
    LittleSplit(memory, end, at, 1, 1);
    assert Base(2) == 0x1_0000;
  }

  function WordOf(a: nat, b: nat, c: nat, d: nat): nat { a + 0x100 * b + 0x1_0000 * c + 0x100_0000 * d }

  /** The funnel-shift instruction: a word out of two, some bits up. */
  function Funnel(low: nat, high: nat, shift: nat): nat { (low + Pow2(32) * high) / Pow2(shift % 32) % Pow2(32) }

  function Join(low: nat, high: nat): nat { Or(low, Pow2(32) * high) }

  /** Shifted right by `k` bytes, the eight bytes of two words give the four `k` further. */
  lemma FunnelShifts(memory: seq<Octet>, end: nat, at: nat, k: nat)
    requires end <= |memory| && k < 4
    ensures Funnel(Little(memory, end, at, 4), Little(memory, end, at + 4, 4), 8 * k) == Little(memory, end, at + k, 4)
  {
    hide Little, Base, Pow2;
    var low, high := Little(memory, end, at, 4), Little(memory, end, at + 4, 4);
    var under, over := Little(memory, end, at, k), Little(memory, end, at + k, 8 - k);
    var word, rest := Little(memory, end, at + k, 4), Little(memory, end, at + k + 4, 4 - k);
    LittleSplit(memory, end, at, 4, 4);
    LittleSplit(memory, end, at, k, 8 - k);
    LittleSplit(memory, end, at + k, 4, 4 - k);
    LittleBelow(memory, end, at, k);
    LittleBelow(memory, end, at + k, 4);
    BaseIsPow2(4);
    BaseIsPow2(k);
    FunnelOf(low, high, 8 * k, under, over, word, rest);
  }

  lemma FunnelOf(low: nat, high: nat, shift: nat, under: nat, over: nat, word: nat, rest: nat)
    requires shift < 32 && under < Pow2(shift) && word < Pow2(32)
    requires low + Pow2(32) * high == under + Pow2(shift) * over && over == word + Pow2(32) * rest
    ensures Funnel(low, high, shift) == word
  {
    hide Pow2;
    ModUnique(Pow2(shift), under + Pow2(shift) * over, over, under);
    ModUnique(Pow2(32), over, rest, word);
  }

  lemma JoinsWords(memory: seq<Octet>, end: nat, at: nat)
    requires end <= |memory|
    ensures Join(Little(memory, end, at, 4), Little(memory, end, at + 4, 4)) == Little(memory, end, at, 8)
  {
    LittleBelow(memory, end, at, 4);
    BaseIsPow2(4);
    OrIsSum(Little(memory, end, at, 4), Little(memory, end, at + 4, 4), 32);
    LittleSplit(memory, end, at, 4, 4);
    hide Little, Base, Pow2;
  }

  /** The sixteen bytes from byte `at` as two words, zero past the end: at every alignment what
      packing them gives. Loads stay inside the array but for at most 3 bytes before it, and those
      inside its allocation. */
  method Read(memory: seq<Octet>, start: nat, size: nat, at: nat) returns (low: nat, high: nat)
    requires start + size <= |memory| && at < size
    ensures low == Little(memory, start + size, start + at, 8)
    ensures high == Little(memory, start + size, start + at + 8, 8)
  {
    hide Little, Funnel, Join;
    if at + 20 > size {
      low, high := Pack(memory, start, size, at, Least(16, size - at));
      LittleEnds(memory, start + at + Least(16, size - at), start + size, start + at, 8);
      LittleEnds(memory, start + at + Least(16, size - at), start + size, start + at + 8, 8);
      return;
    }
    var where := start + at;
    var base := where / 4 * 4;
    var shift := where % 4 * 8;
    ghost var first, end := if start < 3 then 0 else start - 3, start + size;
    var a := Load32(memory, base, first, end);
    var b := Load32(memory, base + 4, first, end);
    var c := Load32(memory, base + 8, first, end);
    var d := Load32(memory, base + 12, first, end);
    var e := Load32(memory, base + 16, first, end);
    low := Join(Funnel(a, b, shift), Funnel(b, c, shift));
    high := Join(Funnel(c, d, shift), Funnel(d, e, shift));
    FunnelShifts(memory, end, base, where % 4);
    FunnelShifts(memory, end, base + 4, where % 4);
    FunnelShifts(memory, end, base + 8, where % 4);
    FunnelShifts(memory, end, base + 12, where % 4);
    JoinsWords(memory, end, where);
    JoinsWords(memory, end, where + 8);
  }

  // ---------------------------------------------------------------- ranges

  /** Equality of two ranges, given up at a difference. */
  method Equal(left: seq<Octet>, leftAt: nat, right: seq<Octet>, rightAt: nat, count: nat) returns (same: bool)
    requires leftAt + count <= |left| && rightAt + count <= |right|
    ensures same <==> left[leftAt..leftAt + count] == right[rightAt..rightAt + count]
  {
    var offset := 0;
    while offset < count && left[leftAt + offset] == right[rightAt + offset]
      invariant offset <= count
      invariant forall i :: 0 <= i < offset ==> SameAt(left, leftAt, right, rightAt, i)
    {
      offset := offset + 1;
    }
    ghost var one, other := left[leftAt..leftAt + count], right[rightAt..rightAt + count];
    if offset < count {
      assert one[offset] != other[offset];
    } else {
      forall i | 0 <= i < count ensures one[i] == other[i] { assert SameAt(left, leftAt, right, rightAt, i); }
    }
    return offset == count;
  }

  predicate SameAt(left: seq<Octet>, leftAt: nat, right: seq<Octet>, rightAt: nat, i: nat)
    requires leftAt + i < |left| && rightAt + i < |right|
  {
    left[leftAt + i] == right[rightAt + i]
  }

  /** Copy a range onto another that does not overlap it, possibly of the same array. */
  method Copy<T>(source: array<T>, sourceAt: nat, target: array<T>, targetAt: nat, count: nat)
    requires sourceAt + count <= source.Length && targetAt + count <= target.Length
    requires source == target ==> sourceAt + count <= targetAt || targetAt + count <= sourceAt
    modifies target
    ensures target[..] == old(target[..targetAt] + source[sourceAt..sourceAt + count] + target[targetAt + count..])
  {
    ghost var was, from := target[..], source[..];
    for offset := 0 to count
      invariant forall i :: 0 <= i < target.Length && !(targetAt <= i < targetAt + offset) ==> target[i] == was[i]
      invariant forall i :: targetAt <= i < targetAt + offset ==> target[i] == from[sourceAt + (i - targetAt)]
    {
      target[targetAt + offset] := source[sourceAt + offset];
    }
    assert target[..] == was[..targetAt] + from[sourceAt..sourceAt + count] + was[targetAt + count..];
  }
}
