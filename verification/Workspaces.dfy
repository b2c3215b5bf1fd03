/** Device scratch reused across calls (src/patos/cuda/runtime/memory.py:75-139). */
module Workspaces {
  // How far a buffer grows past a request, how often it is replaced, and what outlives a replacement.

  import opened Hashing
  import opened Integers
  import opened Words

  // ---------------------------------------------------------------- capacity classes

  function AtLeastZero(n: int): nat { if n > 0 then n else 0 }

  function Capacity(size: nat): nat {
    var power := Pow2(BitLength(AtLeastZero(size - 1)));
    if power >= 4 && power * 3 / 4 >= size then power * 3 / 4 else power
  }

  /** The size classes: 2^k and 3 * 2^k. */
  function ClassOf(k: nat, half: bool): nat { if half then 3 * Pow2(k) else Pow2(k) }

  ghost predicate IsClass(c: nat) { exists k: nat, half: bool :: c == ClassOf(k, half) }

  function Needed(size: nat): nat { if size == 0 then 1 else size }

  /** The exponent a size needs: the least whose power of two is at least the size. */
  function CeilLog2(size: nat): nat { BitLength(AtLeastZero(size - 1)) }

  lemma CeilLog2Bounds(size: nat)
    ensures Needed(size) <= Pow2(CeilLog2(size))
    ensures CeilLog2(size) > 0 ==> Pow2(CeilLog2(size) - 1) < size
  {
    BitLengthBounds(AtLeastZero(size - 1));
  }

  /** Which class a size gets. */
  lemma CapacityClass(size: nat)
    ensures var e := CeilLog2(size);
      if e >= 2 && 3 * Pow2(e - 2) >= size then Capacity(size) == ClassOf(e - 2, true)
      else Capacity(size) == ClassOf(e, false)
  {
    var e := CeilLog2(size);
    if e >= 2 {
      assert Pow2(e) == 4 * Pow2(e - 2);
    } else {
      assert Pow2(0) == 1 && Pow2(1) == 2;
    }
  }

  lemma ClassesOrder(k: nat, half: bool, e: nat)
    ensures ClassOf(k, half) < Pow2(e + 1) && ClassOf(k, half) >= Pow2(e) ==> k == if half then e - 1 else e
  {
    if k <= e { Pow2Grows(k, e); } else { Pow2Grows(e + 1, k); }
    if half {
      if k + 1 <= e { Pow2Grows(k + 1, e); } else { Pow2Grows(e, k); }
      if k + 2 <= e { Pow2Grows(k + 2, e); }
    } else if k < e {
      Pow2Grows(k + 1, e);
    }
  }

  /** The capacity is the least class at or above the size and above 0, less than half above it. */
  lemma CapacityIsLeastClass(size: nat, c: nat)
    ensures IsClass(Capacity(size)) && Capacity(size) >= Needed(size)
    ensures IsClass(c) && c >= Needed(size) ==> Capacity(size) <= c
    ensures 2 * Capacity(size) < 3 * Needed(size)
  {
    CeilLog2Bounds(size);
    CapacityClass(size);
    var e := CeilLog2(size);
    assert Pow2(0) == 1 && Pow2(1) == 2;
    if e >= 2 { assert Pow2(e) == 4 * Pow2(e - 2) && Pow2(e - 1) == 2 * Pow2(e - 2); }
    if IsClass(c) && c >= Needed(size) && c < Pow2(e) {
      var k: nat, half: bool :| c == ClassOf(k, half);
      assert e > 0;
      ClassesOrder(k, half, e - 1);
    }
  }

  // ---------------------------------------------------------------- what a workspace does

  /** An array of the module's: `serial` tells it from every other. */
  datatype Buffer = Buffer(serial: nat, length: nat, dtype: string)

  datatype Space = Space(buffers: map<string, Buffer>, retained: seq<Buffer>, depth: nat, generation: nat)

  datatype Op = Take(role: string, size: nat, dtype: string) | Enter | Leave

  const hollow := Space(map[], [], 0, 0)

  predicate Fits(s: Space, role: string, size: nat, dtype: string) {
    role in s.buffers && s.buffers[role].length >= size && s.buffers[role].dtype == dtype
  }

  function Do(s: Space, op: Op): Space {
    match op
    case Take(role, size, dtype) =>
      if Fits(s, role, size, dtype) then s
      else Space(s.buffers[role := Buffer(s.generation, Capacity(size), dtype)],
                 if role in s.buffers && s.depth > 0 then s.retained + [s.buffers[role]] else s.retained,
                 s.depth, s.generation + 1)
    case Enter => s.(depth := s.depth + 1)
    case Leave =>
      if s.depth <= 1 then s.(depth := 0, retained := []) else s.(depth := s.depth - 1)
  }

  function Run(s: Space, ops: seq<Op>): Space
    decreases |ops|
  {
    if |ops| == 0 then s else Run(Do(s, ops[0]), ops[1..])
  }

  class Workspace {
    var buffers: map<string, Buffer>
    var retained: seq<Buffer>
    var retentionDepth: nat
    var generation: nat

    function State(): Space
      reads this
    {
      Space(buffers, retained, retentionDepth, generation)
    }

    constructor ()
      ensures State() == hollow
    {
      buffers, retained, retentionDepth, generation := map[], [], 0, 0;
    }

    /** The role's buffer and the length of the view given out. One long enough and of the type is
        given as it is, and nothing changes; any other is replaced by the next allocation. */
    method Take(role: string, size: nat, dtype: string) returns (held: Buffer, view: nat)
      modifies this
      ensures State() == Do(old(State()), Op.Take(role, size, dtype))
      ensures role in buffers && held == buffers[role] && view == size <= held.length && held.dtype == dtype
      ensures
        if role in old(buffers) && old(buffers)[role].length >= size && old(buffers)[role].dtype == dtype
        then State() == old(State())
        else
          && held == Buffer(old(generation), Capacity(size), dtype) && buffers == old(buffers)[role := held]
          && generation == old(generation) + 1 && retentionDepth == old(retentionDepth)
          && retained == old(retained) + if role in old(buffers) && retentionDepth > 0 then [old(buffers)[role]] else []
    {
      CapacityIsLeastClass(size, 0);
      if !(role in buffers && buffers[role].length >= size && buffers[role].dtype == dtype) {
        if role in buffers && retentionDepth > 0 {
          retained := retained + [buffers[role]];
        }
        held := Buffer(generation, Capacity(size), dtype);
        buffers := buffers[role := held];
        generation := generation + 1;
      }
      return buffers[role], size;
    }

    method RetainReplaced()
      modifies this
      ensures State() == Do(old(State()), Enter)
      ensures State() == old(State()).(depth := old(retentionDepth) + 1)
    {
      retentionDepth := retentionDepth + 1;
    }

    method EndRetention()
      requires retentionDepth > 0
      modifies this
      ensures State() == Do(old(State()), Leave)
      ensures buffers == old(buffers) && generation == old(generation) && retentionDepth == old(retentionDepth) - 1
      ensures retained == if retentionDepth == 0 then [] else old(retained)
    {
      retentionDepth := retentionDepth - 1;
      if retentionDepth == 0 { retained := []; }
    }
  }

  // ---------------------------------------------------------------- how often a role is replaced

  /** Where a class stands among 1, 2, 3, 4, 6, 8, 12 and on. */
  function Rank(k: nat, half: bool): nat { if half then 2 * k + 2 else if k == 0 then 0 else 2 * k - 1 }

  /** The place of a size's class. */
  function RankOf(size: nat): nat {
    var e := CeilLog2(size);
    if e >= 2 && 3 * Pow2(e - 2) >= size then Rank(e - 2, true) else Rank(e, false)
  }

  /** A size above a class gets a later one. */
  lemma RankGrows(size: nat, more: nat)
    requires Capacity(size) < more
    ensures RankOf(size) < RankOf(more)
  {
    CeilLog2Bounds(size);
    CeilLog2Bounds(more);
    CapacityClass(size);
    var e, f := CeilLog2(size), CeilLog2(more);
    assert Pow2(0) == 1 && Pow2(1) == 2;
    if e >= 2 { assert Pow2(e) == 4 * Pow2(e - 2) && Pow2(e - 1) == 2 * Pow2(e - 2); }
    if f < e { Pow2Grows(f, e - 1); }
    if f == e + 1 && f >= 2 { assert Pow2(f) == 4 * Pow2(f - 2) && Pow2(f - 1) == 2 * Pow2(f - 2); }
  }

  lemma RankBelow(size: nat, bound: nat)
    requires size <= bound
    ensures RankOf(size) <= 2 * CeilLog2(bound)
  {
    CeilLog2Bounds(size);
    CeilLog2Bounds(bound);
    if CeilLog2(bound) < CeilLog2(size) { Pow2Grows(CeilLog2(bound), CeilLog2(size) - 1); }
  }

  /** Whether a role's buffer is another one, or held in one state only. */
  predicate Differs(s: Space, t: Space, role: string) {
    (role in s.buffers) != (role in t.buffers) || (role in s.buffers && s.buffers[role] != t.buffers[role])
  }

  /** How many of the first `n` operations left the role with another buffer than it had. */
  function Changes(s: Space, ops: seq<Op>, role: string, n: nat): nat
    requires n <= |ops|
  {
    if n == 0 then 0
    else Changes(s, ops, role, n - 1) + if Differs(Run(s, ops[..n - 1]), Run(s, ops[..n]), role) then 1 else 0
  }

  predicate Replaces(s: Space, op: Op, role: string) { op.Take? && op.role == role && !Fits(s, role, op.size, op.dtype) }

  function Replacements(s: Space, ops: seq<Op>, role: string): nat
    decreases |ops|
  {
    if |ops| == 0 then 0
    else (if Replaces(s, ops[0], role) then 1 else 0) + Replacements(Do(s, ops[0]), ops[1..], role)
  }

  /** Every take of the role asks for the type, and no more than the bound. */
  predicate Asks(ops: seq<Op>, role: string, dtype: string, bound: nat) {
    forall i :: 0 <= i < |ops| && ops[i].Take? && ops[i].role == role ==> ops[i].dtype == dtype && ops[i].size <= bound
  }

  /** The role holds the buffer a request of some size got, of the type. */
  predicate HoldsFor(s: Space, role: string, dtype: string, size: nat) {
    role in s.buffers && s.buffers[role].dtype == dtype && s.buffers[role].length == Capacity(size)
  }

  lemma {:induction false} ReplacementsFrom(s: Space, ops: seq<Op>, role: string, dtype: string, size: nat, bound: nat)
    requires Asks(ops, role, dtype, bound) && HoldsFor(s, role, dtype, size) && RankOf(size) <= 2 * CeilLog2(bound)
    ensures Replacements(s, ops, role) <= 2 * CeilLog2(bound) - RankOf(size)
    decreases |ops|
  {
    if |ops| > 0 {
      var op := ops[0];
      if Replaces(s, op, role) {
        RankGrows(size, op.size);
        RankBelow(op.size, bound);
        ReplacementsFrom(Do(s, op), ops[1..], role, dtype, op.size, bound);
      } else {
        ReplacementsFrom(Do(s, op), ops[1..], role, dtype, size, bound);
      }
    }
  }

  lemma {:induction false} FewMisfits(s: Space, ops: seq<Op>, role: string, dtype: string, bound: nat)
    requires role !in s.buffers && Asks(ops, role, dtype, bound)
    ensures Replacements(s, ops, role) <= 2 * CeilLog2(bound) + 1
    decreases |ops|
  {
    if |ops| > 0 {
      var op := ops[0];
      if Replaces(s, op, role) {
        RankBelow(op.size, bound);
        ReplacementsFrom(Do(s, op), ops[1..], role, dtype, op.size, bound);
      } else {
        FewMisfits(Do(s, op), ops[1..], role, dtype, bound);
      }
    }
  }

  /** The change that an operation makes is counted with the operation or with the run after it. */
  lemma {:induction false} ChangesShift(s: Space, ops: seq<Op>, role: string, n: nat)
    requires n < |ops|
    ensures Changes(s, ops, role, n + 1) ==
      (if Differs(s, Do(s, ops[0]), role) then 1 else 0) + Changes(Do(s, ops[0]), ops[1..], role, n)
  {
    var next := Do(s, ops[0]);
    assert Run(s, ops[..n + 1]) == Run(next, ops[1..][..n]) by { assert ops[..n + 1][1..] == ops[1..][..n]; }
    if n > 0 {
      ChangesShift(s, ops, role, n - 1);
      assert Run(s, ops[..n]) == Run(next, ops[1..][..n - 1]) by { assert ops[..n][1..] == ops[1..][..n - 1]; }
    }
    hide Do, Differs;
  }

  /** Only an operation that finds the role's buffer unfit gives it another. */
  lemma {:induction false} ChangesAreMisfits(s: Space, ops: seq<Op>, role: string)
    ensures Changes(s, ops, role, |ops|) <= Replacements(s, ops, role)
    decreases |ops|
  {
    if |ops| > 0 {
      ChangesShift(s, ops, role, |ops| - 1);
      ChangesAreMisfits(Do(s, ops[0]), ops[1..], role);
    }
  }

  /** However requests of a role ramp up to a bound, among any others, its buffer changes at most
      2 * ceil(log2(bound)) + 1 times, the first allocation included. */
  lemma FewReplacements(s: Space, ops: seq<Op>, role: string, dtype: string, bound: nat)
    requires role !in s.buffers && Asks(ops, role, dtype, bound)
    ensures Changes(s, ops, role, |ops|) <= 2 * CeilLog2(bound) + 1
  {
    FewMisfits(s, ops, role, dtype, bound);
    ChangesAreMisfits(s, ops, role);
  }

  // ---------------------------------------------------------------- what a recording relies on

  lemma {:induction false} GenerationGrows(s: Space, ops: seq<Op>)
    ensures Run(s, ops).generation >= s.generation
    decreases |ops|
  {
    if |ops| > 0 { GenerationGrows(Do(s, ops[0]), ops[1..]); }
  }

  lemma {:induction false} SameGeneration(s: Space, ops: seq<Op>)
    requires Run(s, ops).generation == s.generation
    ensures Run(s, ops).buffers == s.buffers
    decreases |ops|
  {
    if |ops| > 0 {
      GenerationGrows(Do(s, ops[0]), ops[1..]);
      SameGeneration(Do(s, ops[0]), ops[1..]);
    }
  }

  /** Every buffer held is older than the next to be allocated, as from the start on. */
  predicate Serials(s: Space) { forall role :: role in s.buffers ==> s.buffers[role].serial < s.generation }

  /** A role whose buffer is as new as `first` keeps one as new. */
  lemma {:induction false} StaysNew(s: Space, ops: seq<Op>, role: string, first: nat)
    requires role in s.buffers && first <= s.buffers[role].serial && first <= s.generation
    ensures role in Run(s, ops).buffers && first <= Run(s, ops).buffers[role].serial
    decreases |ops|
  {
    if |ops| > 0 { StaysNew(Do(s, ops[0]), ops[1..], role, first); }
  }

  lemma {:induction false} NewGeneration(s: Space, ops: seq<Op>)
    requires Run(s, ops).generation != s.generation
    ensures exists role :: role in Run(s, ops).buffers && Run(s, ops).buffers[role].serial >= s.generation
    decreases |ops|
  {
    var next := Do(s, ops[0]);
    if next.generation == s.generation {
      NewGeneration(next, ops[1..]);
    } else {
      StaysNew(next, ops[1..], ops[0].role, s.generation);
    }
  }

  lemma {:induction false} SerialsStay(s: Space, ops: seq<Op>)
    requires Serials(s)
    ensures Serials(Run(s, ops))
    decreases |ops|
  {
    if |ops| > 0 { SerialsStay(Do(s, ops[0]), ops[1..]); }
  }

  /** While the generation is the same, every role's buffer is; and where every buffer held is older
      than the next, as in all that follows from an empty workspace, only then. */
  lemma GenerationTells(s: Space, ops: seq<Op>)
    ensures Run(s, ops).generation == s.generation ==> Run(s, ops).buffers == s.buffers
    ensures Serials(s) && Run(s, ops).buffers == s.buffers ==> Run(s, ops).generation == s.generation
    ensures Serials(hollow) && (Serials(s) ==> Serials(Run(s, ops)))
  {
    if Serials(s) { SerialsStay(s, ops); }
    if Run(s, ops).generation == s.generation {
      SameGeneration(s, ops);
    } else {
      NewGeneration(s, ops);
    }
  }

  /** Retention stays open throughout. */
  predicate StaysOpen(s: Space, ops: seq<Op>)
    decreases |ops|
  {
    s.depth > 0 && (|ops| > 0 ==> StaysOpen(Do(s, ops[0]), ops[1..]))
  }

  lemma {:induction false} RetainedStay(s: Space, ops: seq<Op>)
    requires StaysOpen(s, ops)
    ensures s.retained <= Run(s, ops).retained
    decreases |ops|
  {
    if |ops| > 0 { RetainedStay(Do(s, ops[0]), ops[1..]); }
  }

  /** A buffer held inside a retention scope is held or retained until the outermost one ends. */
  lemma {:induction false} HeldOrRetained(s: Space, ops: seq<Op>, role: string)
    requires StaysOpen(s, ops) && role in s.buffers
    ensures var after := Run(s, ops);
      s.buffers[role] in after.retained || (role in after.buffers && after.buffers[role] == s.buffers[role])
    decreases |ops|
  {
    if |ops| > 0 {
      var next := Do(s, ops[0]);
      if Replaces(s, ops[0], role) {
        RetainedStay(next, ops[1..]);
        assert next.retained[|s.retained|] == s.buffers[role];
        assert Run(next, ops[1..]).retained[|s.retained|] == s.buffers[role];
      } else {
        HeldOrRetained(next, ops[1..], role);
      }
    }
  }

  /** Outside every scope nothing is retained. */
  lemma {:induction false} NothingLeftRetained(s: Space, ops: seq<Op>)
    requires s.depth == 0 ==> s.retained == []
    ensures Run(s, ops).depth == 0 ==> Run(s, ops).retained == []
    decreases |ops|
  {
    if |ops| > 0 { NothingLeftRetained(Do(s, ops[0]), ops[1..]); }
  }
}
