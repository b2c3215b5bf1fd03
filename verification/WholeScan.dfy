/** The scan of a whole array (src/patos/cuda/primitives/offsets.py:252-334): what one block writes for
    one tile, the whole of an array that one tile holds. Each warp sums its runs by columns, the block
    scans what its warps sum to, and each warp writes its runs one after another with the carry between
    them. Elements are the bits of 32-bit integers, on which signed and unsigned sums wrap alike. */
module WholeScan {
  import opened Monoids
  import opened Integers
  import opened LookBack
  import opened LookBackProgress
  import Block
  import Warp
  import Words

  const WARP: int := 32

  // ---------------------------------------------------------------- the sequential reference

  /** What a scan by the sum holds at `i`: the wrapped sum of the elements before it, its own
      included or not. */
  function Expected(s: seq<U32>, inclusive: bool, i: nat): U32
    requires i < |s|
  {
    Fold(sumU32, s[..if inclusive then i + 1 else i])
  }

  /** The `length` elements from `from`, zero where there is none. */
  function Padded(s: seq<U32>, from: nat, length: nat): (r: seq<U32>)
    ensures |r| == length
    ensures forall i :: 0 <= i < length ==> r[i] == if from + i < |s| then s[from + i] else 0
  {
    seq(length, i requires 0 <= i < length => if from + i < |s| then s[from + i] else 0)
  }

  lemma PaddedSplit(s: seq<U32>, from: nat, first: nat, second: nat)
    ensures Fold(sumU32, Padded(s, from, first + second)) ==
            AddU32(Fold(sumU32, Padded(s, from, first)), Fold(sumU32, Padded(s, from + first, second)))
  {
    SumU32Reduces();
    assert Padded(s, from, first + second) == Padded(s, from, first) + Padded(s, from + first, second);
    FoldConcat(sumU32, Padded(s, from, first), Padded(s, from + first, second));
  }

  lemma PaddedIsPrefix(s: seq<U32>, i: nat)
    requires i <= |s|
    ensures Padded(s, 0, i) == s[..i]
  {}

  /** A slot's expected value, from what lies before any `from` below it. */
  lemma ExpectedFrom(s: seq<U32>, inclusive: bool, from: nat, i: nat)
    requires from <= i < |s|
    ensures Expected(s, inclusive, i) ==
            AddU32(Fold(sumU32, s[..from]), Fold(sumU32, Padded(s, from, i - from + if inclusive then 1 else 0)))
  {
    var more := i - from + if inclusive then 1 else 0;
    PaddedSplit(s, 0, from, more);
    PaddedIsPrefix(s, from);
    PaddedIsPrefix(s, from + more);
  }

  // ---------------------------------------------------------------- one warp's runs

  lemma WarpIs32()
    ensures Words.Pow2(5) == WARP
  {
    assert Words.Pow2(3) == 8;
  }

  /** Adding a run to the lanes' own sums adds it to what they sum to. */
  lemma ColumnAdds(s: seq<U32>, first: nat, done: nat, lanes: seq<U32>)
    requires |lanes| == WARP && Fold(sumU32, lanes) == Fold(sumU32, Padded(s, first, done))
    ensures Fold(sumU32, Zipped(sumU32, lanes, Padded(s, first + done, WARP)))
            == Fold(sumU32, Padded(s, first, done + WARP))
  {
    SumU32Reduces();
    FoldZipped(sumU32, lanes, Padded(s, first + done, WARP));
    PaddedSplit(s, first, done, WARP);
  }

  lemma NothingSums(s: seq<U32>, first: nat, lanes: seq<U32>)
    requires forall i :: 0 <= i < |lanes| ==> lanes[i] == 0
    ensures Fold(sumU32, lanes) == Fold(sumU32, Padded(s, first, 0))
  {
    SumU32Reduces();
    FoldIdentities(sumU32, lanes);
  }

  function Zeros(): (lanes: seq<U32>)
    ensures |lanes| == WARP && forall i :: 0 <= i < WARP ==> lanes[i] == 0
  {
    seq(WARP, _ => 0)
  }

  /** What a warp's runs sum to: each lane sums its own column first, which commuting allows. */
  method Held(rows: nat, source: array<U32>, first: nat) returns (total: U32)
    ensures total == Fold(sumU32, Padded(source[..], first, WARP * rows))
  {
    var lanes := Zeros();
    NothingSums(source[..], first, lanes);
    hide Fold, Zipped, Padded, Zeros;
    for row := 0 to rows
      invariant |lanes| == WARP
      invariant Fold(sumU32, lanes) == Fold(sumU32, Padded(source[..], first, WARP * row))
    {
      lanes := ColumnAdded(source, first, WARP * row, lanes);
    }
    total := WarpSum(lanes);
  }

  /** One more run: each lane adds its own element to its own sum. */
  method ColumnAdded(source: array<U32>, first: nat, done: nat, lanes: seq<U32>) returns (next: seq<U32>)
    requires |lanes| == WARP && Fold(sumU32, lanes) == Fold(sumU32, Padded(source[..], first, done))
    ensures |next| == WARP && Fold(sumU32, next) == Fold(sumU32, Padded(source[..], first, done + WARP))
  {
    hide Fold, Zipped, Padded;
    var column := Loaded(source, first + done);
    ColumnAdds(source[..], first, done, lanes);
    next := Zipped(sumU32, lanes, column);
  }

  method WarpSum(lanes: seq<U32>) returns (total: U32)
    requires |lanes| == WARP
    ensures total == Fold(sumU32, lanes)
  {
    WarpIs32();
    SumU32Reduces();
    hide Fold;
    var reduced := Warp.Butterfly(sumU32, 5, lanes);
    total := reduced[0];
  }

  /** One coalesced load of a run, each lane its own element. */
  method Loaded(source: array<U32>, first: nat) returns (values: seq<U32>)
    ensures values == Padded(source[..], first, WARP)
  {
    values := [];
    for lane := 0 to WARP
      invariant |values| == lane
      invariant forall i :: 0 <= i < lane ==> values[i] == Padded(source[..], first, WARP)[i]
    {
      var value: U32 := 0;
      if first + lane < source.Length {
        value := source[first + lane];
      }
      values := values + [value];
    }
  }

  /** What a warp that has written the first `done` slots of its runs makes of slot `i`. */
  ghost function SlotAfter(s: seq<U32>, was: seq<U32>, inclusive: bool, first: nat, done: nat, start: U32, i: nat): U32
    requires i < |was|
  {
    if first <= i < first + done
    then AddU32(start, Fold(sumU32, Padded(s, first, i - first + if inclusive then 1 else 0)))
    else was[i]
  }

  ghost function After(s: seq<U32>, was: seq<U32>, inclusive: bool, first: nat, done: nat, start: U32): (r: seq<U32>)
    ensures |r| == |was|
  {
    seq(|was|, i requires 0 <= i < |was| => SlotAfter(s, was, inclusive, first, done, start, i))
  }

  function Stored(inclusive: bool, carry: int, running: int, value: int): U32 {
    ToU32(carry + if inclusive then running else running - value)
  }

  function SlotWith(inclusive: bool, t: seq<U32>, at: nat, carry: U32, running: seq<U32>, values: seq<U32>, i: nat): U32
    requires |running| == |values| && i < |t|
  {
    if at <= i < at + |values| then Stored(inclusive, carry, running[i - at], values[i - at]) else t[i]
  }

  function WithRun(inclusive: bool, t: seq<U32>, at: nat, carry: U32, running: seq<U32>, values: seq<U32>): (r: seq<U32>)
    requires |running| == |values|
    ensures |r| == |t|
  {
    seq(|t|, i requires 0 <= i < |t| => SlotWith(inclusive, t, at, carry, running, values, i))
  }

  /** One coalesced store of a run. */
  method StoreRun(inclusive: bool, target: array<U32>, at: nat, carry: U32, running: seq<U32>, values: seq<U32>)
    requires |running| == |values|
    modifies target
    ensures target[..] == WithRun(inclusive, old(target[..]), at, carry, running, values)
  {
    ghost var was := target[..];
    for lane := 0 to |values|
      invariant target[..] == WithRun(inclusive, was, at, carry, running[..lane], values[..lane])
    {
      if at + lane < target.Length {
        target[at + lane] := Stored(inclusive, carry, running[lane], values[lane]);
      }
    }
    assert running[..|values|] == running && values[..|values|] == values;
  }

  /** A slot of the run at `first + done`, from the carry of the runs before it. */
  lemma StoredSum(inclusive: bool, start: U32, held: U32, below: U32, x: U32)
    ensures Stored(inclusive, AddU32(start, held), AddU32(below, x), x)
         == AddU32(start, AddU32(held, if inclusive then AddU32(below, x) else below))
  {
    SumU32Reduces();
    assert Associates(sumU32, start, held, if inclusive then AddU32(below, x) else below);
    CancelsU32(AddU32(start, held), below, x);
  }

  lemma StoredIsExpected(s: seq<U32>, inclusive: bool, first: nat, done: nat, start: U32, lane: nat, running: U32)
    requires lane < WARP && first + done + lane < |s|
    requires running == Fold(sumU32, Padded(s, first + done, WARP)[..lane + 1])
    ensures var carry := AddU32(start, Fold(sumU32, Padded(s, first, done)));
      Stored(inclusive, carry, running, s[first + done + lane])
      == AddU32(start, Fold(sumU32, Padded(s, first, done + lane + if inclusive then 1 else 0)))
  {
    var at, more := first + done, lane + if inclusive then 1 else 0;
    var below, upto := Padded(s, at, lane), Padded(s, at, lane + 1);
    assert Padded(s, at, WARP)[..lane + 1] == upto == below + [s[at + lane]];
    hide Fold, Padded, Stored, AddU32;
    SumU32Reduces();
    FoldSnoc(sumU32, below, s[at + lane]);
    PaddedSplit(s, first, done, more);
    StoredSum(inclusive, start, Fold(sumU32, Padded(s, first, done)), Fold(sumU32, below), s[at + lane]);
  }

  lemma CancelsU32(carry: U32, below: U32, value: U32)
    ensures Stored(false, carry, AddU32(below, value), value) == AddU32(carry, below)
  {
    Wraps32(below + value, carry - value);
  }

  /** One more run extends what the warp has written. */
  lemma RunExtends(s: seq<U32>, was: seq<U32>, inclusive: bool, first: nat, done: nat, start: U32,
      carry: U32, running: seq<U32>)
    requires |was| == |s| && |running| == WARP
    requires carry == AddU32(start, Fold(sumU32, Padded(s, first, done)))
    requires forall i :: 0 <= i < WARP ==> running[i] == Fold(sumU32, Padded(s, first + done, WARP)[..i + 1])
    ensures WithRun(inclusive, After(s, was, inclusive, first, done, start), first + done, carry, running,
                    Padded(s, first + done, WARP))
            == After(s, was, inclusive, first, done + WARP, start)
  {
    var at, values := first + done, Padded(s, first + done, WARP);
    var now := After(s, was, inclusive, first, done, start);
    forall i | 0 <= i < |s|
      ensures SlotWith(inclusive, now, at, carry, running, values, i)
              == SlotAfter(s, was, inclusive, first, done + WARP, start, i)
    {
      if at <= i < at + WARP { StoredIsExpected(s, inclusive, first, done, start, i - at, running[i - at]); }
    }
  }

  lemma CarryExtends(s: seq<U32>, first: nat, done: nat, start: U32)
    ensures AddU32(AddU32(start, Fold(sumU32, Padded(s, first, done))), Fold(sumU32, Padded(s, first + done, WARP)))
            == AddU32(start, Fold(sumU32, Padded(s, first, done + WARP)))
  {
    SumU32Reduces();
    PaddedSplit(s, first, done, WARP);
    assert Associates(sumU32, start, Fold(sumU32, Padded(s, first, done)), Fold(sumU32, Padded(s, first + done, WARP)));
  }

  /** In place, the runs a warp has still to read are as they were. */
  lemma UnwrittenStill(s: seq<U32>, inclusive: bool, first: nat, done: nat, start: U32)
    ensures Padded(After(s, s, inclusive, first, done, start), first + done, WARP) == Padded(s, first + done, WARP)
  {}

  /** How far a warp's runs have got: what they have stored, and the carry. */
  ghost predicate Reached(s: seq<U32>, was: seq<U32>, inclusive: bool, first: nat, done: nat, start: U32,
      now: seq<U32>, carry: U32)
  {
    now == After(s, was, inclusive, first, done, start) && carry == AddU32(start, Fold(sumU32, Padded(s, first, done)))
  }

  /** One run: loaded, scanned by shuffles, stored behind the carry, and added to it. */
  method WriteRun(inclusive: bool, source: array<U32>, target: array<U32>, at: nat, carry: U32,
      ghost s: seq<U32>, ghost was: seq<U32>, ghost first: nat, ghost done: nat, ghost start: U32)
      returns (next: U32)
    requires |was| == |s| == source.Length && at == first + done
    requires if source == target then was == s else source[..] == s
    requires Reached(s, was, inclusive, first, done, start, target[..], carry)
    modifies target
    ensures source != target ==> source[..] == s
    ensures Reached(s, was, inclusive, first, done + WARP, start, target[..], next)
  {
    var values := Loaded(source, at);
    UnwrittenStill(s, inclusive, first, done, start);
    assert values == Padded(s, at, WARP);
    SumU32Reduces();
    var running := Warp.ShuffledScan(sumU32, values);
    RunExtends(s, was, inclusive, first, done, start, carry, running);
    StoreRun(inclusive, target, at, carry, running, values);
    CarryExtends(s, first, done, start);
    assert values[..WARP] == values;
    next := AddU32(carry, running[WARP - 1]);
  }

  lemma NothingReached(s: seq<U32>, was: seq<U32>, inclusive: bool, first: nat, start: U32)
    requires |was| == |s|
    ensures Reached(s, was, inclusive, first, 0, start, was, start)
  {
    assert Padded(s, first, 0) == [];
  }

  lemma ReachedIs(s: seq<U32>, was: seq<U32>, inclusive: bool, first: nat, done: nat, start: U32, now: seq<U32>,
      carry: U32)
    requires Reached(s, was, inclusive, first, done, start, now, carry)
    ensures now == After(s, was, inclusive, first, done, start)
  {}

  /** A warp's runs stored in order, each behind the carry of the one before; the arrays may be one. */
  method Written(rows: nat, inclusive: bool, source: array<U32>, target: array<U32>, first: nat, start: U32)
    requires source.Length == target.Length
    modifies target
    ensures target[..] == After(old(source[..]), old(target[..]), inclusive, first, WARP * rows, start)
    ensures source != target ==> source[..] == old(source[..])
  {
    ghost var s, was := source[..], target[..];
    NothingReached(s, was, inclusive, first, start);
    hide Reached;
    var carry := start;
    for row := 0 to rows
      invariant source != target ==> source[..] == s
      invariant Reached(s, was, inclusive, first, WARP * row, start, target[..], carry)
    {
      carry := WriteRun(inclusive, source, target, first + row * WARP, carry, s, was, first, WARP * row, start);
    }
    ReachedIs(s, was, inclusive, first, WARP * rows, start, target[..], carry);
  }

  // ---------------------------------------------------------------- one block's tile

  const WARPS: int := 8
  const THREADS: int := WARPS * WARP

  function TileTotal(s: seq<U32>, size: nat, tile: nat): U32 {
    Fold(sumU32, Padded(s, tile * size, size))
  }

  /** A warp that starts where the warps before it in the tile left off, and reads `r`, which is
      `s` where they wrote nothing, writes what one run over them all would. */
  lemma SlotExtends(s: seq<U32>, r: seq<U32>, was: seq<U32>, inclusive: bool, first: nat, done: nat, more: nat,
      start: U32, i: nat)
    requires |s| == |r| == |was| && i < |s| && forall j :: first + done <= j < |s| ==> r[j] == s[j]
    ensures SlotAfter(r, After(s, was, inclusive, first, done, start), inclusive, first + done, more,
                      AddU32(start, Fold(sumU32, Padded(s, first, done))), i)
            == SlotAfter(s, was, inclusive, first, done + more, start, i)
  {
    if first + done <= i < first + done + more {
      SumU32Reduces();
      var length := i - (first + done) + if inclusive then 1 else 0;
      assert Padded(r, first + done, length) == Padded(s, first + done, length);
      PaddedSplit(s, first, done, length);
      assert Associates(sumU32, start, Fold(sumU32, Padded(s, first, done)), Fold(sumU32, Padded(s, first + done, length)));
    }
  }

  lemma AfterExtends(s: seq<U32>, r: seq<U32>, was: seq<U32>, inclusive: bool, first: nat, done: nat, more: nat,
      start: U32)
    requires |s| == |r| == |was| && forall j :: first + done <= j < |s| ==> r[j] == s[j]
    ensures After(r, After(s, was, inclusive, first, done, start), inclusive, first + done, more,
                  AddU32(start, Fold(sumU32, Padded(s, first, done))))
            == After(s, was, inclusive, first, done + more, start)
  {
    var next := AddU32(start, Fold(sumU32, Padded(s, first, done)));
    var begun := After(s, was, inclusive, first, done, start);
    var one, two := After(r, begun, inclusive, first + done, more, next), After(s, was, inclusive, first, done + more, start);
    forall i | 0 <= i < |s| ensures one[i] == two[i] {
      SlotExtends(s, r, was, inclusive, first, done, more, start, i);
    }
  }

  /** The rows of the block's scan: a warp's sum in its first lane and zeros in the rest. */
  function Leading(held: seq<U32>): (rows: seq<seq<U32>>)
    ensures Block.Warps(rows, 5) || |held| == 0
    ensures |rows| == |held|
  {
    WarpIs32();
    seq(|held|, w requires 0 <= w < |held| => seq(32, lane => if lane == 0 then held[w] else 0))
  }

  lemma LeadingFolds(held: seq<U32>, w: nat)
    requires w <= |held|
    ensures Fold(sumU32, Concat(Leading(held)[..w])) == Fold(sumU32, held[..w])
  {
    SumU32Reduces();
    FoldRows(sumU32, Leading(held)[..w]);
    forall v | 0 <= v < w ensures Fold(sumU32, Leading(held)[v]) == held[v] {
      var row := Leading(held)[v];
      assert row == [held[v]] + row[1..];
      FoldConcat(sumU32, [held[v]], row[1..]);
      FoldOne(sumU32, held[v]);
      FoldIdentities(sumU32, row[1..]);
    }
    assert Folds(sumU32, Leading(held)[..w]) == held[..w];
  }

  /** Where warp `w` of a tile starts, from where the tile does, `run` slots a warp. */
  function Offset(w: nat, run: nat): nat { w * run }

  lemma OffsetSteps(w: nat, run: nat)
    ensures Offset(w + 1, run) == Offset(w, run) + run && Offset(0, run) == 0
  {}

  lemma OffsetIs(tile: nat, w: nat, rows: nat)
    ensures (tile * THREADS + w * WARP) * rows == tile * (THREADS * rows) + Offset(w, WARP * rows)
    ensures Offset(WARPS, WARP * rows) == THREADS * rows
  {}

  ghost predicate HeldOk(s: seq<U32>, first: nat, run: nat, held: seq<U32>) {
    forall v :: 0 <= v < |held| ==> held[v] == Fold(sumU32, Padded(s, first + Offset(v, run), run))
  }

  /** What each warp of a tile has before its first slot, from the tile's. */
  ghost predicate WithinOk(s: seq<U32>, first: nat, run: nat, within: seq<U32>) {
    forall w :: 0 <= w < |within| ==> within[w] == Fold(sumU32, Padded(s, first, Offset(w, run)))
  }

  lemma {:induction false} HeldFolds(s: seq<U32>, first: nat, run: nat, held: seq<U32>, w: nat)
    requires w <= |held| && HeldOk(s, first, run, held)
    ensures Fold(sumU32, held[..w]) == Fold(sumU32, Padded(s, first, Offset(w, run)))
  {
    if w == 0 {
      OffsetSteps(0, run);
      assert Padded(s, first, 0) == [];
    } else {
      HeldFolds(s, first, run, held, w - 1);
      assert held[..w][..w - 1] == held[..w - 1];
      OffsetSteps(w - 1, run);
      PaddedSplit(s, first, Offset(w - 1, run), run);
    }
  }

  /** Before the look-back: what each warp's first slot has before it in the tile, and the tile's
      total, by the block's exclusive scan of its warps' sums. */
  method TileBegins(rows: nat, source: array<U32>, tile: nat, scratch: array<U32>)
      returns (within: seq<U32>, total: U32)
    requires scratch.Length == WARPS && scratch != source
    modifies scratch
    ensures total == TileTotal(source[..], THREADS * rows, tile)
    ensures |within| == WARPS && WithinOk(source[..], tile * (THREADS * rows), WARP * rows, within)
  {
    hide Fold, Concat, Offset, HeldOk, WithinOk, Block.Below;
    var held := WarpSums(rows, source, tile);
    SumU32Reduces();
    var below, totals := Block.Exclusive(sumU32, 5, Leading(held), scratch);
    total := totals[0];
    within := [];
    for w := 0 to WARPS
      invariant |within| == w && forall v :: 0 <= v < w ==> within[v] == below[v][0]
    {
      within := within + [below[w][0]];
    }
    StartsAre(source[..], tile * (THREADS * rows), WARP * rows, held, below, within);
    OffsetIs(tile, 0, rows);
    assert Leading(held)[..WARPS] == Leading(held);
  }

  lemma StartsAre(s: seq<U32>, first: nat, run: nat, held: seq<U32>, below: seq<seq<U32>>, within: seq<U32>)
    requires |held| == |below| == |within| == WARPS && HeldOk(s, first, run, held)
    requires forall w :: 0 <= w < WARPS ==> |below[w]| == 32
    requires forall w :: 0 <= w < WARPS ==>
      within[w] == below[w][0] && below[w][0] == Fold(sumU32, Block.Below(Leading(held), w, 0))
    ensures WithinOk(s, first, run, within)
    ensures Fold(sumU32, Concat(Leading(held)[..WARPS])) == Fold(sumU32, Padded(s, first, Offset(WARPS, run)))
  {
    forall w | 0 <= w < WARPS ensures within[w] == Fold(sumU32, Padded(s, first, Offset(w, run))) {
      assert Block.Below(Leading(held), w, 0) == Concat(Leading(held)[..w]);
      LeadingFolds(held, w);
      HeldFolds(s, first, run, held, w);
    }
    LeadingFolds(held, WARPS);
    HeldFolds(s, first, run, held, WARPS);
  }

  method WarpSums(rows: nat, source: array<U32>, tile: nat) returns (held: seq<U32>)
    ensures |held| == WARPS && HeldOk(source[..], tile * (THREADS * rows), WARP * rows, held)
  {
    held := [];
    for w := 0 to WARPS
      invariant |held| == w && HeldOk(source[..], tile * (THREADS * rows), WARP * rows, held)
    {
      OffsetIs(tile, w, rows);
      var sum := Held(rows, source, (tile * THREADS + w * WARP) * rows);
      held := held + [sum];
    }
  }

  /** After the look-back: the whole tile written behind what the tiles before it hold. */
  method TileEnds(rows: nat, inclusive: bool, source: array<U32>, target: array<U32>, tile: nat, within: seq<U32>, ahead: U32)
    requires source.Length == target.Length && |within| == WARPS
    requires WithinOk(source[..], tile * (THREADS * rows), WARP * rows, within)
    modifies target
    ensures target[..] == After(old(source[..]), old(target[..]), inclusive, tile * (THREADS * rows), THREADS * rows, ahead)
    ensures source != target ==> source[..] == old(source[..])
  {
    ghost var first, run, s, was := tile * (THREADS * rows), WARP * rows, source[..], target[..];
    OffsetSteps(0, run);
    assert After(s, was, inclusive, first, 0, ahead) == was;
    for w := 0 to WARPS
      invariant source != target ==> source[..] == s
      invariant target[..] == After(s, was, inclusive, first, Offset(w, run), ahead)
    {
      OffsetIs(tile, w, rows);
      WarpEnds(rows, inclusive, source, target, (tile * THREADS + w * WARP) * rows, within[w], ahead, s, was, first, Offset(w, run));
      OffsetSteps(w, run);
    }
    OffsetIs(tile, 0, rows);
  }

  /** One warp of a tile writes its runs behind the warps before it. */
  method WarpEnds(rows: nat, inclusive: bool, source: array<U32>, target: array<U32>, at: nat, within: U32, ahead: U32,
      ghost s: seq<U32>, ghost was: seq<U32>, ghost first: nat, ghost done: nat)
    requires source.Length == target.Length == |s| == |was| && at == first + done
    requires target[..] == After(s, was, inclusive, first, done, ahead)
    requires if source == target then was == s else source[..] == s
    requires within == Fold(sumU32, Padded(s, first, done))
    modifies target
    ensures target[..] == After(s, was, inclusive, first, done + WARP * rows, ahead)
    ensures source != target ==> source[..] == s
  {
    ghost var r := source[..];
    Written(rows, inclusive, source, target, at, AddU32(ahead, within));
    AfterExtends(s, r, was, inclusive, first, done, WARP * rows, ahead);
  }

  /** An array one tile holds, scanned by one block: every slot gets its prefix sum. */
  method Single(rows: nat, inclusive: bool, source: array<U32>, target: array<U32>, scratch: array<U32>)
    requires source.Length == target.Length <= THREADS * rows
    requires scratch.Length == WARPS && scratch != source && scratch != target
    modifies target, scratch
    ensures forall i :: 0 <= i < target.Length ==> target[i] == Expected(old(source[..]), inclusive, i)
  {
    ghost var s := source[..];
    var within, _ := TileBegins(rows, source, 0, scratch);
    TileEnds(rows, inclusive, source, target, 0, within, 0);
    forall i | 0 <= i < target.Length ensures target[..][i] == Expected(s, inclusive, i) {
      ExpectedFrom(s, inclusive, 0, i);
    }
  }
}
