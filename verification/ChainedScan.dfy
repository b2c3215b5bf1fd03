/** One pass of many blocks over one array (src/patos/cuda/primitives/offsets.py:302-334). */
module ChainedScan {
  // The look-back machine with the memory its blocks read and write, which may be one array. A block
  // reads its tile when it publishes; its warps store their runs one by one, each at its own pace, while
  // other blocks go on. The next claim waits for the first warp, the next tile for them all.

  import opened Monoids
  import opened Integers
  import opened LookBack
  import opened LookBackProgress
  import opened WholeScan

  /** A scan of `source` in tiles of `size` slots, `rows` runs of 32 to each of `warps` warps; in
      place, blocks read the memory they write. */
  datatype Job = Job(source: seq<U32>, target: seq<U32>, warps: nat, rows: nat, size: nat, inclusive: bool,
    inPlace: bool)
  {
    /** The slots of one warp. */
    function Span(): nat { WARP * rows }

    ghost predicate Ok() {
      && warps > 0 && rows > 0 && size > 0 && size == Offset(warps, Span())
      && |source| == |target| && (inPlace ==> source == target)
    }
  }

  /** What the warps of a placed tile have stored, run by run, and the carry each goes on with. */
  datatype Stores = Stores(done: seq<nat>, carry: seq<U32>)

  datatype World = World(look: State, memory: seq<U32>, stores: map<nat, Stores>)

  /** A step of a block's look-back, or a warp's next run of a tile its block has placed. */
  datatype Move = Look(action: Action) | Store(tile: nat, warp: nat)

  /** `-(-n // size)`, the tiles of an array. */
  function Tiles(n: nat, size: nat): nat
    requires size > 0
  {
    (n + size - 1) / size
  }

  lemma TilesCover(n: nat, size: nat, t: nat)
    requires size > 0
    ensures t < Tiles(n, size) <==> t * size < n
  {
    var q, r := (n + size - 1) / size, (n + size - 1) % size;
    assert n + size - 1 == q * size + r;
    if t < q { Times(t + 1, q, size); } else { Times(q, t, size); }
  }

  lemma Times(a: nat, b: nat, c: nat)
    requires a <= b
    ensures a * c <= b * c
  {}

  function Readable(j: Job, memory: seq<U32>): seq<U32> { if j.inPlace then memory else j.source }

  /** The pass over what the blocks would read now. */
  function PassNow(j: Job, readable: seq<U32>): Pass
    requires j.size > 0
  {
    Pass(sumU32, seq(Tiles(|j.source|, j.size), t requires t >= 0 => TileTotal(readable, j.size, t)), 5)
  }

  /** Where warp `v` of tile `t` begins. */
  function Base(j: Job, t: nat, v: nat): nat { t * j.size + Offset(v, j.Span()) }

  predicate HasRun(j: Job, w: World, t: nat, v: nat) {
    t in w.stores && v < |w.stores[t].done| == |w.stores[t].carry| && w.stores[t].done[v] < j.rows
  }

  /** Whether a block's next claim, or the tile it has claimed, must wait for the tile before. */
  ghost predicate Waits(j: Job, w: World, a: Action) {
    exists t: nat, v: nat :: HasRun(j, w, t, v) && t < |w.look.holders| && w.look.holders[t] == a.block
                   && (a.Publish? || (a.Claim? && v == 0))
  }

  ghost predicate Acts(j: Job, w: World, m: Move)
    requires j.size > 0
  {
    match m
    case Look(a) => Enabled(PassNow(j, Readable(j, w.memory)), w.look, a) && !Waits(j, w, a)
    case Store(t, v) => HasRun(j, w, t, v)
  }

  function Unbegun(warps: nat): seq<nat> { seq(warps, _ => 0) }

  /** A tile's stores as its warps begin: each behind the warps before it and what the look-back
      returned. */
  ghost function Begun(j: Job, readable: seq<U32>, t: nat, ahead: U32): Stores {
    Stores(Unbegun(j.warps),
           seq(j.warps, v requires v >= 0 => AddU32(ahead, Fold(sumU32, Padded(readable, t * j.size, Offset(v, j.Span()))))))
  }

  /** The next run of warp `v` of tile `t`: scanned from the carry, stored, and added to it. */
  ghost function Stored(j: Job, w: World, t: nat, v: nat): World
    requires HasRun(j, w, t, v)
  {
    var s := w.stores[t];
    var at := Base(j, t, v) + WARP * s.done[v];
    var readable := Readable(j, w.memory);
    w.(memory := After(readable, w.memory, j.inclusive, at, WARP, s.carry[v]),
       stores := w.stores[t := Stores(s.done[v := s.done[v] + 1],
                                      s.carry[v := AddU32(s.carry[v], Fold(sumU32, Padded(readable, at, WARP)))])])
  }

  /** What `Stored` does to memory is one pass of the warp's loop over its runs, in place or not. */
  method StoreRun(inclusive: bool, source: array<U32>, target: array<U32>, at: nat, carry: U32) returns (next: U32)
    requires source.Length == target.Length
    modifies target
    ensures target[..] == After(old(source[..]), old(target[..]), inclusive, at, WARP, carry)
    ensures next == AddU32(carry, Fold(sumU32, Padded(old(source[..]), at, WARP)))
    ensures source != target ==> source[..] == old(source[..])
  {
    ghost var s, was := source[..], target[..];
    NothingReached(s, was, inclusive, at, carry);
    next := WriteRun(inclusive, source, target, at, carry, s, was, at, 0, carry);
    hide After;
  }

  ghost function Step(j: Job, w: World, m: Move): World
    requires j.size > 0
  {
    if !Acts(j, w, m) then w else
    match m
    case Store(t, v) => Stored(j, w, t, v)
    case Look(a) =>
      var readable := Readable(j, w.memory);
      var b := w.look.blocks[a.block];
      World(Do(PassNow(j, readable), w.look, a), w.memory,
            if a.Place? then w.stores[b.tile := Begun(j, readable, b.tile, b.ahead)] else w.stores)
  }

  /** The world after `k` moves of a schedule of a grid of `blocks` blocks. */
  ghost function Running(j: Job, blocks: nat, schedule: nat -> Move, k: nat): World
    requires j.size > 0
  {
    if k == 0 then World(Initial(PassNow(j, j.source), blocks), j.target, map[])
    else Step(j, Running(j, blocks, schedule, k - 1), schedule(k - 1))
  }

  // ---------------------------------------------------------------- whose slots are whose

  predicate InTile(j: Job, t: nat, i: nat) { t * j.size <= i < t * j.size + j.size }

  predicate InWarp(j: Job, t: nat, v: nat, i: nat) { v < j.warps && Base(j, t, v) <= i < Base(j, t, v) + j.Span() }

  /** The run a warp stores next. */
  predicate InRun(j: Job, w: World, t: nat, v: nat, i: nat)
    requires HasRun(j, w, t, v)
  {
    var at := Base(j, t, v) + WARP * w.stores[t].done[v];
    at <= i < at + WARP
  }

  lemma TilesApart(j: Job, t: nat, u: nat, i: nat)
    requires InTile(j, t, i) && InTile(j, u, i)
    ensures t == u
  {
    if t < u { Times(t + 1, u, j.size); } else if u < t { Times(u + 1, t, j.size); }
  }

  lemma OffsetsGrow(v: nat, u: nat, span: nat)
    requires v < u
    ensures Offset(v, span) + span <= Offset(u, span)
  {
    OffsetSteps(v, span);
    Times(v + 1, u, span);
  }

  /** A warp's slots are its tile's, and no other warp's of any tile. */
  lemma WarpInTile(j: Job, t: nat, v: nat, i: nat)
    requires j.Ok() && InWarp(j, t, v, i)
    ensures InTile(j, t, i)
  {
    OffsetsGrow(v, j.warps, j.Span());
    hide Offset;
  }

  lemma WarpsApart(j: Job, t: nat, v: nat, u: nat, x: nat, i: nat)
    requires j.Ok() && InWarp(j, t, v, i) && InWarp(j, u, x, i)
    ensures t == u && v == x
  {
    WarpInTile(j, t, v, i);
    WarpInTile(j, u, x, i);
    TilesApart(j, t, u, i);
    if v < x { OffsetsGrow(v, x, j.Span()); } else if x < v { OffsetsGrow(x, v, j.Span()); }
    hide Offset;
  }

  lemma WarpOf(j: Job, t: nat, i: nat) returns (v: nat)
    requires j.Ok() && InTile(j, t, i)
    ensures InWarp(j, t, v, i)
  {
    var x, span := i - t * j.size, j.Span();
    v := x / span;
    assert x == Offset(v, span) + x % span;
    if v >= j.warps { Times(j.warps, v, span); }
  }

  lemma TileOf(j: Job, i: nat) returns (t: nat)
    requires j.Ok() && i < |j.source|
    ensures InTile(j, t, i) && t < Tiles(|j.source|, j.size)
  {
    t := i / j.size;
    assert i == t * j.size + i % j.size;
    TilesCover(|j.source|, j.size, t);
  }

  // ---------------------------------------------------------------- what every move keeps

  /** Whether a slot of warp `v` of tile `t` has been stored. */
  predicate IsStored(j: Job, w: World, t: nat, v: nat, i: nat) {
    t in w.stores && v < |w.stores[t].done| && i < Base(j, t, v) + WARP * w.stores[t].done[v]
  }

  ghost predicate SlotOk(j: Job, w: World, t: nat, v: nat, i: nat)
    requires i < |w.memory| == |j.source| == |j.target|
  {
    InWarp(j, t, v, i) ==>
      w.memory[i] == if IsStored(j, w, t, v, i) then Expected(j.source, j.inclusive, i) else j.target[i]
  }

  /** Slots that have been stored are done, the rest as they were. */
  ghost predicate MemoryOk(j: Job, w: World) {
    && |w.memory| == |j.source| == |j.target|
    && forall t: nat, v: nat, i: nat :: i < |w.memory| ==> SlotOk(j, w, t, v, i)
  }

  /** A warp's carry is what lies before its next run. */
  ghost predicate CarryOk(j: Job, t: nat, v: nat, done: nat, carry: U32) {
    done <= j.rows && carry == Fold(sumU32, Padded(j.source, 0, Base(j, t, v) + WARP * done))
  }

  ghost predicate StoresOk(j: Job, t: nat, s: Stores) {
    && |s.done| == |s.carry| == j.warps
    && forall v :: 0 <= v < j.warps ==> CarryOk(j, t, v, s.done[v], s.carry[v])
  }

  ghost predicate WorldOk(j: Job, w: World) {
    && j.Ok() && Inv(PassNow(j, j.source), w.look) && MemoryOk(j, w)
    && (forall t :: t in w.stores <==> t in w.look.returned)
    && (forall t :: t in w.stores ==> StoresOk(j, t, w.stores[t]))
  }

  /** A slot not yet stored still reads as it did. */
  lemma UnstoredReads(j: Job, w: World, t: nat, v: nat, i: nat)
    requires WorldOk(j, w) && i < |j.source| && InWarp(j, t, v, i) && !IsStored(j, w, t, v, i)
    ensures Readable(j, w.memory)[i] == j.source[i]
  {
    assert SlotOk(j, w, t, v, i);
  }

  lemma UnplacedReads(j: Job, w: World, t: nat, length: nat)
    requires WorldOk(j, w) && t !in w.stores && length <= j.size
    ensures Padded(Readable(j, w.memory), t * j.size, length) == Padded(j.source, t * j.size, length)
  {
    hide WorldOk;
    assert |w.memory| == |j.source| && j.Ok() by { SameLength(j, w); }
    forall i | 0 <= i < length
      ensures Padded(Readable(j, w.memory), t * j.size, length)[i] == Padded(j.source, t * j.size, length)[i]
    {
      var at := t * j.size + i;
      if at < |j.source| {
        var v := WarpOf(j, t, at);
        UnstoredReads(j, w, t, v, at);
      }
    }
  }

  lemma SameLength(j: Job, w: World)
    requires WorldOk(j, w)
    ensures |w.memory| == |j.source| && j.Ok()
  {}

  /** Only the acting block's own tile's total matters to a step, so stepping over what is readable
      now is stepping over the source. */
  lemma StepsAlike(j: Job, w: World, a: Action)
    requires WorldOk(j, w)
    ensures var p, now := PassNow(j, j.source), PassNow(j, Readable(j, w.memory));
      Enabled(now, w.look, a) == Enabled(p, w.look, a) && Do(now, w.look, a) == Do(p, w.look, a)
  {
    var p, now := PassNow(j, j.source), PassNow(j, Readable(j, w.memory));
    if a.block < |w.look.blocks| && Active(w.look.blocks[a.block]) {
      OwnTotalReads(j, w, a.block);
    }
    hide PassNow, WorldOk;
    DoesAlike(p, now, w.look, a);
  }

  /** A step reads no total but the acting block's own. */
  lemma DoesAlike(p: Pass, now: Pass, s: State, a: Action)
    requires |now.totals| == |p.totals| && now.m == p.m && now.k == p.k
    requires a.block < |s.blocks| && Active(s.blocks[a.block]) ==>
      var t := s.blocks[a.block].tile;
      t < |p.totals| && now.totals[t] == p.totals[t]
    ensures Enabled(now, s, a) == Enabled(p, s, a) && Do(now, s, a) == Do(p, s, a)
  {}

  /** The acting block's own tile still reads as it did. */
  lemma OwnTotalReads(j: Job, w: World, b: nat)
    requires WorldOk(j, w) && b < |w.look.blocks| && Active(w.look.blocks[b])
    ensures w.look.blocks[b].tile < |PassNow(j, j.source).totals| && w.look.blocks[b].tile !in w.stores
    ensures PassNow(j, Readable(j, w.memory)).totals[w.look.blocks[b].tile] == PassNow(j, j.source).totals[w.look.blocks[b].tile]
  {
    assert BlockOk(PassNow(j, j.source), w.look, b);
    UnplacedReads(j, w, w.look.blocks[b].tile, j.size);
  }

  /** What the tiles before `t` hold is what the slots before its first do. */
  lemma {:induction false} BeforeIsPrefix(j: Job, t: nat)
    requires j.size > 0 && t <= Tiles(|j.source|, j.size)
    ensures Before(PassNow(j, j.source), t) == Fold(sumU32, Padded(j.source, 0, t * j.size))
  {
    var p := PassNow(j, j.source);
    if t > 0 {
      BeforeIsPrefix(j, t - 1);
      PrefixIsSum(p, t - 1);
      PaddedSplit(j.source, 0, (t - 1) * j.size, j.size);
      NextTile(t - 1, j.size);
      assert p.totals[t - 1] == Fold(sumU32, Padded(j.source, (t - 1) * j.size, j.size));
    } else {
      assert p.totals[..0] == [];
      assert Padded(j.source, 0, 0) == [];
    }
  }

  lemma NextTile(t: nat, size: nat)
    ensures (t + 1) * size == t * size + size
  {}

  lemma PrefixIsSum(p: Pass, t: nat)
    requires p.m == sumU32 && t < |p.totals|
    ensures Before(p, t + 1) == AddU32(Before(p, t), p.totals[t])
  {
    SumU32Reduces();
    PrefixIs(p, t);
  }

  // ---------------------------------------------------------------- placing

  /** What a block about to place starts from. */
  lemma Places(j: Job, w: World, b: nat)
    requires WorldOk(j, w) && b < |w.look.blocks| && w.look.blocks[b].pc == Placing
    ensures var t := w.look.blocks[b].tile;
      && t < Tiles(|j.source|, j.size) && t !in w.stores
      && w.look.blocks[b].ahead == Fold(sumU32, Padded(j.source, 0, t * j.size))
  {
    assert BlockOk(PassNow(j, j.source), w.look, b);
    BeforeIsPrefix(j, w.look.blocks[b].tile);
  }

  lemma BegunOk(j: Job, w: World, t: nat, ahead: U32)
    requires WorldOk(j, w) && t !in w.stores && ahead == Fold(sumU32, Padded(j.source, 0, t * j.size))
    ensures StoresOk(j, t, Begun(j, Readable(j, w.memory), t, ahead))
  {
    hide Offset, Fold, Padded, WorldOk;
    SameLength(j, w);
    var s := Begun(j, Readable(j, w.memory), t, ahead);
    forall v | 0 <= v < j.warps ensures CarryOk(j, t, v, s.done[v], s.carry[v]) {
      OffsetsGrow(v, j.warps, j.Span());
      UnplacedReads(j, w, t, Offset(v, j.Span()));
      PaddedSplit(j.source, 0, t * j.size, Offset(v, j.Span()));
    }
  }

  lemma LookOk(j: Job, w: World, a: Action)
    requires WorldOk(j, w) && Acts(j, w, Look(a))
    ensures WorldOk(j, Step(j, w, Look(a)))
    ensures Step(j, w, Look(a)).look == Do(PassNow(j, j.source), w.look, a)
  {
    var p, w' := PassNow(j, j.source), Step(j, w, Look(a));
    SumU32Reduces();
    StepsAlike(j, w, a);
    StepKeeps(p, w.look, a);
    if a.Place? {
      var b := w.look.blocks[a.block];
      Places(j, w, a.block);
      BegunOk(j, w, b.tile, b.ahead);
    }
    LookKeepsMemory(j, w, a);
    hide MemoryOk, Inv, PassNow, StoresOk, Begun, Waits;
  }

  /** A tile just placed has none of its slots stored. */
  lemma LookKeepsMemory(j: Job, w: World, a: Action)
    requires WorldOk(j, w) && Acts(j, w, Look(a))
    ensures MemoryOk(j, Step(j, w, Look(a)))
  {
    var w' := Step(j, w, Look(a));
    StepsAlike(j, w, a);
    if a.Place? { Places(j, w, a.block); }
    forall t: nat, v: nat, i: nat | i < |w'.memory| ensures SlotOk(j, w', t, v, i) {
      assert SlotOk(j, w, t, v, i);
    }
  }

  // ---------------------------------------------------------------- storing

  /** The run a warp is about to store still reads as it did. */
  lemma RunReads(j: Job, w: World, t: nat, v: nat, length: nat)
    requires WorldOk(j, w) && HasRun(j, w, t, v) && length <= WARP
    ensures var at := Base(j, t, v) + WARP * w.stores[t].done[v];
      Padded(Readable(j, w.memory), at, length) == Padded(j.source, at, length)
  {
    var at := Base(j, t, v) + WARP * w.stores[t].done[v];
    SameLength(j, w);
    forall i | 0 <= i < length
      ensures Padded(Readable(j, w.memory), at, length)[i] == Padded(j.source, at, length)[i]
    {
      if at + i < |j.source| { UnstoredReads(j, w, t, v, at + i); }
    }
  }

  /** A run is stored as the whole scan has it. */
  lemma RunIsExpected(j: Job, w: World, t: nat, v: nat, i: nat)
    requires WorldOk(j, w) && HasRun(j, w, t, v) && i < |j.source|
    requires InRun(j, w, t, v, i)
    ensures Stored(j, w, t, v).memory[i] == Expected(j.source, j.inclusive, i)
  {
    hide Fold, Expected, Base, Offset;
    SameLength(j, w);
    StoredSlot(j, w, t, v, i);
    var s := w.stores[t];
    var at := Base(j, t, v) + WARP * s.done[v];
    assert CarryOk(j, t, v, s.done[v], s.carry[v]);
    hide WorldOk, Stored;
    RunReads(j, w, t, v, i - at + if j.inclusive then 1 else 0);
    PaddedIsPrefix(j.source, at);
    ExpectedFrom(j.source, j.inclusive, at, i);
    hide Padded;
  }

  lemma StoredSlot(j: Job, w: World, t: nat, v: nat, i: nat)
    requires HasRun(j, w, t, v) && i < |w.memory| && InRun(j, w, t, v, i)
    ensures |Stored(j, w, t, v).memory| == |w.memory|
    ensures var at := Base(j, t, v) + WARP * w.stores[t].done[v];
      Stored(j, w, t, v).memory[i] == AddU32(w.stores[t].carry[v],
        Fold(sumU32, Padded(Readable(j, w.memory), at, i - at + if j.inclusive then 1 else 0)))
  {
    hide Base, Fold, Padded;
  }

  lemma StoreKeepsMemory(j: Job, w: World, t: nat, v: nat)
    requires WorldOk(j, w) && HasRun(j, w, t, v)
    ensures MemoryOk(j, Stored(j, w, t, v))
  {
    var w' := Stored(j, w, t, v);
    SameLength(j, w);
    forall u: nat, x: nat, i: nat | i < |w'.memory| ensures SlotOk(j, w', u, x, i) {
      StoreKeepsSlot(j, w, t, v, u, x, i);
    }
  }

  lemma StoreKeepsSlot(j: Job, w: World, t: nat, v: nat, u: nat, x: nat, i: nat)
    requires WorldOk(j, w) && HasRun(j, w, t, v) && i < |j.source|
    ensures |Stored(j, w, t, v).memory| == |j.source| == |j.target| && SlotOk(j, Stored(j, w, t, v), u, x, i)
  {
    assert SlotOk(j, w, u, x, i);
    assert StoresOk(j, t, w.stores[t]);
    SameLength(j, w);
    if InWarp(j, u, x, i) && InRun(j, w, t, v, i) {
      WarpsApart(j, t, v, u, x, i);
      RunIsExpected(j, w, t, v, i);
    }
    hide WorldOk, Fold, Padded, Expected, StoresOk;
  }

  lemma StoreOk(j: Job, w: World, t: nat, v: nat)
    requires WorldOk(j, w) && HasRun(j, w, t, v)
    ensures WorldOk(j, Stored(j, w, t, v))
  {
    var s, s' := w.stores[t], Stored(j, w, t, v).stores[t];
    StoreKeepsMemory(j, w, t, v);
    forall x | 0 <= x < j.warps ensures CarryOk(j, t, x, s'.done[x], s'.carry[x]) {
      assert CarryOk(j, t, x, s.done[x], s.carry[x]);
      if x == v { CarryGoesOn(j, w, t, v); }
    }
    hide MemoryOk, CarryOk;
  }

  lemma CarryGoesOn(j: Job, w: World, t: nat, v: nat)
    requires WorldOk(j, w) && HasRun(j, w, t, v)
    ensures var s := Stored(j, w, t, v).stores[t]; CarryOk(j, t, v, s.done[v], s.carry[v])
  {
    var at := Base(j, t, v) + WARP * w.stores[t].done[v];
    assert CarryOk(j, t, v, w.stores[t].done[v], w.stores[t].carry[v]);
    RunReads(j, w, t, v, WARP);
    PaddedSplit(j.source, 0, at, WARP);
    hide WorldOk, Padded, Fold, Base;
  }

  /** Every move keeps the world right: each slot is as it was until its run is stored, and from
      then on what the sequential scan makes it. */
  lemma StepOk(j: Job, w: World, m: Move)
    requires WorldOk(j, w)
    ensures WorldOk(j, Step(j, w, m))
  {
    if Acts(j, w, m) {
      match m
      case Look(a) => LookOk(j, w, a);
      case Store(t, v) => StoreOk(j, w, t, v);
    }
  }

  /** No slot is written twice: once stored it never changes, and no run stored later holds it. */
  lemma SlotsAreWrittenOnce(j: Job, w: World, m: Move, t: nat, v: nat, i: nat)
    requires WorldOk(j, w) && i < |j.source| && InWarp(j, t, v, i) && IsStored(j, w, t, v, i)
    ensures IsStored(j, Step(j, w, m), t, v, i)
    ensures |Step(j, w, m).memory| == |w.memory| && Step(j, w, m).memory[i] == w.memory[i]
    ensures m.Store? && Acts(j, w, m) ==> !InRun(j, w, m.tile, m.warp, i)
  {
    StepOk(j, w, m);
    assert SlotOk(j, w, t, v, i) && SlotOk(j, Step(j, w, m), t, v, i);
    if Acts(j, w, m) {
      match m
      case Look(a) =>
        StepsAlike(j, w, a);
        if a.Place? { Places(j, w, a.block); }
      case Store(u, x) =>
        assert StoresOk(j, u, w.stores[u]);
        if InRun(j, w, u, x, i) { WarpsApart(j, t, v, u, x, i); }
    }
    hide WorldOk, StoresOk, Expected;
  }

  // ---------------------------------------------------------------- the measure

  /** The runs that a tile's warps have not stored yet. */
  function Left(done: seq<nat>, rows: nat): nat {
    if |done| == 0 then 0
    else Left(done[..|done| - 1], rows) + if done[|done| - 1] < rows then rows - done[|done| - 1] else 0
  }

  lemma {:induction false} LeftUpdate(done: seq<nat>, rows: nat, v: nat)
    requires v < |done| && done[v] < rows
    ensures Left(done[v := done[v] + 1], rows) == Left(done, rows) - 1
  {
    var n := |done| - 1;
    if v < n {
      LeftUpdate(done[..n], rows, v);
      assert done[v := done[v] + 1][..n] == done[..n][v := done[v] + 1];
    } else {
      assert done[v := done[v] + 1][..n] == done[..n];
    }
  }

  /** The runs of the first `n` tiles, those of a tile not yet placed included. */
  function Owed(j: Job, stores: map<nat, Stores>, n: nat): nat {
    if n == 0 then 0
    else Owed(j, stores, n - 1) + Left(if n - 1 in stores then stores[n - 1].done else Unbegun(j.warps), j.rows)
  }

  lemma {:induction false} OwedUpdate(j: Job, stores: map<nat, Stores>, t: nat, s: Stores, n: nat)
    ensures Owed(j, stores[t := s], n) == Owed(j, stores, n) +
      if t < n then Left(s.done, j.rows) - Left(if t in stores then stores[t].done else Unbegun(j.warps), j.rows) else 0
  {
    hide Left;
    if n > 0 { OwedUpdate(j, stores, t, s, n - 1); }
  }

  function Total(j: Job, w: World): int
    requires j.size > 0
  {
    Measure(PassNow(j, j.source), w.look) + Owed(j, w.stores, Tiles(|j.source|, j.size))
  }

  lemma TotalNotNegative(j: Job, w: World)
    requires WorldOk(j, w)
    ensures Total(j, w) >= 0
  {
    MeasureNotNegative(PassNow(j, j.source), w.look);
    hide Measure;
  }

  /** Every move but one that waits uses up part of it. */
  lemma MoveUsesUp(j: Job, w: World, m: Move)
    requires WorldOk(j, w) && Acts(j, w, m)
    ensures Total(j, Step(j, w, m)) < Total(j, w)
  {
    match m
    case Look(a) => LookUsesUp(j, w, a);
    case Store(t, v) => StoreUsesUp(j, w, t, v);
  }

  lemma LookUsesUp(j: Job, w: World, a: Action)
    requires WorldOk(j, w) && Acts(j, w, Look(a))
    ensures Total(j, Step(j, w, Look(a))) < Total(j, w)
  {
    var p := PassNow(j, j.source);
    SumU32Reduces();
    LookOk(j, w, a);
    StepsAlike(j, w, a);
    ActionUsesUp(p, w.look, a);
    if a.Place? {
      var b := w.look.blocks[a.block];
      Places(j, w, a.block);
      OwedUpdate(j, w.stores, b.tile, Begun(j, Readable(j, w.memory), b.tile, b.ahead), Tiles(|j.source|, j.size));
    }
    hide Measure, Do, Enabled, Owed, Left, PassNow, WorldOk, Tiles, Waits;
  }

  lemma StoreUsesUp(j: Job, w: World, t: nat, v: nat)
    requires WorldOk(j, w) && HasRun(j, w, t, v)
    ensures Total(j, Stored(j, w, t, v)) < Total(j, w)
  {
    hide Measure, Owed, Left, PassNow, WorldOk, Base, Padded, Fold, After, Tiles;
    SameLength(j, w);
    TileStored(j, w, t);
    var s := Stored(j, w, t, v).stores[t];
    LeftUpdate(w.stores[t].done, j.rows, v);
    OwedUpdate(j, w.stores, t, s, Tiles(|j.source|, j.size));
  }

  lemma TileStored(j: Job, w: World, t: nat)
    requires WorldOk(j, w) && t in w.stores
    ensures t < Tiles(|j.source|, j.size) && StoresOk(j, t, w.stores[t])
  {
    assert t in w.look.returned;
  }

  // ---------------------------------------------------------------- every fair run finishes

  /** Every block has left and no warp has a run to store. */
  ghost predicate Finished(j: Job, w: World) { AllDone(w.look) && NothingToStore(j, w) }

  ghost predicate NothingToStore(j: Job, w: World) { forall t: nat, v: nat :: !HasRun(j, w, t, v) }

  /** Whether a move is of a block that has started. */
  predicate IsStarted(w: World, m: Move) {
    match m
    case Look(a) => Started(w.look, a.block)
    case Store(t, _) => t < |w.look.holders|
  }

  /** What a launch promises of a schedule: every move of a block that has started is scheduled again
      and again, and where no block runs, one that has not started does. */
  ghost predicate FairMoves(j: Job, blocks: nat, schedule: nat -> Move)
    requires j.size > 0
  {
    && (forall k, m: Move :: IsStarted(Running(j, blocks, schedule, k), m) ==> MovesFrom(schedule, k, m))
    && (forall k ::
          var w := Running(j, blocks, schedule, k);
          NoneRuns(w.look) && NothingToStore(j, w) && !AllDone(w.look) ==> SomeMoveStarts(j, blocks, schedule, k))
  }

  ghost predicate MovesFrom(schedule: nat -> Move, k: nat, m: Move) { exists i :: i >= k && MovesAt(schedule, i, m) }

  ghost predicate MovesAt(schedule: nat -> Move, i: nat, m: Move) { schedule(i) == m }

  ghost predicate SomeMoveStarts(j: Job, blocks: nat, schedule: nat -> Move, k: nat)
    requires j.size > 0
  {
    exists b :: Starts(Running(j, blocks, schedule, k).look, b) && MovesFrom(schedule, k, Look(Claim(b)))
  }

  /** The world stays right over every run. */
  lemma {:induction false} RunningOk(j: Job, blocks: nat, schedule: nat -> Move, k: nat)
    requires j.Ok()
    ensures WorldOk(j, Running(j, blocks, schedule, k))
    ensures |Running(j, blocks, schedule, k).look.blocks| == blocks
  {
    if k == 0 {
      InitialInv(PassNow(j, j.source), blocks);
    } else {
      RunningOk(j, blocks, schedule, k - 1);
      StepOk(j, Running(j, blocks, schedule, k - 1), schedule(k - 1));
      hide WorldOk, Acts, PassNow, Enabled, Begun;
    }
  }

  /** Some move of a block that runs can act, unless none runs. */
  lemma SomeoneCanMove(j: Job, w: World) returns (m: Move)
    requires WorldOk(j, w) && !(NoneRuns(w.look) && NothingToStore(j, w))
    ensures Acts(j, w, m) && IsStarted(w, m)
  {
    var p := PassNow(j, j.source);
    if !NothingToStore(j, w) {
      var t: nat, v: nat :| HasRun(j, w, t, v);
      assert TileOk(p, w.look, t);
      m := Store(t, v);
    } else {
      var i :| 0 <= i < |w.look.blocks| && Started(w.look, i) && w.look.blocks[i].pc != Done;
      SumU32Reduces();
      var a := SomeoneCanAct(p, w.look, i);
      StepsAlike(j, w, a);
      m := Look(a);
    }
  }

  lemma SomeMoveIsScheduled(j: Job, blocks: nat, schedule: nat -> Move, k: nat) returns (i: nat)
    requires j.Ok() && FairMoves(j, blocks, schedule) && !Finished(j, Running(j, blocks, schedule, k))
    ensures i >= k && Acts(j, Running(j, blocks, schedule, k), schedule(i))
  {
    var w := Running(j, blocks, schedule, k);
    RunningOk(j, blocks, schedule, k);
    hide Running;
    var m: Move;
    if NoneRuns(w.look) && NothingToStore(j, w) {
      assert SomeMoveStarts(j, blocks, schedule, k);
      var b :| Starts(w.look, b) && MovesFrom(schedule, k, Look(Claim(b)));
      m := Look(Claim(b));
      assert Enabled(PassNow(j, Readable(j, w.memory)), w.look, m.action);
    } else {
      m := SomeoneCanMove(j, w);
    }
    assert MovesFrom(schedule, k, m);
    i :| i >= k && MovesAt(schedule, i, m);
  }

  lemma OneMove(j: Job, blocks: nat, schedule: nat -> Move, k: nat)
    requires j.Ok()
    ensures if Acts(j, Running(j, blocks, schedule, k), schedule(k))
            then Total(j, Running(j, blocks, schedule, k + 1)) < Total(j, Running(j, blocks, schedule, k))
            else Running(j, blocks, schedule, k + 1) == Running(j, blocks, schedule, k)
  {
    var w := Running(j, blocks, schedule, k);
    RunningOk(j, blocks, schedule, k);
    assert Running(j, blocks, schedule, k + 1) == Step(j, w, schedule(k));
    hide Total, WorldOk, Acts;
    if Acts(j, w, schedule(k)) { MoveUsesUp(j, w, schedule(k)); }
  }

  lemma {:induction false} NeverMore(j: Job, blocks: nat, schedule: nat -> Move, k: nat, i: nat)
    requires j.Ok() && k <= i
    ensures Total(j, Running(j, blocks, schedule, i)) <= Total(j, Running(j, blocks, schedule, k))
    decreases i
  {
    hide Running, Total, Acts;
    if k < i {
      NeverMore(j, blocks, schedule, k, i - 1);
      OneMove(j, blocks, schedule, i - 1);
    }
  }

  lemma {:induction false} SomethingMoves(j: Job, blocks: nat, schedule: nat -> Move, k: nat, i: nat)
    requires j.Ok() && k <= i && Acts(j, Running(j, blocks, schedule, k), schedule(i))
    ensures Total(j, Running(j, blocks, schedule, i + 1)) < Total(j, Running(j, blocks, schedule, k))
    decreases i - k
  {
    hide Running, Total, Acts;
    OneMove(j, blocks, schedule, k);
    if Acts(j, Running(j, blocks, schedule, k), schedule(k)) {
      NeverMore(j, blocks, schedule, k + 1, i + 1);
    } else {
      SomethingMoves(j, blocks, schedule, k + 1, i);
    }
  }

  lemma {:induction false} FinishesFrom(j: Job, blocks: nat, schedule: nat -> Move, k: nat) returns (end: nat)
    requires j.Ok() && FairMoves(j, blocks, schedule)
    ensures Finished(j, Running(j, blocks, schedule, end))
    decreases Total(j, Running(j, blocks, schedule, k))
  {
    hide Running, Total, Acts, FairMoves, Finished, WorldOk;
    var w := Running(j, blocks, schedule, k);
    if Finished(j, w) {
      end := k;
    } else {
      var i := SomeMoveIsScheduled(j, blocks, schedule, k);
      SomethingMoves(j, blocks, schedule, k, i);
      RunningOk(j, blocks, schedule, k);
      RunningOk(j, blocks, schedule, i + 1);
      TotalNotNegative(j, w);
      TotalNotNegative(j, Running(j, blocks, schedule, i + 1));
      end := FinishesFrom(j, blocks, schedule, i + 1);
    }
  }

  /** A slot is stored once its tile is placed and its warps have nothing to store. */
  lemma FinishedSlot(j: Job, w: World, i: nat)
    requires WorldOk(j, w) && Finished(j, w) && |w.look.blocks| > 0 && i < |j.source|
    ensures |w.memory| == |j.source| && w.memory[i] == Expected(j.source, j.inclusive, i)
  {
    var t := TileOf(j, i);
    var v := WarpOf(j, t, i);
    SumU32Reduces();
    DoneIsComplete(PassNow(j, j.source), w.look, t);
    assert StoresOk(j, t, w.stores[t]);
    assert CarryOk(j, t, v, w.stores[t].done[v], w.stores[t].carry[v]);
    assert !HasRun(j, w, t, v);
    assert SlotOk(j, w, t, v, i);
    hide WorldOk, Expected, Fold, Padded;
  }

  /** What the sequential scan leaves. */
  ghost predicate Scanned(j: Job, memory: seq<U32>) {
    |memory| == |j.source| && forall i :: 0 <= i < |j.source| ==> memory[i] == Expected(j.source, j.inclusive, i)
  }

  /** The whole pass refines the sequential scan: with any number of blocks, on every fair schedule of
      their steps and of their warps' stores, in place or not, every slot ends as the wrapped sum of
      the elements before it. */
  lemma EveryFairScanIsSequential(j: Job, blocks: nat, schedule: nat -> Move) returns (end: nat)
    requires j.Ok() && blocks > 0 && FairMoves(j, blocks, schedule)
    ensures Finished(j, Running(j, blocks, schedule, end)) && Scanned(j, Running(j, blocks, schedule, end).memory)
  {
    end := FinishesFrom(j, blocks, schedule, 0);
    RunningOk(j, blocks, schedule, end);
    var w := Running(j, blocks, schedule, end);
    SameLength(j, w);
    hide WorldOk, Finished, Expected, Running;
    forall i | 0 <= i < |j.source| ensures w.memory[i] == Expected(j.source, j.inclusive, i) { FinishedSlot(j, w, i); }
  }
}
