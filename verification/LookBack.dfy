/** The decoupled look-back as a state machine (src/patos/cuda/primitives/offsets.py:131-216). */
module LookBack {
  // Blocks take tiles by an atomic ticket, publish a status word each, and look back a window of lanes
  // at a time to the nearest inclusive prefix. Every atomic, and every lane's own read, is one step of
  // its own, so the steps of a run interleave in every way.

  import opened Monoids
  import opened Integers
  import Warp
  import Words

  // ---------------------------------------------------------------- status words

  const TOTAL: int := 0x1_0000_0000
  const PREFIX: int := 0x2_0000_0000

  /** A flag above the value's 32 bits; the bits of an `i32` and of a `u32` travel alike. */
  function Status(flag: int, value: U32): int { flag + value }

  function ValueOf(status: int): U32 { status % TWO32 }

  predicate Prefixed(status: int) { status >= PREFIX }

  /** A reader tells the three states of a tile apart and gets back exactly what was published. */
  lemma StatusRoundTrip(value: U32)
    ensures Status(TOTAL, value) != 0 && !Prefixed(Status(TOTAL, value))
    ensures Prefixed(Status(PREFIX, value))
    ensures ValueOf(Status(TOTAL, value)) == value && ValueOf(Status(PREFIX, value)) == value
  {
    ModUnique(TWO32, Status(TOTAL, value), 1, value);
    ModUnique(TWO32, Status(PREFIX, value), 2, value);
  }

  // ---------------------------------------------------------------- the machine

  /** One ordered pass: its operator, what each tile's counts combine to, and the logarithm of the
      lanes a window reads at once, which is 5 for the 32 of a warp. */
  datatype Pass = Pass(m: Monoid<U32>, totals: seq<U32>, k: nat) {
    function Width(): nat { Words.Pow2(k) }
  }

  datatype Pc = Claiming | Publishing | Looking | Prefixing | Placing | Done

  /** A block's program counter and locals; `lanes` holds each lane's `status`, 0 while it spins. */
  datatype Block = Block(pc: Pc, tile: nat, window: int, ahead: U32, lanes: seq<int>)

  /** `chain` is the status of each tile and then the ticket. `holders` records which block took
      each ticket and `returned` what the look-back returned for each tile that has ended it. */
  datatype State = State(chain: seq<int>, blocks: seq<Block>, holders: seq<nat>, returned: map<nat, U32>)

  datatype Action =
    | Claim(block: nat)
    | Publish(block: nat)
    | Read(block: nat, lane: nat)
    | Gather(block: nat)
    | Prefix(block: nat)
    | Place(block: nat)

  function Initial(p: Pass, blocks: nat): State {
    State(seq(|p.totals| + 1, _ => 0), seq(blocks, _ => Block(Claiming, 0, 0, 0, [])), [], map[])
  }

  /** A window's statuses before its lanes read: a lane below tile 0 holds an empty prefix. */
  function Unread(p: Pass, window: int): (lanes: seq<int>)
    ensures |lanes| == p.Width()
  {
    seq(p.Width(), i => if window - i >= 0 then 0 else Status(PREFIX, p.m.identity))
  }

  /** What each lane gives the reduction: its value up to the nearest prefix, identities beyond. */
  function Held(p: Pass, lanes: seq<int>): (held: seq<U32>)
    ensures |held| == |lanes|
  {
    var nearest := Nearest(lanes);
    seq(|lanes|, i requires 0 <= i < |lanes| =>
      if nearest >= 0 && i > nearest then p.m.identity else ValueOf(lanes[i]))
  }

  /** The ballot of the lanes that hold a prefix. */
  function Ballot(lanes: seq<int>): (mask: seq<bool>)
    ensures |mask| == |lanes|
  {
    seq(|lanes|, i requires 0 <= i < |lanes| => Prefixed(lanes[i]))
  }

  function Nearest(lanes: seq<int>): int { Warp.First(Ballot(lanes)) }

  /** What the warp's reduction hands lane 0 of what its lanes hold. */
  function Windowed(p: Pass, lanes: seq<int>): U32
    requires |lanes| == p.Width()
  {
    Warp.Reduced(p.m, p.k, Held(p, lanes))[0]
  }

  /** Whether an action changes anything: a lane whose predecessor has published nothing spins. */
  predicate Enabled(p: Pass, s: State, a: Action) {
    && a.block < |s.blocks|
    && |s.chain| == |p.totals| + 1
    && var b := s.blocks[a.block];
    match a
    case Claim(_) => b.pc == Claiming
    case Publish(_) => b.pc == Publishing && b.tile < |p.totals|
    case Read(_, lane) =>
      && b.pc == Looking && lane < |b.lanes| && b.lanes[lane] == 0
      && 0 <= b.window - lane < |p.totals| && s.chain[b.window - lane] != 0
    case Gather(_) =>
      b.pc == Looking && |b.lanes| == p.Width() && forall i :: 0 <= i < |b.lanes| ==> b.lanes[i] != 0
    case Prefix(_) => b.pc == Prefixing && b.tile < |p.totals|
    case Place(_) => b.pc == Placing
  }

  /** The state after `a` runs; running an action that is not enabled leaves the state alone. */
  function Do(p: Pass, s: State, a: Action): State {
    if !Enabled(p, s, a) then s else
    var n, b := |p.totals|, s.blocks[a.block];
    match a
    case Claim(i) =>
      var ticket := s.chain[n];
      var next := if 0 <= ticket < n then b.(pc := Publishing, tile := ticket) else b.(pc := Done);
      s.(chain := s.chain[n := ticket + 1], blocks := s.blocks[i := next], holders := s.holders + [i])
    case Publish(i) =>
      var window := b.tile - 1;
      s.(chain := s.chain[b.tile := Status(TOTAL, p.totals[b.tile])],
         blocks := s.blocks[i := b.(pc := Looking, ahead := p.m.identity, window := window,
                                    lanes := Unread(p, window))])
    case Read(i, lane) =>
      s.(blocks := s.blocks[i := b.(lanes := b.lanes[lane := s.chain[b.window - lane]])])
    case Gather(i) =>
      var ahead := p.m.combine(Windowed(p, b.lanes), b.ahead);
      var window := b.window - p.Width();
      s.(blocks := s.blocks[i :=
        if Nearest(b.lanes) >= 0 then b.(pc := Prefixing, ahead := ahead)
        else b.(ahead := ahead, window := window, lanes := Unread(p, window))])
    case Prefix(i) =>
      s.(chain := s.chain[b.tile := Status(PREFIX, p.m.combine(b.ahead, p.totals[b.tile]))],
         blocks := s.blocks[i := b.(pc := Placing)])
    case Place(i) =>
      s.(blocks := s.blocks[i := b.(pc := Claiming)], returned := s.returned[b.tile := b.ahead])
  }

  // ---------------------------------------------------------------- what every step keeps

  ghost predicate PassOk(p: Pass) {
    Lawful(p.m) && Commutative(p.m)
  }

  /** What the tiles before tile `t` hold. */
  function Before(p: Pass, t: nat): U32
    requires t <= |p.totals|
  {
    Fold(p.m, p.totals[..t])
  }

  function TotalStatus(p: Pass, t: nat): int
    requires t < |p.totals|
  {
    Status(TOTAL, p.totals[t])
  }

  function PrefixStatus(p: Pass, t: nat): int
    requires t < |p.totals|
  {
    Status(PREFIX, Before(p, t + 1))
  }

  /** A status a tile may show: nothing, exactly its own total, or exactly its inclusive prefix. */
  predicate StatusOk(p: Pass, t: nat, status: int)
    requires t < |p.totals|
  {
    status == 0 || status == TotalStatus(p, t) || status == PrefixStatus(p, t)
  }

  predicate LaneOk(p: Pass, predecessor: int, status: int)
    requires predecessor < |p.totals|
  {
    if predecessor >= 0 then StatusOk(p, predecessor, status) else status == Status(PREFIX, p.m.identity)
  }

  predicate Active(b: Block) { b.pc != Claiming && b.pc != Done }

  /** A block between publishing its total and its prefix. */
  predicate LookingOk(p: Pass, b: Block)
    requires b.tile < |p.totals|
  {
    && -1 <= b.window < b.tile
    && b.ahead == Fold(p.m, p.totals[b.window + 1..b.tile])
    && |b.lanes| == p.Width()
    && forall i :: 0 <= i < |b.lanes| ==> LaneOk(p, b.window - i, b.lanes[i])
  }

  predicate BlockOk(p: Pass, s: State, i: nat)
    requires i < |s.blocks| && |s.chain| == |p.totals| + 1
  {
    var n, b := |p.totals|, s.blocks[i];
    && (b.pc == Done ==> |s.holders| >= n)
    && (Active(b) ==>
        && b.tile < n && b.tile < |s.holders| && s.holders[b.tile] == i && b.tile !in s.returned
        && (b.pc == Publishing ==> s.chain[b.tile] == 0)
        && (b.pc == Looking ==> s.chain[b.tile] == TotalStatus(p, b.tile) && LookingOk(p, b))
        && (b.pc == Prefixing ==> s.chain[b.tile] == TotalStatus(p, b.tile) && b.ahead == Before(p, b.tile))
        && (b.pc == Placing ==> s.chain[b.tile] == PrefixStatus(p, b.tile) && b.ahead == Before(p, b.tile)))
  }

  /** A tile's place in the pass: unclaimed and empty, held by the block its ticket went to, or
      returned with what the tiles before it hold and its prefix in the chain. */
  predicate TileOk(p: Pass, s: State, t: nat)
    requires t < |p.totals| && |s.chain| == |p.totals| + 1
  {
    && StatusOk(p, t, s.chain[t])
    && (t >= |s.holders| ==> s.chain[t] == 0 && t !in s.returned)
    && (t in s.returned ==> s.returned[t] == Before(p, t) && s.chain[t] == PrefixStatus(p, t))
    && (t < |s.holders| && t !in s.returned ==>
        && s.holders[t] < |s.blocks|
        && Active(s.blocks[s.holders[t]]) && s.blocks[s.holders[t]].tile == t)
  }

  predicate Inv(p: Pass, s: State) {
    && |s.chain| == |p.totals| + 1
    && s.chain[|p.totals|] == |s.holders|
    && (forall t :: 0 <= t < |p.totals| ==> TileOk(p, s, t))
    && (forall t :: t in s.returned ==> t < |p.totals|)
    && (forall i :: 0 <= i < |s.blocks| ==> BlockOk(p, s, i))
  }

  lemma InitialInv(p: Pass, blocks: nat)
    ensures Inv(p, Initial(p, blocks))
  {}

  // ---------------------------------------------------------------- one window

  /** The lanes of a window that has no prefix hold its tiles' totals, nearest first. */
  lemma WindowOfTotals(p: Pass, b: Block) returns (run: seq<U32>)
    requires PassOk(p) && b.tile < |p.totals| && LookingOk(p, b)
    requires forall i :: 0 <= i < |b.lanes| ==> b.lanes[i] != 0
    requires Nearest(b.lanes) < 0
    ensures b.window - p.Width() >= -1 && run == p.totals[b.window - p.Width() + 1..b.window + 1]
    ensures Fold(p.m, Held(p, b.lanes)) == Fold(p.m, run)
  {
    assert !Ballot(b.lanes)[p.Width() - 1];
    StatusRoundTrip(p.m.identity);
    assert b.window - (p.Width() - 1) >= 0 by { assert LaneOk(p, b.window - (p.Width() - 1), b.lanes[p.Width() - 1]); }
    run := p.totals[b.window - p.Width() + 1..b.window + 1];
    forall i | 0 <= i < p.Width() ensures Held(p, b.lanes)[i] == Reversed(run)[i] {
      assert !Ballot(b.lanes)[i];
      TotalLane(p, b, i);
    }
    assert Held(p, b.lanes) == Reversed(run);
    FoldReversed(p.m, run);
  }

  /** A lane short of the nearest prefix read its tile's own total. */
  lemma TotalLane(p: Pass, b: Block, i: nat)
    requires b.tile < |p.totals| && LookingOk(p, b) && i < |b.lanes| && b.lanes[i] != 0
    requires !Prefixed(b.lanes[i])
    ensures b.window - i >= 0 && ValueOf(b.lanes[i]) == p.totals[b.window - i]
  {
    StatusRoundTrip(p.m.identity);
    assert LaneOk(p, b.window - i, b.lanes[i]);
    if b.window - i >= 0 {
      StatusRoundTrip(p.totals[b.window - i]);
      StatusRoundTrip(Before(p, b.window - i + 1));
    }
  }

  /** The nearest lane with a prefix read what every tile up to its own holds. */
  lemma PrefixLane(p: Pass, b: Block, i: nat)
    requires b.tile < |p.totals| && LookingOk(p, b) && i < |b.lanes| && b.lanes[i] != 0
    requires Prefixed(b.lanes[i]) && (i == 0 || b.window - (i - 1) >= 0)
    ensures b.window - i >= -1 && ValueOf(b.lanes[i]) == Before(p, b.window - i + 1)
  {
    assert LaneOk(p, b.window - i, b.lanes[i]);
    StatusRoundTrip(p.m.identity);
    if b.window - i >= 0 {
      StatusRoundTrip(p.totals[b.window - i]);
      StatusRoundTrip(Before(p, b.window - i + 1));
    }
  }

  lemma {:induction false} FoldIdentities<T(!new)>(m: Monoid<T>, s: seq<T>)
    requires Lawful(m) && forall i :: 0 <= i < |s| ==> s[i] == m.identity
    ensures Fold(m, s) == m.identity
  {
    if |s| > 0 { FoldIdentities(m, s[..|s| - 1]); }
  }

  /** Runs nearest first, then a prefix, then identities, fold to the prefix and the run in order. */
  lemma FoldNearestFirst<T(!new)>(m: Monoid<T>, run: seq<T>, prefix: T, rest: seq<T>)
    requires Lawful(m) && Commutative(m) && forall i :: 0 <= i < |rest| ==> rest[i] == m.identity
    ensures Fold(m, Reversed(run) + [prefix] + rest) == m.combine(prefix, Fold(m, run))
  {
    FoldConcat(m, Reversed(run) + [prefix], rest);
    FoldIdentities(m, rest);
    FoldSnoc(m, Reversed(run), prefix);
    FoldReversed(m, run);
    assert Commutes(m, Fold(m, run), prefix);
  }

  lemma ShortOfNearest(p: Pass, b: Block, i: nat)
    requires b.tile < |p.totals| && LookingOk(p, b) && i < Nearest(b.lanes) && b.lanes[i] != 0
    ensures b.window - i >= 0 && Held(p, b.lanes)[i] == p.totals[b.window - i]
  {
    assert !Ballot(b.lanes)[i];
    TotalLane(p, b, i);
  }

  lemma AtNearest(p: Pass, b: Block, f: nat)
    requires b.tile < |p.totals| && LookingOk(p, b) && f == Nearest(b.lanes)
    requires forall i :: 0 <= i < |b.lanes| ==> b.lanes[i] != 0
    ensures b.window - f >= -1 && Held(p, b.lanes)[f] == Before(p, b.window - f + 1)
  {
    if f > 0 { ShortOfNearest(p, b, f - 1); }
    assert Ballot(b.lanes)[f];
    PrefixLane(p, b, f);
  }

  /** A window with a prefix at lane `f`: totals short of it, the prefix, and nothing beyond. */
  lemma HeldShape(p: Pass, b: Block, f: nat)
    requires b.tile < |p.totals| && LookingOk(p, b) && f == Nearest(b.lanes)
    requires forall i :: 0 <= i < |b.lanes| ==> b.lanes[i] != 0
    ensures 0 <= b.window - f + 1
    ensures Held(p, b.lanes)[..f] == Reversed(p.totals[b.window - f + 1..b.window + 1])
    ensures Held(p, b.lanes)[f] == Before(p, b.window - f + 1)
    ensures forall i :: f < i < |b.lanes| ==> Held(p, b.lanes)[i] == p.m.identity
  {
    AtNearest(p, b, f);
    var front, back := Held(p, b.lanes)[..f], Reversed(p.totals[b.window - f + 1..b.window + 1]);
    forall i | 0 <= i < f ensures front[i] == back[i] {
      ShortOfNearest(p, b, i);
    }
  }

  /** The lanes of a window with a prefix reduce to everything up to the window's top, whichever
      mix of totals and prefixes they happened to read, and although they hold it nearest first. */
  lemma WindowToPrefix(p: Pass, b: Block)
    requires PassOk(p) && b.tile < |p.totals| && LookingOk(p, b)
    requires forall i :: 0 <= i < |b.lanes| ==> b.lanes[i] != 0
    requires Nearest(b.lanes) >= 0
    ensures Fold(p.m, Held(p, b.lanes)) == Before(p, b.window + 1)
  {
    var f, held := Nearest(b.lanes), Held(p, b.lanes);
    HeldShape(p, b, f);
    var below := b.window - f + 1;
    var run, top := p.totals[below..b.window + 1], p.totals[..b.window + 1];
    assert held == Reversed(run) + [Before(p, below)] + held[f + 1..];
    FoldNearestFirst(p.m, run, Before(p, below), held[f + 1..]);
    assert top == p.totals[..below] + run;
    FoldConcat(p.m, p.totals[..below], run);
  }

  /** The warp's reduction hands on the fold of what its lanes hold. */
  lemma WindowedIsFold(p: Pass, lanes: seq<int>)
    requires PassOk(p) && |lanes| == p.Width()
    ensures Windowed(p, lanes) == Fold(p.m, Held(p, lanes))
  {
    Warp.ReducedFolds(p.m, p.k, Held(p, lanes));
  }

  /** What tiles hold, put before what the tiles after them hold. */
  lemma JoinsBefore(p: Pass, low: nat, mid: nat, high: nat, held: U32, ahead: U32)
    requires PassOk(p) && low <= mid <= high <= |p.totals|
    requires held == Fold(p.m, p.totals[low..mid]) && ahead == Fold(p.m, p.totals[mid..high])
    ensures p.m.combine(held, ahead) == Fold(p.m, p.totals[low..high])
  {
    FoldSplit(p.m, p.totals, low, mid, high);
  }

  // ---------------------------------------------------------------- safety

  lemma PrefixIs(p: Pass, t: nat)
    requires PassOk(p) && t < |p.totals|
    ensures p.m.combine(Before(p, t), p.totals[t]) == Before(p, t + 1)
  {
    FoldSnoc(p.m, p.totals[..t], p.totals[t]);
    assert p.totals[..t] + [p.totals[t]] == p.totals[..t + 1];
  }

  lemma ClaimKeeps(p: Pass, s: State, i: nat)
    requires PassOk(p) && Inv(p, s) && Enabled(p, s, Claim(i))
    ensures Inv(p, Do(p, s, Claim(i)))
  {
    var s', ticket := Do(p, s, Claim(i)), |s.holders|;
    if ticket < |p.totals| { assert TileOk(p, s, ticket); }
    forall j | 0 <= j < |s'.blocks| ensures BlockOk(p, s', j) {
      assert BlockOk(p, s, j);
    }
    forall t | 0 <= t < |p.totals| ensures TileOk(p, s', t) {
      assert TileOk(p, s, t);
    }
  }

  /** A step of a block that holds a tile, changing that block and that tile's status only. */
  lemma HeldKeeps(p: Pass, s: State, i: nat, s': State)
    requires PassOk(p) && Inv(p, s) && i < |s.blocks| && Active(s.blocks[i])
    requires s.blocks[i].tile < |p.totals|
    requires |s'.blocks| == |s.blocks| && s'.holders == s.holders && |s'.chain| == |s.chain|
    requires forall j :: 0 <= j < |s.blocks| && j != i ==> s'.blocks[j] == s.blocks[j]
    requires forall t :: 0 <= t <= |p.totals| && t != s.blocks[i].tile ==> s'.chain[t] == s.chain[t]
    requires forall t :: t != s.blocks[i].tile ==> (t in s'.returned <==> t in s.returned)
    requires forall t :: t in s.returned && t in s'.returned ==> s'.returned[t] == s.returned[t]
    requires BlockOk(p, s', i) && TileOk(p, s', s.blocks[i].tile)
    ensures Inv(p, s')
  {
    assert BlockOk(p, s, i);
    forall j | 0 <= j < |s'.blocks| ensures BlockOk(p, s', j) {
      assert BlockOk(p, s, j);
    }
    forall t | 0 <= t < |p.totals| ensures TileOk(p, s', t) {
      assert TileOk(p, s, t);
    }
  }

  lemma PublishKeeps(p: Pass, s: State, i: nat)
    requires PassOk(p) && Inv(p, s) && Enabled(p, s, Publish(i))
    ensures Inv(p, Do(p, s, Publish(i)))
  {
    var b := s.blocks[i];
    assert BlockOk(p, s, i) && TileOk(p, s, b.tile);
    assert p.totals[b.tile..b.tile] == [];
    HeldKeeps(p, s, i, Do(p, s, Publish(i)));
  }

  lemma ReadKeeps(p: Pass, s: State, i: nat, lane: nat)
    requires PassOk(p) && Inv(p, s) && Enabled(p, s, Read(i, lane))
    ensures Inv(p, Do(p, s, Read(i, lane)))
  {
    var b := s.blocks[i];
    assert BlockOk(p, s, i) && TileOk(p, s, b.tile) && TileOk(p, s, b.window - lane);
    HeldKeeps(p, s, i, Do(p, s, Read(i, lane)));
  }

  /** Behind a window with a prefix `ahead` covers every tile there is, behind one of totals every
      tile read so far. */
  lemma GatheredFrom(p: Pass, b: Block) returns (from: nat)
    requires PassOk(p) && b.tile < |p.totals| && LookingOk(p, b)
    requires forall i :: 0 <= i < |b.lanes| ==> b.lanes[i] != 0
    ensures from == if Nearest(b.lanes) >= 0 then 0 else b.window - p.Width() + 1
    ensures from <= b.tile && p.m.combine(Windowed(p, b.lanes), b.ahead) == Fold(p.m, p.totals[from..b.tile])
  {
    WindowedIsFold(p, b.lanes);
    var held := Windowed(p, b.lanes);
    hide Windowed, Fold, Held;
    if Nearest(b.lanes) >= 0 {
      WindowToPrefix(p, b);
      assert p.totals[0..b.window + 1] == p.totals[..b.window + 1];
      from := 0;
    } else {
      var _ := WindowOfTotals(p, b);
      from := b.window - p.Width() + 1;
    }
    JoinsBefore(p, from, b.window + 1, b.tile, held, b.ahead);
  }

  lemma GatherKeeps(p: Pass, s: State, i: nat)
    requires PassOk(p) && Inv(p, s) && Enabled(p, s, Gather(i))
    ensures Inv(p, Do(p, s, Gather(i)))
  {
    var b := s.blocks[i];
    assert BlockOk(p, s, i) && TileOk(p, s, b.tile);
    var from := GatheredFrom(p, b);
    hide Windowed, Fold;
    assert p.totals[0..b.tile] == p.totals[..b.tile];
    HeldKeeps(p, s, i, Do(p, s, Gather(i)));
  }

  lemma EndingKeeps(p: Pass, s: State, a: Action)
    requires PassOk(p) && Inv(p, s) && Enabled(p, s, a) && (a.Prefix? || a.Place?)
    ensures Inv(p, Do(p, s, a))
  {
    var b := s.blocks[a.block];
    assert BlockOk(p, s, a.block) && TileOk(p, s, b.tile);
    PrefixIs(p, b.tile);
    HeldKeeps(p, s, a.block, Do(p, s, a));
  }

  /** Every step of every block keeps the invariant. */
  lemma StepKeeps(p: Pass, s: State, a: Action)
    requires PassOk(p) && Inv(p, s)
    ensures Inv(p, Do(p, s, a))
  {
    if Enabled(p, s, a) {
      match a {
        case Claim(i) => ClaimKeeps(p, s, i);
        case Publish(i) => PublishKeeps(p, s, i);
        case Read(i, lane) => ReadKeeps(p, s, i, lane);
        case Gather(i) => GatherKeeps(p, s, i);
        case _ => EndingKeeps(p, s, a);
      }
    }
  }

  /** The state after `k` steps of a schedule, which may run any block's action at any time. */
  function Run(p: Pass, blocks: nat, schedule: nat -> Action, k: nat): State {
    if k == 0 then Initial(p, blocks) else Do(p, Run(p, blocks, schedule, k - 1), schedule(k - 1))
  }

  lemma {:induction false} RunKeeps(p: Pass, blocks: nat, schedule: nat -> Action, k: nat)
    requires PassOk(p)
    ensures Inv(p, Run(p, blocks, schedule, k))
  {
    if k == 0 {
      InitialInv(p, blocks);
    } else {
      RunKeeps(p, blocks, schedule, k - 1);
      StepKeeps(p, Run(p, blocks, schedule, k - 1), schedule(k - 1));
    }
  }

  /** Safety over every interleaving: whatever a look-back returns for a tile is the combination of
      the totals of exactly the tiles before it, and a chain shows nothing but a tile's own total
      or inclusive prefix. */
  lemma LookBackReturnsBefore(p: Pass, blocks: nat, schedule: nat -> Action, k: nat, t: nat)
    requires PassOk(p) && t < |p.totals|
    ensures var s := Run(p, blocks, schedule, k);
      && |s.chain| == |p.totals| + 1 && StatusOk(p, t, s.chain[t])
      && (t in s.returned ==> s.returned[t] == Fold(p.m, p.totals[..t]))
  {
    RunKeeps(p, blocks, schedule, k);
    assert TileOk(p, Run(p, blocks, schedule, k), t);
  }

  /** A status only moves from empty to the tile's own total, and from there to its prefix. */
  lemma StatusOnlyAdvances(p: Pass, s: State, a: Action, t: nat)
    requires PassOk(p) && Inv(p, s) && t < |p.totals|
    ensures var before, after := s.chain[t], Do(p, s, a).chain[t];
      || after == before
      || (before == 0 && after == TotalStatus(p, t))
      || (before == TotalStatus(p, t) && after == PrefixStatus(p, t))
  {
    if Enabled(p, s, a) {
      assert BlockOk(p, s, a.block) && TileOk(p, s, t);
      if a.Prefix? { PrefixIs(p, s.blocks[a.block].tile); }
    }
  }

  /** The ticket slot only ever counts claims: no status lands on it. */
  lemma TicketCountsClaims(p: Pass, s: State, a: Action)
    requires PassOk(p) && Inv(p, s)
    ensures var n, s' := |p.totals|, Do(p, s, a);
      s'.chain[n] == s.chain[n] + if a.Claim? && Enabled(p, s, a) then 1 else 0
  {
    if Enabled(p, s, a) { assert BlockOk(p, s, a.block); }
  }
}
