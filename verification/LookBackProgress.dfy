/** Why the look-back ends (src/patos/cuda/primitives/offsets.py:1-7). */
module LookBackProgress {
  // Tickets go up by one and a total is out before its block waits, so whatever a block waits on is held by
  // a block that has started and can act; and every action that changes anything uses up part of a finite
  // measure.

  import opened Monoids
  import opened Integers
  import opened LookBack

  // ---------------------------------------------------------------- nobody waits in vain

  /** A spinning lane waits on a block that has its tile and is about to publish its total. */
  lemma WaitsOnPublisher(p: Pass, s: State, i: nat, lane: nat)
    requires PassOk(p) && Inv(p, s) && i < |s.blocks| && s.blocks[i].pc == Looking
    requires lane < |s.blocks[i].lanes| && s.blocks[i].lanes[lane] == 0
    requires !Enabled(p, s, Read(i, lane))
    ensures var waited := s.blocks[i].window - lane;
      && 0 <= waited < |s.holders| && s.holders[waited] < |s.blocks|
      && s.blocks[s.holders[waited]].tile == waited
      && Enabled(p, s, Publish(s.holders[waited]))
  {
    var b := s.blocks[i];
    assert BlockOk(p, s, i);
    assert LaneOk(p, b.window - lane, b.lanes[lane]);
    var waited := b.window - lane;
    assert TileOk(p, s, waited);
    StatusRoundTrip(Before(p, waited + 1));
    StatusRoundTrip(p.totals[waited]);
    assert BlockOk(p, s, s.holders[waited]);
  }

  ghost predicate AllDone(s: State) {
    forall i :: 0 <= i < |s.blocks| ==> s.blocks[i].pc == Done
  }

  /** Whether a block has claimed, and so runs until it is done; one that has not may have to wait
      until there is room for it. */
  predicate Started(s: State, i: nat) { i in s.holders }

  /** In every reachable state where a block runs, one that runs can do more than spin. */
  lemma SomeoneCanAct(p: Pass, s: State, i: nat) returns (a: Action)
    requires PassOk(p) && Inv(p, s) && i < |s.blocks| && Started(s, i) && s.blocks[i].pc != Done
    ensures Enabled(p, s, a) && Started(s, a.block)
  {
    assert BlockOk(p, s, i);
    var b := s.blocks[i];
    match b.pc {
      case Claiming => a := Claim(i);
      case Publishing => a := Publish(i);
      case Prefixing => a := Prefix(i);
      case Placing => a := Place(i);
      case Looking =>
        if lane :| 0 <= lane < |b.lanes| && b.lanes[lane] == 0 {
          if Enabled(p, s, Read(i, lane)) {
            a := Read(i, lane);
          } else {
            WaitsOnPublisher(p, s, i, lane);
            a := Publish(s.holders[b.window - lane]);
          }
        } else {
          a := Gather(i);
        }
    }
  }

  /** Once every block has left, every tile has its answer. */
  lemma DoneIsComplete(p: Pass, s: State, t: nat)
    requires PassOk(p) && Inv(p, s) && AllDone(s) && |s.blocks| > 0 && t < |p.totals|
    ensures t in s.returned && s.returned[t] == Fold(p.m, p.totals[..t])
    ensures s.chain[t] == Status(PREFIX, Fold(p.m, p.totals[..t + 1]))
  {
    assert BlockOk(p, s, 0) && TileOk(p, s, t);
  }

  // ---------------------------------------------------------------- the measure

  function Spinning(lanes: seq<int>): (n: nat)
    ensures n <= |lanes|
  {
    if |lanes| == 0 then 0
    else Spinning(lanes[..|lanes| - 1]) + if lanes[|lanes| - 1] == 0 then 1 else 0
  }

  lemma {:induction false} ReadingEndsASpin(lanes: seq<int>, lane: nat, status: int)
    requires lane < |lanes| && lanes[lane] == 0 && status != 0
    ensures Spinning(lanes[lane := status]) == Spinning(lanes) - 1
  {
    var n := |lanes| - 1;
    if lane < n {
      ReadingEndsASpin(lanes[..n], lane, status);
      assert lanes[lane := status][..n] == lanes[..n][lane := status];
    } else {
      assert lanes[lane := status][..n] == lanes[..n];
    }
  }

  /** An upper bound on the actions of a look-back from a window, besides its lanes' reads. */
  function Windows(p: Pass, window: int): int {
    (window + 2) * (p.Width() + 1)
  }

  lemma WindowUsesUp(p: Pass, window: int)
    requires window >= -1
    ensures Windows(p, window) >= 1
    ensures Windows(p, window - p.Width()) + p.Width() < Windows(p, window)
  {
    var w := p.Width();
    assert Windows(p, window) == (window + 1) * (w + 1) + (w + 1);
    assert (window + 1) * (w + 1) >= 0;
    assert Windows(p, window) - Windows(p, window - w) == w * (w + 1) >= w + 1;
  }

  /** The actions left to a block until it claims again, that claim included. */
  function Rank(p: Pass, b: Block): int {
    match b.pc
    case Done => 0
    case Claiming => 1
    case Placing => 2
    case Prefixing => 3
    case Looking => 3 + Windows(p, b.window) + Spinning(b.lanes)
    case Publishing => Cost(p, b.tile)
  }

  function Cost(p: Pass, tile: nat): int { 4 + Windows(p, tile - 1) + p.Width() }

  function Ranks(p: Pass, blocks: seq<Block>): int {
    if |blocks| == 0 then 0 else Ranks(p, blocks[..|blocks| - 1]) + Rank(p, blocks[|blocks| - 1])
  }

  /** The actions that the tiles from `tile` on will cost whoever claims them. */
  function Unclaimed(p: Pass, tile: nat): int
    decreases |p.totals| - tile
  {
    if tile >= |p.totals| then 0 else Cost(p, tile) + Unclaimed(p, tile + 1)
  }

  function Measure(p: Pass, s: State): int { Ranks(p, s.blocks) + Unclaimed(p, |s.holders|) }

  lemma {:induction false} RanksUpdate(p: Pass, blocks: seq<Block>, i: nat, b: Block)
    requires i < |blocks|
    ensures Ranks(p, blocks[i := b]) == Ranks(p, blocks) - Rank(p, blocks[i]) + Rank(p, b)
  {
    var n := |blocks| - 1;
    if i < n {
      RanksUpdate(p, blocks[..n], i, b);
      assert blocks[i := b][..n] == blocks[..n][i := b];
    } else {
      assert blocks[i := b][..n] == blocks[..n];
    }
  }

  lemma RankNotNegative(p: Pass, s: State, i: nat)
    requires Inv(p, s) && i < |s.blocks|
    ensures Rank(p, s.blocks[i]) >= 0
  {
    assert BlockOk(p, s, i);
    if s.blocks[i].pc == Looking {
      WindowUsesUp(p, s.blocks[i].window);
    } else if s.blocks[i].pc == Publishing {
      WindowUsesUp(p, s.blocks[i].tile - 1);
    }
  }

  lemma {:induction false} RanksNotNegative(p: Pass, s: State, n: nat)
    requires Inv(p, s) && n <= |s.blocks|
    ensures Ranks(p, s.blocks[..n]) >= 0
  {
    if n > 0 {
      RanksNotNegative(p, s, n - 1);
      RankNotNegative(p, s, n - 1);
      assert s.blocks[..n][..n - 1] == s.blocks[..n - 1];
    }
  }

  lemma {:induction false} UnclaimedNotNegative(p: Pass, tile: nat)
    ensures Unclaimed(p, tile) >= 0
    decreases |p.totals| - tile
  {
    if tile < |p.totals| {
      UnclaimedNotNegative(p, tile + 1);
      WindowUsesUp(p, tile - 1);
    }
  }

  lemma MeasureNotNegative(p: Pass, s: State)
    requires Inv(p, s)
    ensures Measure(p, s) >= 0
  {
    RanksNotNegative(p, s, |s.blocks|);
    assert s.blocks[..|s.blocks|] == s.blocks;
    UnclaimedNotNegative(p, |s.holders|);
  }

  lemma RankDrops(p: Pass, s: State, a: Action)
    requires PassOk(p) && Inv(p, s) && Enabled(p, s, a) && !a.Claim?
    ensures Rank(p, Do(p, s, a).blocks[a.block]) < Rank(p, s.blocks[a.block])
  {
    var b := s.blocks[a.block];
    assert BlockOk(p, s, a.block);
    match a {
      case Read(_, lane) => ReadingEndsASpin(b.lanes, lane, s.chain[b.window - lane]);
      case Gather(_) => GatherDrops(p, s, a);
      case _ => hide Windows;
    }
  }

  lemma GatherDrops(p: Pass, s: State, a: Action)
    requires PassOk(p) && Inv(p, s) && Enabled(p, s, a) && a.Gather?
    ensures Rank(p, Do(p, s, a).blocks[a.block]) < Rank(p, s.blocks[a.block])
  {
    var b := s.blocks[a.block];
    assert BlockOk(p, s, a.block);
    WindowUsesUp(p, b.window);
    hide Windows, Windowed, Nearest, Inv;
  }

  /** Every action that is not a spin uses up part of the measure. */
  lemma ActionUsesUp(p: Pass, s: State, a: Action)
    requires PassOk(p) && Inv(p, s) && Enabled(p, s, a)
    ensures Measure(p, Do(p, s, a)) < Measure(p, s)
  {
    RanksUpdate(p, s.blocks, a.block, Do(p, s, a).blocks[a.block]);
    if !a.Claim? { RankDrops(p, s, a); }
  }

  // ---------------------------------------------------------------- every fair run finishes

  /** What a launch promises of a schedule: every action of a block that has started is scheduled
      again and again, and where no block runs, one that has not started does. How many run at once,
      and which of them start, is left open. */
  ghost predicate Fair(p: Pass, blocks: nat, schedule: nat -> Action) {
    && (forall k, a: Action :: Started(Run(p, blocks, schedule, k), a.block) ==> ScheduledFrom(schedule, k, a))
    && (forall k :: NoneRuns(Run(p, blocks, schedule, k)) && !AllDone(Run(p, blocks, schedule, k)) ==>
        StartsSome(p, blocks, schedule, k))
  }

  ghost predicate NoneRuns(s: State) {
    forall i :: 0 <= i < |s.blocks| && Started(s, i) ==> s.blocks[i].pc == Done
  }

  ghost predicate StartsSome(p: Pass, blocks: nat, schedule: nat -> Action, k: nat) {
    exists i :: Starts(Run(p, blocks, schedule, k), i) && ScheduledFrom(schedule, k, Claim(i))
  }

  predicate Starts(s: State, i: nat) { i < |s.blocks| && !Started(s, i) && s.blocks[i].pc == Claiming }

  ghost predicate ScheduledFrom(schedule: nat -> Action, k: nat, a: Action) {
    exists j :: j >= k && Scheduled(schedule, j, a)
  }

  ghost predicate Scheduled(schedule: nat -> Action, j: nat, a: Action) { schedule(j) == a }

  /** A schedule that comes back to every action of every block is one of them. */
  lemma SchedulingAllIsFair(p: Pass, blocks: nat, schedule: nat -> Action)
    requires PassOk(p) && forall k, a: Action :: ScheduledFrom(schedule, k, a)
    ensures Fair(p, blocks, schedule)
  {
    forall k | NoneRuns(Run(p, blocks, schedule, k)) && !AllDone(Run(p, blocks, schedule, k))
      ensures StartsSome(p, blocks, schedule, k)
    {
      var s := Run(p, blocks, schedule, k);
      RunKeeps(p, blocks, schedule, k);
      var i :| 0 <= i < |s.blocks| && s.blocks[i].pc != Done;
      assert BlockOk(p, s, i);
      assert Starts(s, i) && ScheduledFrom(schedule, k, Claim(i));
    }
  }

  /** A scheduled step uses up part of the measure, or spins and changes nothing. */
  lemma OneStep(p: Pass, blocks: nat, schedule: nat -> Action, k: nat)
    requires PassOk(p)
    ensures if Enabled(p, Run(p, blocks, schedule, k), schedule(k))
            then Measure(p, Run(p, blocks, schedule, k + 1)) < Measure(p, Run(p, blocks, schedule, k))
            else Run(p, blocks, schedule, k + 1) == Run(p, blocks, schedule, k)
  {
    var s := Run(p, blocks, schedule, k);
    RunKeeps(p, blocks, schedule, k);
    if Enabled(p, s, schedule(k)) { ActionUsesUp(p, s, schedule(k)); }
  }

  lemma {:induction false} NeverGrows(p: Pass, blocks: nat, schedule: nat -> Action, k: nat, j: nat)
    requires PassOk(p) && k <= j
    ensures Measure(p, Run(p, blocks, schedule, j)) <= Measure(p, Run(p, blocks, schedule, k))
    decreases j
  {
    hide *;
    if k < j {
      NeverGrows(p, blocks, schedule, k, j - 1);
      OneStep(p, blocks, schedule, j - 1);
    }
  }

  /** From `k` to `j` something happens, if an action enabled at `k` is scheduled at `j`. */
  lemma {:induction false} SomethingHappens(p: Pass, blocks: nat, schedule: nat -> Action, k: nat, j: nat)
    requires PassOk(p) && k <= j && Enabled(p, Run(p, blocks, schedule, k), schedule(j))
    ensures Measure(p, Run(p, blocks, schedule, j + 1)) < Measure(p, Run(p, blocks, schedule, k))
    decreases j - k
  {
    hide *;
    OneStep(p, blocks, schedule, k);
    if Enabled(p, Run(p, blocks, schedule, k), schedule(k)) {
      NeverGrows(p, blocks, schedule, k + 1, j + 1);
    } else {
      SomethingHappens(p, blocks, schedule, k + 1, j);
    }
  }

  /** A fair schedule has something happen to every state but the last. */
  lemma SomethingIsScheduled(p: Pass, blocks: nat, schedule: nat -> Action, k: nat) returns (j: nat)
    requires PassOk(p) && Fair(p, blocks, schedule) && !AllDone(Run(p, blocks, schedule, k))
    ensures j >= k && Enabled(p, Run(p, blocks, schedule, k), schedule(j))
  {
    var s := Run(p, blocks, schedule, k);
    RunKeeps(p, blocks, schedule, k);
    hide Run, PassOk;
    var a: Action;
    if NoneRuns(s) {
      assert StartsSome(p, blocks, schedule, k);
      var i :| Starts(s, i) && ScheduledFrom(schedule, k, Claim(i));
      a := Claim(i);
    } else {
      var i :| 0 <= i < |s.blocks| && Started(s, i) && s.blocks[i].pc != Done;
      a := SomeoneCanAct(p, s, i);
    }
    assert ScheduledFrom(schedule, k, a);
    j :| j >= k && Scheduled(schedule, j, a);
  }

  lemma {:induction false} FairRunFinishesFrom(p: Pass, blocks: nat, schedule: nat -> Action, k: nat)
      returns (end: nat)
    requires PassOk(p) && Fair(p, blocks, schedule)
    ensures AllDone(Run(p, blocks, schedule, end))
    decreases Measure(p, Run(p, blocks, schedule, k))
  {
    hide Run, Inv, PassOk, Fair, Measure, AllDone, Enabled;
    var s := Run(p, blocks, schedule, k);
    RunKeeps(p, blocks, schedule, k);
    if AllDone(s) {
      end := k;
    } else {
      var j := SomethingIsScheduled(p, blocks, schedule, k);
      SomethingHappens(p, blocks, schedule, k, j);
      RunKeeps(p, blocks, schedule, j + 1);
      MeasureNotNegative(p, s);
      MeasureNotNegative(p, Run(p, blocks, schedule, j + 1));
      end := FairRunFinishesFrom(p, blocks, schedule, j + 1);
    }
  }

  /** With any number of blocks from one up, every fair run ends with every block gone and every
      tile answered by the combination of the tiles before it. */
  lemma EveryFairRunFinishes(p: Pass, blocks: nat, schedule: nat -> Action) returns (end: nat)
    requires PassOk(p) && blocks > 0 && Fair(p, blocks, schedule)
    ensures AllDone(Run(p, blocks, schedule, end))
    ensures forall t :: 0 <= t < |p.totals| ==>
      && t in Run(p, blocks, schedule, end).returned
      && Run(p, blocks, schedule, end).returned[t] == Fold(p.m, p.totals[..t])
  {
    end := FairRunFinishesFrom(p, blocks, schedule, 0);
    RunKeeps(p, blocks, schedule, end);
    BlocksStay(p, blocks, schedule, end);
    forall t | 0 <= t < |p.totals|
      ensures t in Run(p, blocks, schedule, end).returned
      ensures Run(p, blocks, schedule, end).returned[t] == Fold(p.m, p.totals[..t])
    {
      DoneIsComplete(p, Run(p, blocks, schedule, end), t);
    }
  }

  lemma {:induction false} BlocksStay(p: Pass, blocks: nat, schedule: nat -> Action, k: nat)
    ensures |Run(p, blocks, schedule, k).blocks| == blocks
  {
    if k > 0 { BlocksStay(p, blocks, schedule, k - 1); }
  }
}
