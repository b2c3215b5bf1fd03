/** When the look-back keeps order (src/patos/cuda/primitives/offsets.py:26-28). */
module LookBackCommutes {
  // The documentation of `place` promises any monoid; a window holds its tiles nearest first, so the
  // look-back keeps that promise exactly for the operators that commute.

  import opened Monoids
  import opened Integers
  import opened LookBack
  import Warp
  import Words

  /** The promise, over every totals, grid and schedule. */
  ghost predicate KeepsOrder(m: Monoid<U32>, k: nat) {
    forall totals: seq<U32>, blocks: nat, schedule: nat -> Action, step: nat ::
      AnswersInOrder(Pass(m, totals, k), Run(Pass(m, totals, k), blocks, schedule, step))
  }

  ghost predicate AnswersInOrder(p: Pass, s: State) {
    forall t :: t in s.returned ==> t < |p.totals| && s.returned[t] == Before(p, t)
  }

  /** Three blocks publish the totals of three tiles, and the third looks back over both others
      before either has a prefix. */
  function Witness(step: nat): Action {
    if step < 3 then Claim(step)
    else if step < 6 then Publish(step - 3)
    else if step < 8 then Read(2, step - 6)
    else if step < 9 then Gather(2)
    else if step < 10 then Prefix(2)
    else Place(2)
  }

  function Fresh(pc: Pc, tile: nat): Block { Block(pc, tile, 0, 0, []) }

  function Seeker(p: Pass, tile: nat): Block {
    Block(Looking, tile, tile - 1, p.m.identity, Unread(p, tile - 1))
  }

  lemma AfterClaims(p: Pass)
    requires |p.totals| == 3
    ensures Run(p, 3, Witness, 3) ==
      State([0, 0, 0, 3], [Fresh(Publishing, 0), Fresh(Publishing, 1), Fresh(Publishing, 2)], [0, 1, 2], map[])
  {
    var blank := Fresh(Claiming, 0);
    assert Run(p, 3, Witness, 0) == State([0, 0, 0, 0], [blank, blank, blank], [], map[]);
    assert Run(p, 3, Witness, 1) == State([0, 0, 0, 1], [Fresh(Publishing, 0), blank, blank], [0], map[]);
    assert Run(p, 3, Witness, 2) ==
      State([0, 0, 0, 2], [Fresh(Publishing, 0), Fresh(Publishing, 1), blank], [0, 1], map[]);
  }

  function Published(p: Pass): State
    requires |p.totals| == 3
  {
    State([TotalStatus(p, 0), TotalStatus(p, 1), TotalStatus(p, 2), 3],
          [Seeker(p, 0), Seeker(p, 1), Seeker(p, 2)], [0, 1, 2], map[])
  }

  lemma AfterPublishing(p: Pass)
    requires |p.totals| == 3
    ensures Run(p, 3, Witness, 6) == Published(p)
  {
    AfterClaims(p);
    assert Run(p, 3, Witness, 4) ==
      State([TotalStatus(p, 0), 0, 0, 3], [Seeker(p, 0), Fresh(Publishing, 1), Fresh(Publishing, 2)],
            [0, 1, 2], map[]);
    assert Run(p, 3, Witness, 5) ==
      State([TotalStatus(p, 0), TotalStatus(p, 1), 0, 3], [Seeker(p, 0), Seeker(p, 1), Fresh(Publishing, 2)],
            [0, 1, 2], map[]);
  }

  /** What the third block's lanes have read: the nearer tile's total first. */
  function Read2(p: Pass): seq<int>
    requires |p.totals| == 3 && p.k >= 2
  {
    Unread(p, 1)[0 := TotalStatus(p, 1)][1 := TotalStatus(p, 0)]
  }

  lemma AfterReading(p: Pass)
    requires |p.totals| == 3 && p.k >= 2
    ensures Run(p, 3, Witness, 8) ==
      Published(p).(blocks := [Seeker(p, 0), Seeker(p, 1), Seeker(p, 2).(lanes := Read2(p))])
  {
    AfterPublishing(p);
    var s := Published(p);
    assert s.chain[1] != 0 && s.chain[0] != 0;
    assert Run(p, 3, Witness, 7) ==
      s.(blocks := [Seeker(p, 0), Seeker(p, 1), Seeker(p, 2).(lanes := Unread(p, 1)[0 := TotalStatus(p, 1)])]);
  }

  /** The window then reduces the nearer total before the farther one. */
  lemma WindowReverses(p: Pass)
    requires Lawful(p.m) && |p.totals| == 3 && p.k >= 2
    ensures |Read2(p)| == p.Width() > 2 && Nearest(Read2(p)) == 2
    ensures Windowed(p, Read2(p)) == p.m.combine(p.totals[1], p.totals[0])
  {
    var lanes := Read2(p);
    assert p.Width() == 2 * Words.Pow2(p.k - 1) == 4 * Words.Pow2(p.k - 2);
    StatusRoundTrip(p.totals[0]);
    StatusRoundTrip(p.totals[1]);
    StatusRoundTrip(p.m.identity);
    var mask := Ballot(lanes);
    assert !mask[0] && !mask[1] && mask[2];
    assert Warp.First(mask) == 2;
    forall i | 0 <= i < p.Width()
      ensures Held(p, lanes)[i] == Warp.PairLane(p.m, i % p.Width(), p.totals[1], p.totals[0])
    {
      Warp.Residue(p.Width(), i, 0, i);
    }
    Warp.PairReduces(p.m, Held(p, lanes), 1, p.k, p.totals[1], p.totals[0]);
  }

  lemma WitnessReturns(p: Pass)
    requires Lawful(p.m) && |p.totals| == 3 && p.k >= 2
    ensures var s := Run(p, 3, Witness, 11);
      2 in s.returned && s.returned[2] == p.m.combine(p.totals[1], p.totals[0])
  {
    AfterReading(p);
    WindowReverses(p);
    var b := Seeker(p, 2).(lanes := Read2(p));
    var s := Run(p, 3, Witness, 8);
    forall i | 0 <= i < |b.lanes| ensures b.lanes[i] != 0 {}
    assert Enabled(p, s, Gather(2));
    var s9, s10 := Run(p, 3, Witness, 9), Run(p, 3, Witness, 10);
    assert s9.blocks[2].pc == Prefixing && s9.blocks[2].tile == 2;
    assert s9.blocks[2].ahead == p.m.combine(p.totals[1], p.totals[0]);
    assert s10.blocks[2].pc == Placing && s10.blocks[2].ahead == s9.blocks[2].ahead;
  }

  lemma InvAnswers(p: Pass, blocks: nat, schedule: nat -> Action, step: nat)
    requires PassOk(p)
    ensures AnswersInOrder(p, Run(p, blocks, schedule, step))
  {
    var s := Run(p, blocks, schedule, step);
    RunKeeps(p, blocks, schedule, step);
    forall t | t in s.returned ensures t < |p.totals| && s.returned[t] == Before(p, t) {
      assert t < |p.totals|;
      assert TileOk(p, s, t);
    }
  }

  /** The look-back answers every tile in order, on every schedule, exactly when the operator
      commutes. */
  lemma KeepsOrderIffCommutes(m: Monoid<U32>, k: nat)
    requires Lawful(m) && k >= 2
    ensures KeepsOrder(m, k) <==> Commutative(m)
  {
    if Commutative(m) {
      forall totals: seq<U32>, blocks: nat, schedule: nat -> Action, step: nat
        ensures AnswersInOrder(Pass(m, totals, k), Run(Pass(m, totals, k), blocks, schedule, step))
      {
        var p := Pass(m, totals, k);
        InvAnswers(p, blocks, schedule, step);
      }
    }
    if KeepsOrder(m, k) {
      forall a, b ensures Commutes(m, a, b) {
        var p := Pass(m, [a, b, m.identity], k);
        WitnessReturns(p);
        assert AnswersInOrder(p, Run(p, 3, Witness, 11));
        assert p.totals[..2] == [a] + [b];
        FoldOne(m, a);
        FoldSnoc(m, [a], b);
      }
    }
  }

  /** The last count that is not zero: lawful, with zero for its identity, and not commuting. */
  function LastNonzero(a: U32, b: U32): U32 { if b == 0 then a else b }

  const lastNonzero := Monoid(LastNonzero, 0)

  /** The monoid the documentation's promise fails of: some schedule returns what it must not. */
  lemma OrderCanDiffer(k: nat)
    requires k >= 2
    ensures Lawful(lastNonzero) && !Commutes(lastNonzero, 1, 2) && !KeepsOrder(lastNonzero, k)
  {
    assert forall a: U32, b: U32, c: U32 :: Associates(lastNonzero, a, b, c);
    KeepsOrderIffCommutes(lastNonzero, k);
  }
}
