/** Why two barriers are enough (src/patos/cuda/primitives/block.py:107-117). */
module BlockBarriers {
  // Warps run a sequence of calls over one scratch, each at its own pace between barriers, every read of
  // a slot a step of its own.

  import opened Monoids

  datatype Pc = Staging | Staged | Reading | Read

  /** A warp in its `call`-th call: its program counter, its loop's index and what it has combined. */
  datatype Warp<T> = Warp(call: nat, pc: Pc, index: nat, before: T, total: T)

  datatype State<T> = State(scratch: seq<T>, warps: seq<Warp<T>>)

  /** How many barriers a warp has arrived at, and how many it has got past. */
  function Arrived<T>(w: Warp<T>): nat {
    2 * w.call + match w.pc { case Staging => 0 case Staged => 1 case Reading => 1 case Read => 2 }
  }

  function Past<T>(w: Warp<T>): nat {
    2 * w.call + match w.pc { case Staging => 0 case Staged => 0 case Reading => 1 case Read => 1 }
  }

  /** What each warp stages in each call: `values(call)[warp]`. */
  ghost predicate Stages<T>(values: nat -> seq<T>, n: nat) {
    forall call :: |values(call)| == n
  }

  /** Whether every warp has arrived at barrier `number`. */
  predicate Open<T>(s: State<T>, number: nat) {
    forall v :: 0 <= v < |s.warps| ==> Arrived(s.warps[v]) >= number
  }

  /** The next step of warp `w`: it stays where it is at a barrier that is not yet open. */
  function Do<T>(m: Monoid<T>, values: nat -> seq<T>, s: State<T>, w: nat): State<T> {
    if w >= |s.warps| || |s.scratch| != |s.warps| || |values(s.warps[w].call)| != |s.warps| then s else
    var me := s.warps[w];
    match me.pc
    case Staging =>
      State(s.scratch[w := values(me.call)[w]], s.warps[w := me.(pc := Staged)])
    case Staged =>
      if Open(s, Past(me) + 1)
      then s.(warps := s.warps[w := me.(pc := Reading, index := 0, before := m.identity, total := m.identity)])
      else s
    case Reading =>
      if me.index < |s.scratch| then
        var slot := s.scratch[me.index];
        s.(warps := s.warps[w := me.(index := me.index + 1,
             before := if me.index < w then m.combine(me.before, slot) else me.before,
             total := m.combine(me.total, slot))])
      else s.(warps := s.warps[w := me.(pc := Read)])
    case Read =>
      if Open(s, Past(me) + 1)
      then s.(warps := s.warps[w := me.(call := me.call + 1, pc := Staging)])
      else s
  }

  function Lower(i: nat, w: nat): nat { if i < w then i else w }

  ghost predicate WarpOk<T>(m: Monoid<T>, values: nat -> seq<T>, s: State<T>, w: nat)
    requires w < |s.warps| == |s.scratch| && Stages(values, |s.warps|)
  {
    var me := s.warps[w];
    && (me.pc == Staging && me.call > 0 ==> s.scratch[w] == values(me.call - 1)[w])
    && (me.pc != Staging ==> s.scratch[w] == values(me.call)[w])
    && (me.pc == Read ==> me.index == |s.warps|)
    && (me.pc == Reading || me.pc == Read ==>
        && me.index <= |s.warps|
        && me.before == Fold(m, values(me.call)[..Lower(me.index, w)])
        && me.total == Fold(m, values(me.call)[..me.index]))
  }

  /** No warp is past a barrier that another has not arrived at. */
  ghost predicate Inv<T>(m: Monoid<T>, values: nat -> seq<T>, s: State<T>) {
    && |s.warps| == |s.scratch| && Stages(values, |s.warps|)
    && (forall w, v :: 0 <= w < |s.warps| && 0 <= v < |s.warps| ==> Past(s.warps[w]) <= Arrived(s.warps[v]))
    && (forall w :: 0 <= w < |s.warps| ==> WarpOk(m, values, s, w))
  }

  /** A reader finds in every slot what its warp staged in this very call: neither a value of the
      call before, which the first barrier rules out, nor of the next, which the second does. */
  lemma ReadsThisCall<T>(m: Monoid<T>, values: nat -> seq<T>, s: State<T>, w: nat, v: nat)
    requires Inv(m, values, s) && w < |s.warps| && v < |s.warps| && s.warps[w].pc == Reading
    ensures s.scratch[v] == values(s.warps[w].call)[v]
  {
    assert Past(s.warps[w]) <= Arrived(s.warps[v]) && Past(s.warps[v]) <= Arrived(s.warps[w]);
    assert WarpOk(m, values, s, v);
  }

  lemma ReadingKeeps<T>(m: Monoid<T>, values: nat -> seq<T>, s: State<T>, w: nat)
    requires Inv(m, values, s) && w < |s.warps| && s.warps[w].pc == Reading && s.warps[w].index < |s.scratch|
    ensures WarpOk(m, values, Do(m, values, s, w), w)
  {
    var me := s.warps[w];
    assert WarpOk(m, values, s, w);
    ReadsThisCall(m, values, s, w, me.index);
    var staged := values(me.call);
    FoldSnoc(m, staged[..me.index], staged[me.index]);
    assert staged[..me.index + 1] == staged[..me.index] + [staged[me.index]];
  }

  lemma OrderKeeps<T>(m: Monoid<T>, values: nat -> seq<T>, s: State<T>, w: nat)
    requires Inv(m, values, s) && w < |s.warps|
    ensures var s' := Do(m, values, s, w);
      && |s'.warps| == |s.warps|
      && forall u, v :: 0 <= u < |s.warps| && 0 <= v < |s.warps| ==> Past(s'.warps[u]) <= Arrived(s'.warps[v])
  {
    var s' := Do(m, values, s, w);
    forall u, v | 0 <= u < |s.warps| && 0 <= v < |s.warps|
      ensures Past(s'.warps[u]) <= Arrived(s'.warps[v])
    {
      assert Past(s.warps[u]) <= Arrived(s.warps[v]);
    }
  }

  lemma StepKeeps<T>(m: Monoid<T>, values: nat -> seq<T>, s: State<T>, w: nat)
    requires Inv(m, values, s) && w < |s.warps|
    ensures Inv(m, values, Do(m, values, s, w))
  {
    var s' := Do(m, values, s, w);
    OrderKeeps(m, values, s, w);
    OwnKeeps(m, values, s, w);
    forall v | 0 <= v < |s'.warps| ensures WarpOk(m, values, s', v) {
      if v != w { SparesOther(m, values, s, w, v); }
    }
    hide Do, WarpOk;
  }

  lemma OwnKeeps<T>(m: Monoid<T>, values: nat -> seq<T>, s: State<T>, w: nat)
    requires Inv(m, values, s) && w < |s.warps|
    ensures var s' := Do(m, values, s, w); |s'.warps| == |s'.scratch| == |s.warps| && WarpOk(m, values, s', w)
  {
    assert WarpOk(m, values, s, w);
    if s.warps[w].pc == Reading && s.warps[w].index < |s.scratch| { ReadingKeeps(m, values, s, w); }
    hide Inv, Open, Fold;
  }

  lemma SparesOther<T>(m: Monoid<T>, values: nat -> seq<T>, s: State<T>, w: nat, v: nat)
    requires Inv(m, values, s) && w < |s.warps| && v < |s.warps| && v != w
    ensures var s' := Do(m, values, s, w); |s'.warps| == |s'.scratch| == |s.warps| && WarpOk(m, values, s', v)
  {
    assert WarpOk(m, values, s, v);
    hide Inv, Open, Fold;
  }

  /** The warps as a kernel starts, over scratch that holds anything. */
  function Initial<T>(scratch: seq<T>, zero: T): State<T> {
    State(scratch, seq(|scratch|, _ => Warp(0, Staging, 0, zero, zero)))
  }

  function Run<T>(m: Monoid<T>, values: nat -> seq<T>, scratch: seq<T>, schedule: nat -> nat, k: nat): State<T> {
    if k == 0 then Initial(scratch, m.identity)
    else Do(m, values, Run(m, values, scratch, schedule, k - 1), schedule(k - 1))
  }

  lemma {:induction false} RunKeeps<T>(m: Monoid<T>, values: nat -> seq<T>, scratch: seq<T>,
      schedule: nat -> nat, k: nat)
    requires Stages(values, |scratch|)
    ensures Inv(m, values, Run(m, values, scratch, schedule, k))
    ensures |Run(m, values, scratch, schedule, k).warps| == |scratch|
  {
    if k > 0 {
      RunKeeps(m, values, scratch, schedule, k - 1);
      var s := Run(m, values, scratch, schedule, k - 1);
      if schedule(k - 1) < |s.warps| { StepKeeps(m, values, s, schedule(k - 1)); }
    }
  }

  /** On every schedule and in every call, a warp that has read the scratch holds the fold of what
      the warps below it staged in that call, and of what they all did. */
  lemma EveryCallReadsItsOwn<T>(m: Monoid<T>, values: nat -> seq<T>, scratch: seq<T>,
      schedule: nat -> nat, k: nat, w: nat)
    requires Stages(values, |scratch|) && w < |scratch|
    ensures |Run(m, values, scratch, schedule, k).warps| == |scratch|
    ensures var me := Run(m, values, scratch, schedule, k).warps[w];
      me.pc == Read ==>
        && me.before == Fold(m, values(me.call)[..w])
        && me.total == Fold(m, values(me.call))
  {
    RunKeeps(m, values, scratch, schedule, k);
    var s := Run(m, values, scratch, schedule, k);
    assert WarpOk(m, values, s, w);
    assert values(s.warps[w].call)[..|scratch|] == values(s.warps[w].call);
  }

  // ---------------------------------------------------------------- every fair run completes every call

  /** How far a warp is in its call, of `n` slots, and the steps it has taken in all its calls. */
  function Stage<T>(w: Warp<T>, n: nat): nat {
    match w.pc
    case Staging => 0
    case Staged => 1
    case Reading => 2 + w.index
    case Read => n + 3
  }

  function Steps<T>(w: Warp<T>, n: nat): nat { w.call * (n + 4) + Stage(w, n) }

  /** Whether a warp is at no barrier, or at an open one. */
  predicate CanGo<T>(s: State<T>, w: nat)
    requires w < |s.warps|
  {
    s.warps[w].pc == Staged || s.warps[w].pc == Read ==> Open(s, Past(s.warps[w]) + 1)
  }

  lemma MoreCalls(few: nat, many: nat, each: nat)
    requires few <= many
    ensures few * each <= many * each
  {}

  lemma OneMoreCall(calls: nat, each: nat)
    ensures (calls + 1) * each == calls * each + each
  {}

  /** Whoever has taken no more steps is in no later call, and has arrived at no more barriers. */
  lemma StepsOrder<T>(a: Warp<T>, b: Warp<T>, n: nat)
    requires Steps(a, n) <= Steps(b, n) && (a.pc == Reading ==> a.index <= n) && (b.pc == Reading ==> b.index <= n)
    ensures a.call <= b.call && Arrived(a) <= Arrived(b)
  {
    if a.call == b.call {
      assert Stage(a, n) <= Stage(b, n);
    } else if a.call > b.call {
      MoreCalls(b.call + 1, a.call, n + 4);
      OneMoreCall(b.call, n + 4);
    }
  }

  /** The warps never all wait: the one that has taken the fewest steps can go on. */
  lemma {:induction false} SomeWarpGoesOn<T>(m: Monoid<T>, values: nat -> seq<T>, s: State<T>, n: nat)
      returns (w: nat)
    requires Inv(m, values, s) && 0 < n <= |s.warps|
    ensures w < n && forall v :: 0 <= v < n ==> Steps(s.warps[w], |s.warps|) <= Steps(s.warps[v], |s.warps|)
    ensures n == |s.warps| ==> CanGo(s, w)
  {
    hide Steps, CanGo, Inv;
    if n == 1 {
      w := 0;
    } else {
      w := SomeWarpGoesOn(m, values, s, n - 1);
      if Steps(s.warps[n - 1], |s.warps|) < Steps(s.warps[w], |s.warps|) { w := n - 1; }
    }
    if n == |s.warps| { SlowestGoesOn(m, values, s, w); }
  }

  lemma SlowestGoesOn<T>(m: Monoid<T>, values: nat -> seq<T>, s: State<T>, w: nat)
    requires Inv(m, values, s) && w < |s.warps|
    requires forall v :: 0 <= v < |s.warps| ==> Steps(s.warps[w], |s.warps|) <= Steps(s.warps[v], |s.warps|)
    ensures CanGo(s, w) && forall v :: 0 <= v < |s.warps| ==> s.warps[w].call <= s.warps[v].call
  {
    forall v | 0 <= v < |s.warps|
      ensures Arrived(s.warps[w]) <= Arrived(s.warps[v]) && s.warps[w].call <= s.warps[v].call
    {
      assert WarpOk(m, values, s, w) && WarpOk(m, values, s, v);
      hide Steps;
      StepsOrder(s.warps[w], s.warps[v], |s.warps|);
    }
  }

  /** A warp that can go on takes one step and no other any; one that cannot changes nothing. */
  lemma Moves<T>(m: Monoid<T>, values: nat -> seq<T>, s: State<T>, w: nat)
    requires Inv(m, values, s) && w < |s.warps|
    ensures var s', n := Do(m, values, s, w), |s.warps|;
      && |s'.warps| == n
      && Steps(s'.warps[w], n) == Steps(s.warps[w], n) + (if CanGo(s, w) then 1 else 0)
      && (!CanGo(s, w) ==> s' == s)
      && forall v :: 0 <= v < n && v != w ==> s'.warps[v] == s.warps[v]
  {
    assert WarpOk(m, values, s, w);
    OneMoreCall(s.warps[w].call, |s.warps| + 4);
    hide Open;
  }

  /** A barrier that is open stays so, since nobody goes back. */
  lemma StillCanGo<T>(m: Monoid<T>, values: nat -> seq<T>, s: State<T>, w: nat, v: nat)
    requires Inv(m, values, s) && w < |s.warps| && v < |s.warps| && v != w && CanGo(s, v)
    ensures |Do(m, values, s, w).warps| == |s.warps| && CanGo(Do(m, values, s, w), v)
  {
    var s' := Do(m, values, s, w);
    forall u | 0 <= u < |s.warps| ensures Arrived(s.warps[u]) <= Arrived(s'.warps[u]) {}
  }

  /** The steps that warps lack until all have completed `calls` calls. */
  function Short<T>(w: Warp<T>, n: nat, calls: nat): nat {
    if Steps(w, n) < calls * (n + 4) then calls * (n + 4) - Steps(w, n) else 0
  }

  lemma LacksLess<T>(a: Warp<T>, b: Warp<T>, n: nat, calls: nat)
    requires Steps(a, n) <= Steps(b, n) && (a.pc == Reading ==> a.index <= n)
    ensures Short(b, n, calls) <= Short(a, n, calls)
    ensures Steps(a, n) < Steps(b, n) && a.call < calls ==> Short(b, n, calls) < Short(a, n, calls)
  {
    if a.call < calls {
      MoreCalls(a.call + 1, calls, n + 4);
      OneMoreCall(a.call, n + 4);
    }
  }

  function Shorts<T>(warps: seq<Warp<T>>, n: nat, calls: nat): nat {
    if |warps| == 0 then 0 else Shorts(warps[..|warps| - 1], n, calls) + Short(warps[|warps| - 1], n, calls)
  }

  lemma {:induction false} ShortsUpdate<T>(warps: seq<Warp<T>>, n: nat, calls: nat, w: nat, to: Warp<T>)
    requires w < |warps|
    ensures Shorts(warps[w := to], n, calls) == Shorts(warps, n, calls) - Short(warps[w], n, calls) + Short(to, n, calls)
  {
    hide Short;
    var last := |warps| - 1;
    if w < last {
      ShortsUpdate(warps[..last], n, calls, w, to);
      assert warps[w := to][..last] == warps[..last][w := to];
    } else {
      assert warps[w := to][..last] == warps[..last];
    }
  }

  lemma StepShortens<T>(m: Monoid<T>, values: nat -> seq<T>, s: State<T>, w: nat, calls: nat)
    requires Inv(m, values, s)
    ensures var s', n := Do(m, values, s, w), |s.warps|;
      && Shorts(s'.warps, n, calls) <= Shorts(s.warps, n, calls)
      && (w < n && CanGo(s, w) && s.warps[w].call < calls ==> Shorts(s'.warps, n, calls) < Shorts(s.warps, n, calls))
  {
    if w < |s.warps| {
      var s', n := Do(m, values, s, w), |s.warps|;
      Moves(m, values, s, w);
      ShortsUpdate(s.warps, n, calls, w, s'.warps[w]);
      assert s'.warps == s.warps[w := s'.warps[w]];
      assert WarpOk(m, values, s, w);
      hide Do, CanGo, Shorts, WarpOk, Short, Steps;
      LacksLess(s.warps[w], s'.warps[w], n, calls);
    }
  }

  /** What a schedule leaves short after `k` steps. */
  function ShortsAt<T>(m: Monoid<T>, values: nat -> seq<T>, scratch: seq<T>, schedule: nat -> nat, calls: nat, k: nat): nat {
    Shorts(Run(m, values, scratch, schedule, k).warps, |scratch|, calls)
  }

  lemma RunNext<T>(m: Monoid<T>, values: nat -> seq<T>, scratch: seq<T>, schedule: nat -> nat, k: nat)
    ensures Run(m, values, scratch, schedule, k + 1) == Do(m, values, Run(m, values, scratch, schedule, k), schedule(k))
  {}

  lemma {:induction false} NeverLonger<T>(m: Monoid<T>, values: nat -> seq<T>, scratch: seq<T>, schedule: nat -> nat,
      calls: nat, k: nat, j: nat)
    requires Stages(values, |scratch|) && k <= j
    ensures ShortsAt(m, values, scratch, schedule, calls, j) <= ShortsAt(m, values, scratch, schedule, calls, k)
    decreases j
  {
    hide Run, Do, Shorts, Inv, Stages;
    if k < j {
      NeverLonger(m, values, scratch, schedule, calls, k, j - 1);
      RunKeeps(m, values, scratch, schedule, j - 1);
      RunNext(m, values, scratch, schedule, j - 1);
      StepShortens(m, values, Run(m, values, scratch, schedule, j - 1), schedule(j - 1), calls);
    }
  }

  /** Between the moment a warp can go on and its next turn, something is done. */
  lemma {:induction false} TurnShortens<T>(m: Monoid<T>, values: nat -> seq<T>, scratch: seq<T>, schedule: nat -> nat,
      calls: nat, k: nat, j: nat)
    requires Stages(values, |scratch|) && k <= j && schedule(j) < |scratch|
    requires |Run(m, values, scratch, schedule, k).warps| == |scratch|
    requires CanGo(Run(m, values, scratch, schedule, k), schedule(j))
    requires Run(m, values, scratch, schedule, k).warps[schedule(j)].call < calls
    ensures ShortsAt(m, values, scratch, schedule, calls, j + 1) < ShortsAt(m, values, scratch, schedule, calls, k)
    decreases j - k
  {
    hide Run, Do, Shorts, Inv, CanGo, Stages;
    var s, w := Run(m, values, scratch, schedule, k), schedule(j);
    RunKeeps(m, values, scratch, schedule, k);
    RunNext(m, values, scratch, schedule, k);
    StepShortens(m, values, s, schedule(k), calls);
    if schedule(k) == w {
      NeverLonger(m, values, scratch, schedule, calls, k + 1, j + 1);
    } else {
      OthersTurn(m, values, s, schedule(k), w);
      TurnShortens(m, values, scratch, schedule, calls, k + 1, j);
    }
  }

  /** Another's turn leaves a warp as it is, and able to go on. */
  lemma OthersTurn<T>(m: Monoid<T>, values: nat -> seq<T>, s: State<T>, w: nat, v: nat)
    requires Inv(m, values, s) && v < |s.warps| && v != w && CanGo(s, v)
    ensures var s' := Do(m, values, s, w); |s'.warps| == |s.warps| && s'.warps[v] == s.warps[v] && CanGo(s', v)
  {
    if w < |s.warps| {
      Moves(m, values, s, w);
      StillCanGo(m, values, s, w, v);
      hide Do, CanGo;
    }
  }

  ghost predicate Scheduled(schedule: nat -> nat, j: nat, w: nat) { schedule(j) == w }

  /** Every warp gets its turn again and again. */
  ghost predicate Fair(schedule: nat -> nat, n: nat) {
    forall w: nat, k: nat :: w < n ==> HasTurn(schedule, k, w)
  }

  ghost predicate HasTurn(schedule: nat -> nat, k: nat, w: nat) { exists j :: j >= k && Scheduled(schedule, j, w) }

  ghost predicate Completed<T>(s: State<T>, calls: nat) {
    forall w :: 0 <= w < |s.warps| ==> s.warps[w].call >= calls
  }

  lemma {:induction false} CompletesFrom<T>(m: Monoid<T>, values: nat -> seq<T>, scratch: seq<T>, schedule: nat -> nat,
      calls: nat, k: nat) returns (end: nat)
    requires Stages(values, |scratch|) && Fair(schedule, |scratch|)
    ensures Completed(Run(m, values, scratch, schedule, end), calls)
    decreases ShortsAt(m, values, scratch, schedule, calls, k)
  {
    var s := Run(m, values, scratch, schedule, k);
    RunKeeps(m, values, scratch, schedule, k);
    hide Run, ShortsAt, Inv;
    if Completed(s, calls) {
      end := k;
    } else {
      var w := SomeWarpGoesOn(m, values, s, |s.warps|);
      SlowestGoesOn(m, values, s, w);
      assert HasTurn(schedule, k, w);
      var j :| j >= k && Scheduled(schedule, j, w);
      TurnShortens(m, values, scratch, schedule, calls, k, j);
      end := CompletesFrom(m, values, scratch, schedule, calls, j + 1);
    }
  }

  /** On every fair schedule every warp completes any number of calls over the scratch. */
  lemma EveryFairRunCompletes<T>(m: Monoid<T>, values: nat -> seq<T>, scratch: seq<T>, schedule: nat -> nat, calls: nat)
      returns (end: nat)
    requires Stages(values, |scratch|) && Fair(schedule, |scratch|)
    ensures |Run(m, values, scratch, schedule, end).warps| == |scratch|
    ensures Completed(Run(m, values, scratch, schedule, end), calls)
  {
    end := CompletesFrom(m, values, scratch, schedule, calls, 0);
    RunKeeps(m, values, scratch, schedule, end);
  }
}
