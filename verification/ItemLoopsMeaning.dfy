/** What the rewriting preserves (src/patos/cuda/front/rewrite.py:193-278). */
module ItemLoopsMeaning {
  import opened KernelLanguage
  import opened ItemLoops

  // ---------------------------------------------------------------- states alike

  /** Two states the author's names cannot tell apart. */
  ghost predicate Alike(s: State, t: State) {
    && s.memory == t.memory
    && forall id: string :: s.Get(User(id)) == t.Get(User(id))
  }

  /** The hidden names of the loops below `low` and from `high` on hold what they did. */
  ghost predicate Untouched(s: State, t: State, low: nat, high: nat) {
    forall n: nat :: !(low <= n < high) ==>
      s.Get(Cursor(n)) == t.Get(Cursor(n)) && s.Get(Stride(n)) == t.Get(Stride(n))
  }

  ghost predicate AlikeResults(r: Result, q: Result) {
    match r
    case OutOfFuel => q.OutOfFuel?
    case Ended(exit, s) => q.Ended? && q.exit == exit && Alike(s, q.state)
  }

  /** `q` ran from `t` and is what `r` is to the author, and the loops numbered outside `low..high`
      kept their cursors. */
  ghost predicate Simulates(r: Result, q: Result, t: State, low: nat, high: nat) {
    AlikeResults(r, q) && (q.Ended? ==> Untouched(t, q.state, low, high))
  }

  lemma {:induction false} EvalAlike(launch: Launch, e: Expr, s: State, t: State)
    requires SourceExpr(e) && Alike(s, t)
    ensures Eval(launch, e, s) == Eval(launch, e, t)
  {
    match e
    case Element(index) => EvalAlike(launch, index, s, t);
    case Binary(_, l, r) => EvalAlike(launch, l, s, t); EvalAlike(launch, r, s, t);
    case Load(name) => assert s.Get(User(name.id)) == t.Get(User(name.id));
    case _ =>
  }

  lemma SetAlike(s: State, t: State, name: Name, value: int)
    requires Alike(s, t) && name.User?
    ensures Alike(s.Set(name, value), t.Set(name, value)) && Untouched(t, t.Set(name, value), 0, 0)
  {}

  lemma UntouchedJoins(s: State, t: State, u: State, low: nat, mid: nat, high: nat)
    requires low <= mid <= high
    requires Untouched(s, t, low, mid) && Untouched(t, u, mid, high)
    ensures Untouched(s, u, low, high)
  {}

  lemma UntouchedWidens(s: State, t: State, low: nat, mid: nat, mid': nat, high: nat)
    requires low <= mid && mid' <= high && Untouched(s, t, mid, mid')
    ensures Untouched(s, t, low, high)
  {}

  lemma {:induction false} NumbersGrow(strided: bool, b: Block, loops: nat)
    ensures Visited(strided, b, loops).next >= loops
    decreases b, 1
  {
    match b
    case Nil =>
    case Cons(head, tail) =>
      NumbersGrowIn(strided, head, loops);
      NumbersGrow(strided, tail, VisitedStmt(strided, head, loops).next);
  }

  lemma {:induction false} NumbersGrowIn(strided: bool, stmt: Stmt, loops: nat)
    ensures VisitedStmt(strided, stmt, loops).next >= loops
    decreases stmt, 0
  {
    match stmt
    case If(_, body, orelse) =>
      NumbersGrow(strided, body, loops); NumbersGrow(strided, orelse, Visited(strided, body, loops).next);
    case While(_, body, orelse) =>
      NumbersGrow(strided, body, loops); NumbersGrow(strided, orelse, Visited(strided, body, loops).next);
    case ForRange(_, _, body, orelse) =>
      NumbersGrow(strided, body, loops); NumbersGrow(strided, orelse, Visited(strided, body, loops).next);
    case ForItems(_, _, _, body) => NumbersGrow(strided, body, loops);
    case _ =>
  }

  /** What follows a pass, and a pass that leaves its loop. */
  lemma MoreSimulates(r: Result, q: Result, t: State, u: State, low: nat, high: nat)
    requires Untouched(t, u, low, high) && Simulates(r, q, u, low, high)
    ensures Simulates(r, q, t, low, high)
  {}

  lemma Widens(r: Result, q: Result, t: State, low: nat, high: nat, low': nat, high': nat)
    requires low' <= low && high <= high' && Simulates(r, q, t, low, high)
    ensures Simulates(r, q, t, low', high')
  {}

  lemma LeftSimulates(r: Result, q: Result, t: State, target: Name, value: int, low: nat, mid: nat, high: nat)
    requires low <= mid <= high && target.User? && Simulates(r, q, t.Set(target, value), low, mid) && !Goes(r)
    ensures Simulates(Left(r), Left(q), t, low, high) && !Goes(q)
  {}

  lemma GoesAlike(r: Result, q: Result, t: State, low: nat, high: nat)
    requires Simulates(r, q, t, low, high)
    ensures Goes(r) == Goes(q)
    ensures Goes(r) ==> Alike(r.state, q.state) && Untouched(t, q.state, low, high)
  {}

  lemma EndsAlike(s: State, t: State, low: nat, high: nat)
    requires Alike(s, t)
    ensures Simulates(OutOfFuel, OutOfFuel, t, low, high) && Simulates(Ended(Normal, s), Ended(Normal, t), t, low, high)
  {}

  // ---------------------------------------------------------------- a kernel that strides

  /** The rewritten block runs as the block does: the same exit, the same memory, the same values of
      the author's names, out of fuel exactly when the block is, and no other loop's cursor touched. */
  lemma {:induction false} BlockKeepsMeaning(launch: Launch, fuel: nat, b: Block, loops: nat, s: State, t: State)
    requires launch.strided && SourceBlock(b) && Alike(s, t)
    ensures var v := Visited(true, b, loops);
      Simulates(RunBlock(launch, fuel, b, s), RunBlock(launch, fuel, v.block, t), t, loops, v.next)
    decreases fuel, b, 3
  {
    match b
    case Nil =>
    case Cons(head, tail) =>
      var one := VisitedStmt(true, head, loops);
      var rest := Visited(true, tail, one.next);
      RunAppend(launch, fuel, one.block, rest.block, t);
      StmtKeepsMeaning(launch, fuel, head, loops, s, t);
      NumbersGrowIn(true, head, loops);
      NumbersGrow(true, tail, one.next);
      var r, q := Run(launch, fuel, head, s), RunBlock(launch, fuel, one.block, t);
      if r.Ended? {
        if r.exit == Normal {
          BlockKeepsMeaning(launch, fuel, tail, one.next, r.state, q.state);
          var end := RunBlock(launch, fuel, rest.block, q.state);
          if end.Ended? { UntouchedJoins(t, q.state, end.state, loops, one.next, rest.next); }
        } else {
          UntouchedWidens(t, q.state, loops, loops, one.next, rest.next);
        }
      }
  }

  lemma {:induction false} StmtKeepsMeaning(launch: Launch, fuel: nat, stmt: Stmt, loops: nat, s: State, t: State)
    requires launch.strided && Source(stmt) && Alike(s, t)
    ensures var v := VisitedStmt(true, stmt, loops);
      Simulates(Run(launch, fuel, stmt, s), RunBlock(launch, fuel, v.block, t), t, loops, v.next)
    decreases fuel, stmt, 2
  {
    var v := VisitedStmt(true, stmt, loops);
    match stmt
    case Assign(_, _) => StoresKeepMeaning(launch, fuel, stmt, loops, s, t);
    case Augment(_, _) => StoresKeepMeaning(launch, fuel, stmt, loops, s, t);
    case Store(_, _) => StoresKeepMeaning(launch, fuel, stmt, loops, s, t);
    case If(test, body, orelse) =>
      var one := Visited(true, body, loops);
      hide Untouched, Eval;
      EvalAlike(launch, test, s, t);
      NumbersGrow(true, body, loops);
      NumbersGrow(true, orelse, one.next);
      RunSingle(launch, fuel, v.block.head, t);
      if Eval(launch, test, s) != 0 {
        BlockKeepsMeaning(launch, fuel, body, loops, s, t);
        Widens(Run(launch, fuel, stmt, s), RunBlock(launch, fuel, one.block, t), t, loops, one.next, loops, v.next);
      } else {
        BlockKeepsMeaning(launch, fuel, orelse, one.next, s, t);
        Widens(Run(launch, fuel, stmt, s), RunBlock(launch, fuel, Visited(true, orelse, one.next).block, t), t,
               one.next, v.next, loops, v.next);
      }
    case While(_, _, _) =>
      RunSingle(launch, fuel, v.block.head, t);
      WhileKeepsMeaning(launch, fuel, stmt, loops, s, t);
    case ForRange(_, count, _, _) =>
      RunSingle(launch, fuel, v.block.head, t);
      EvalAlike(launch, count, s, t);
      RangeKeepsMeaning(launch, fuel, stmt, loops, 0, Eval(launch, count, s), s, t);
    case ForItems(_, _, _, body) =>
      var n := Visited(true, body, loops).next;
      NumbersGrow(true, body, loops);
      var t2 := t.Set(Cursor(n), launch.first).Set(Stride(n), launch.stride);
      HiddenStarts(launch, fuel, stmt, loops, t);
      assert Alike(s, t2) && Untouched(t, t2, loops, n + 1);
      ItemsKeepMeaning(launch, fuel, stmt, loops, launch.first, s, t2);
    case _ =>
  }

  /** Statements that store, which the pass leaves as they are. */
  lemma StoresKeepMeaning(launch: Launch, fuel: nat, stmt: Stmt, loops: nat, s: State, t: State)
    requires (stmt.Assign? || stmt.Augment? || stmt.Store?) && Source(stmt) && Alike(s, t)
    ensures var v := VisitedStmt(true, stmt, loops);
      Simulates(Run(launch, fuel, stmt, s), RunBlock(launch, fuel, v.block, t), t, loops, v.next)
  {
    RunSingle(launch, fuel, stmt, t);
    EvalAlike(launch, stmt.value, s, t);
    if stmt.Store? {
      EvalAlike(launch, stmt.index, s, t);
    } else {
      EvalAlike(launch, Load(stmt.target), s, t);
    }
    hide Eval;
  }

  /** What a rewritten items loop does first. */
  lemma HiddenStarts(launch: Launch, fuel: nat, stmt: Stmt, loops: nat, t: State)
    requires stmt.ForItems? && launch.strided
    ensures var inner := Visited(true, stmt.body, loops);
      RunBlock(launch, fuel, VisitedStmt(true, stmt, loops).block, t) ==
        Run(launch, fuel, Hidden(stmt.target, stmt.bound, stmt.through, inner.block, inner.next),
            t.Set(Cursor(inner.next), launch.first).Set(Stride(inner.next), launch.stride))
  {
    var inner := Visited(true, stmt.body, loops);
    var n := inner.next;
    hide Visited, Pass;
    var t1 := t.Set(Cursor(n), launch.first);
    var t2 := t1.Set(Stride(n), launch.stride);
    assert Run(launch, fuel, Assign(Cursor(n), First), t) == Ended(Normal, t1);
    assert Run(launch, fuel, Assign(Stride(n), Step), t1) == Ended(Normal, t2);
    RunSingle(launch, fuel, Hidden(stmt.target, stmt.bound, stmt.through, inner.block, n), t2);
  }

  lemma {:induction false} WhileKeepsMeaning(launch: Launch, fuel: nat, stmt: Stmt, loops: nat, s: State, t: State)
    requires stmt.While? && launch.strided && Source(stmt) && Alike(s, t)
    ensures var v := VisitedStmt(true, stmt, loops);
      Simulates(Run(launch, fuel, stmt, s), Run(launch, fuel, v.block.head, t), t, loops, v.next)
    decreases fuel, stmt, 1
  {
    var one := Visited(true, stmt.body, loops);
    var two := Visited(true, stmt.orelse, one.next);
    NumbersGrow(true, stmt.body, loops);
    NumbersGrow(true, stmt.orelse, one.next);
    EvalAlike(launch, stmt.test, s, t);
    if fuel > 0 {
      if Eval(launch, stmt.test, s) == 0 {
        BlockKeepsMeaning(launch, fuel, stmt.orelse, one.next, s, t);
      } else {
        BlockKeepsMeaning(launch, fuel - 1, stmt.body, loops, s, t);
        var r, q := RunBlock(launch, fuel - 1, stmt.body, s), RunBlock(launch, fuel - 1, one.block, t);
        if Goes(r) { WhileKeepsMeaning(launch, fuel - 1, stmt, loops, r.state, q.state); }
      }
    }
  }

  lemma {:induction false} RangeKeepsMeaning(launch: Launch, fuel: nat, stmt: Stmt, loops: nat, i: int, count: int,
      s: State, t: State)
    requires stmt.ForRange? && launch.strided && Source(stmt) && Alike(s, t)
    ensures var v := VisitedStmt(true, stmt, loops);
      Simulates(RunRange(launch, fuel, stmt, i, count, s), RunRange(launch, fuel, v.block.head, i, count, t), t, loops, v.next)
    decreases fuel, stmt, 1
  {
    var one := Visited(true, stmt.body, loops);
    NumbersGrow(true, stmt.body, loops);
    NumbersGrow(true, stmt.orelse, one.next);
    if fuel > 0 {
      if i >= count {
        BlockKeepsMeaning(launch, fuel, stmt.orelse, one.next, s, t);
      } else {
        var s1, t1 := s.Set(stmt.target, i), t.Set(stmt.target, i);
        SetAlike(s, t, stmt.target, i);
        BlockKeepsMeaning(launch, fuel - 1, stmt.body, loops, s1, t1);
        var r, q := RunBlock(launch, fuel - 1, stmt.body, s1), RunBlock(launch, fuel - 1, one.block, t1);
        if Goes(r) { RangeKeepsMeaning(launch, fuel - 1, stmt, loops, i + 1, count, r.state, q.state); }
      }
    }
  }

  /** One pass over the hidden cursor: what the body does, then exactly one advance if it goes on. */
  lemma PassRuns(launch: Launch, fuel: nat, target: Name, body: Block, number: nat, t: State)
    ensures var q := RunBlock(launch, fuel, body, t.Set(target, t.Get(Cursor(number))));
      RunBlock(launch, fuel, Pass(target, body, number), t) ==
        if Goes(q) then Ended(q.exit, Advanced(number, q.state)) else q
  {
    var t1 := t.Set(target, t.Get(Cursor(number)));
    var adv := Advance(number);
    assert Run(launch, fuel, Assign(target, Load(Cursor(number))), t) == Ended(Normal, t1);
    RunAppend(launch, fuel, Exits(adv, body), Cons(adv, Nil), t1);
    ExitsAdvance(launch, fuel, number, body, t1);
    var q := RunBlock(launch, fuel, body, t1);
    if q.Ended? && q.exit == Normal {
      RunSingle(launch, fuel, adv, q.state);
    }
  }

  /** The `while` over the hidden cursor, pass by pass. */
  lemma HiddenRuns(launch: Launch, fuel: nat, hidden: Stmt, target: Name, bound: Expr, through: bool, body: Block,
      n: nat, t: State)
    requires fuel > 0 && hidden == Hidden(target, bound, through, body, n)
    ensures Run(launch, fuel, hidden, t) ==
      if !Within(t.Get(Cursor(n)), Eval(launch, bound, t), through) then Ended(Normal, t)
      else
        var q := RunBlock(launch, fuel - 1, body, t.Set(target, t.Get(Cursor(n))));
        if Goes(q) then Run(launch, fuel - 1, hidden, Advanced(n, q.state)) else Left(q)
  {
    TestDecides(launch, Cursor(n), bound, through, t);
    PassRuns(launch, fuel - 1, target, body, n, t);
    if !Within(t.Get(Cursor(n)), Eval(launch, bound, t), through) {
      assert Run(launch, fuel, hidden, t) == RunBlock(launch, fuel, Nil, t);
    }
  }

  lemma AdvancedStays(s: State, t: State, target: Name, item: int, u: State, low: nat, n: nat)
    requires low <= n && target.User? && Alike(s, u) && Untouched(t.Set(target, item), u, low, n)
    ensures Alike(s, Advanced(n, u)) && Untouched(t, Advanced(n, u), low, n + 1)
    ensures Advanced(n, u).Get(Cursor(n)) == Sum(t.Get(Cursor(n)), t.Get(Stride(n)))
    ensures Advanced(n, u).Get(Stride(n)) == t.Get(Stride(n))
  {
    assert u.Get(Cursor(n)) == t.Get(Cursor(n)) && u.Get(Stride(n)) == t.Get(Stride(n));
  }

  /** The `while` over the hidden cursor runs as the loop over the items from the cursor's on. */
  lemma {:induction false} ItemsKeepMeaning(launch: Launch, fuel: nat, stmt: Stmt, loops: nat, item: int,
      s: State, t: State)
    requires stmt.ForItems? && launch.strided && Source(stmt) && Alike(s, t)
    requires var n := Visited(true, stmt.body, loops).next;
      t.Get(Cursor(n)) == item && t.Get(Stride(n)) == launch.stride
    ensures var inner := Visited(true, stmt.body, loops);
      Simulates(RunItems(launch, fuel, stmt, item, s),
                Run(launch, fuel, Hidden(stmt.target, stmt.bound, stmt.through, inner.block, inner.next), t),
                t, loops, inner.next + 1)
    decreases fuel, stmt, 1
  {
    var inner := Visited(true, stmt.body, loops);
    var n := inner.next;
    var hidden := Hidden(stmt.target, stmt.bound, stmt.through, inner.block, n);
    hide Alike, Untouched, Simulates, Visited;
    NumbersGrow(true, stmt.body, loops);
    EvalAlike(launch, stmt.bound, s, t);
    EndsAlike(s, t, loops, n + 1);
    if fuel > 0 {
      HiddenRuns(launch, fuel, hidden, stmt.target, stmt.bound, stmt.through, inner.block, n, t);
      if Within(item, Eval(launch, stmt.bound, s), stmt.through) {
        var s1, t1 := s.Set(stmt.target, item), t.Set(stmt.target, item);
        SetAlike(s, t, stmt.target, item);
        BlockKeepsMeaning(launch, fuel - 1, stmt.body, loops, s1, t1);
        var r, q := RunBlock(launch, fuel - 1, stmt.body, s1), RunBlock(launch, fuel - 1, inner.block, t1);
        GoesAlike(r, q, t1, loops, n);
        if Goes(r) {
          var next := Sum(item, launch.stride);
          AdvancedStays(r.state, t, stmt.target, item, q.state, loops, n);
          ItemsKeepMeaning(launch, fuel - 1, stmt, loops, next, r.state, Advanced(n, q.state));
          MoreSimulates(RunItems(launch, fuel - 1, stmt, next, r.state), Run(launch, fuel - 1, hidden, Advanced(n, q.state)),
                        t, Advanced(n, q.state), loops, n + 1);
        } else {
          LeftSimulates(r, q, t, stmt.target, item, loops, n, n + 1);
        }
      }
    }
  }

  /** A whole kernel that strides means what it says: rewritten by the pass, it runs as written. */
  method RewrittenKernel(launch: Launch, kernel: Block, ghost fuel: nat, ghost s: State) returns (rewritten: Block)
    requires launch.strided && SourceBlock(kernel)
    ensures AlikeResults(RunBlock(launch, fuel, kernel, s), RunBlock(launch, fuel, rewritten, s))
  {
    var rewriter := new Rewriter(true);
    rewritten := rewriter.VisitBlock(kernel);
    BlockKeepsMeaning(launch, fuel, kernel, 0, s, s);
  }
}
