/** What conversions mean (src/patos/cuda/front/rewrite.py:105-190). */
module ConversionsMeaning {
  import opened Integers
  import opened Words
  import opened Conversions

  // ---------------------------------------------------------------- declared locals keep their type

  /** Every declared local that has been assigned holds a value of its type. */
  ghost predicate Typed(u: Unit, d: Declared, s: State) {
    forall id :: id in d.locals && User(id) in s.vars ==> Has(u, d.locals[id], s.vars[User(id)])
  }

  predicate CastsTo(kind: Kind, e: Expr) {
    match e
    case Cast(k, _) => k == kind
    case Choose(_, body, orelse) => CastsTo(kind, body) && CastsTo(kind, orelse)
    case _ => false
  }

  /** Code whose every assignment to a declared name is a cast to its type. */
  predicate Casts(d: Declared, b: Block) {
    match b
    case Nil => true
    case Cons(head, tail) => CastsStmt(d, head) && Casts(d, tail)
  }

  predicate CastsStmt(d: Declared, stmt: Stmt) {
    match stmt
    case Assign(target, value) => d.Of(target) != [] ==> CastsTo(d.Of(target)[0], value)
    case Declare(_, _, _) => false
    case Augment(target, _) => d.Of(target) == []
    case Unpack(targets, _) => forall i :: 0 <= i < |targets| ==> !IsDeclared(d, targets[i])
    case If(_, body, orelse) => Casts(d, body) && Casts(d, orelse)
    case While(_, body, orelse) => Casts(d, body) && Casts(d, orelse)
    case _ => true
  }

  lemma {:induction false} CastsToHas(u: Unit, kind: Kind, e: Expr, s: State)
    requires Fits(u) && CastsTo(kind, e)
    ensures Has(u, kind, Eval(u, e, s))
  {
    match e
    case Cast(_, operand) => assert Has(u, kind, u.cast(kind, Eval(u, operand, s)));
    case Choose(_, body, orelse) => CastsToHas(u, kind, body, s); CastsToHas(u, kind, orelse, s);
  }

  lemma {:induction false} CastingCasts(kind: Kind, e: Expr)
    ensures CastsTo(kind, Casting(kind, e))
  {
    match e
    case Choose(_, body, orelse) => CastingCasts(kind, body); CastingCasts(kind, orelse);
    case _ =>
  }

  lemma {:induction false} CastsAppend(d: Declared, a: Block, b: Block)
    ensures Casts(d, Append(a, b)) == (Casts(d, a) && Casts(d, b))
  {
    match a
    case Nil =>
    case Cons(_, tail) => CastsAppend(d, tail, b);
  }

  lemma {:induction false} ConvertingCasts(d: Declared, targets: seq<Target>)
    ensures Casts(d, Converting(d, targets))
  {
    if |targets| > 0 {
      ConvertingCasts(d, targets[1..]);
      if IsDeclared(d, targets[0]) { CastingCasts(d.Of(targets[0].name)[0], Load(Received(targets[0].name.id))); }
    }
  }

  /** The pass leaves no assignment to a declared name without its cast. */
  lemma {:induction false} RewrittenCasts(d: Declared, b: Block)
    ensures Casts(d, Rewritten(d, b))
    decreases b, 1
  {
    match b
    case Nil =>
    case Cons(head, tail) =>
      RewrittenStmtCasts(d, head);
      RewrittenCasts(d, tail);
      CastsAppend(d, RewrittenStmt(d, head), Rewritten(d, tail));
  }

  lemma {:induction false} RewrittenStmtCasts(d: Declared, stmt: Stmt)
    ensures Casts(d, RewrittenStmt(d, stmt))
    decreases stmt, 0
  {
    match stmt
    case Assign(target, value) => if d.Of(target) != [] { CastingCasts(d.Of(target)[0], value); }
    case Declare(target, _, initial) =>
      if |initial| > 0 && d.Of(target) != [] { CastingCasts(d.Of(target)[0], initial[0]); }
    case Augment(target, value) =>
      if d.Of(target) != [] { CastingCasts(d.Of(target)[0], Sum(Load(target), value)); }
    case Unpack(targets, _) => ConvertingCasts(d, targets);
    case If(_, body, orelse) => RewrittenCasts(d, body); RewrittenCasts(d, orelse);
    case While(_, body, orelse) => RewrittenCasts(d, body); RewrittenCasts(d, orelse);
    case _ =>
  }

  ghost predicate AllTyped(u: Unit, d: Declared, r: Result) {
    && (forall i :: 0 <= i < |r.seen| ==> Typed(u, d, r.seen[i]))
    && (r.Ended? ==> Typed(u, d, r.state))
  }

  lemma {:induction false} UnpackedTyped(u: Unit, d: Declared, targets: seq<Target>, values: seq<Value>, s: State)
    requires Typed(u, d, s) && forall i :: 0 <= i < |targets| ==> !IsDeclared(d, targets[i])
    ensures forall i :: 0 <= i <= |targets| ==> Typed(u, d, Unpacked(u, nothing, targets, values, s)[i])
  {
    if |targets| > 0 {
      UnpackedTyped(u, d, targets[..|targets| - 1], values, s);
      assert !IsDeclared(d, targets[|targets| - 1]);
    }
  }

  /** Code that casts its assignments keeps every state it passes through typed. */
  lemma {:induction false} CastsStayTyped(u: Unit, d: Declared, fuel: nat, b: Block, s: State)
    requires Fits(u) && Casts(d, b) && Typed(u, d, s)
    ensures AllTyped(u, d, RunBlock(u, nothing, fuel, b, s))
    decreases fuel, b, 2
  {
    match b
    case Nil =>
    case Cons(head, tail) =>
      CastsStayTypedStmt(u, d, fuel, head, s);
      var r := Run(u, nothing, fuel, head, s);
      if r.Ended? && r.exit == Normal { CastsStayTyped(u, d, fuel, tail, r.state); }
  }

  lemma {:induction false} CastsStayTypedStmt(u: Unit, d: Declared, fuel: nat, stmt: Stmt, s: State)
    requires Fits(u) && CastsStmt(d, stmt) && Typed(u, d, s)
    ensures AllTyped(u, d, Run(u, nothing, fuel, stmt, s))
    decreases fuel, stmt, 1
  {
    match stmt
    case Assign(target, value) => if d.Of(target) != [] { CastsToHas(u, d.Of(target)[0], value, s); }
    case Unpack(targets, values) => UnpackedTyped(u, d, targets, Evaluated(u, values, s), s);
    case If(test, body, orelse) => CastsStayTyped(u, d, fuel, if u.holds(Eval(u, test, s)) then body else orelse, s);
    case While(_, _, _) => CastsStayTypedWhile(u, d, fuel, stmt, s);
    case _ =>
  }

  lemma {:induction false} CastsStayTypedWhile(u: Unit, d: Declared, fuel: nat, stmt: Stmt, s: State)
    requires Fits(u) && stmt.While? && CastsStmt(d, stmt) && Typed(u, d, s)
    ensures AllTyped(u, d, Run(u, nothing, fuel, stmt, s))
    decreases fuel, stmt, 0
  {
    if fuel > 0 {
      if !u.holds(Eval(u, stmt.test, s)) {
        CastsStayTyped(u, d, fuel, stmt.orelse, s);
      } else {
        CastsStayTyped(u, d, fuel - 1, stmt.body, s);
        var r := RunBlock(u, nothing, fuel - 1, stmt.body, s);
        if r.Ended? && (r.exit == Normal || r.exit == Continued) { CastsStayTypedWhile(u, d, fuel - 1, stmt, r.state); }
      }
    }
  }

  /** In every state a rewritten function passes through, every declared local holds a value of its
      declared type. */
  lemma RewrittenStaysTyped(u: Unit, d: Declared, fuel: nat, b: Block, s: State)
    requires Fits(u) && Typed(u, d, s)
    ensures AllTyped(u, d, RunBlock(u, nothing, fuel, Rewritten(d, b), s))
  {
    RewrittenCasts(d, b);
    CastsStayTyped(u, d, fuel, Rewritten(d, b), s);
  }

  // ---------------------------------------------------------------- the rewriting means the declarations

  ghost predicate Alike(s: State, t: State) {
    s.memory == t.memory && forall id: string :: s.Get(User(id)) == t.Get(User(id))
  }

  ghost predicate ResultsAlike(r: Result, q: Result) {
    match r
    case OutOfFuel(_) => q.OutOfFuel?
    case Ended(exit, s, _) => q.Ended? && q.exit == exit && Alike(s, q.state)
  }

  predicate SourceExpr(e: Expr) {
    match e
    case Literal(_) => true
    case Load(name) => name.User?
    case Element(index) => SourceExpr(index)
    case Sum(l, r) => SourceExpr(l) && SourceExpr(r)
    case Cast(_, operand) => SourceExpr(operand)
    case Choose(test, body, orelse) => SourceExpr(test) && SourceExpr(body) && SourceExpr(orelse)
    case Display(elements) => forall i :: 0 <= i < |elements| ==> SourceExpr(elements[i])
  }

  /** Whether an expression reads a name. */
  predicate Mentions(e: Expr, name: Name) {
    match e
    case Literal(_) => false
    case Load(n) => n == name
    case Element(index) => Mentions(index, name)
    case Sum(l, r) => Mentions(l, name) || Mentions(r, name)
    case Cast(_, operand) => Mentions(operand, name)
    case Choose(test, body, orelse) => Mentions(test, name) || Mentions(body, name) || Mentions(orelse, name)
    case Display(elements) => exists i :: 0 <= i < |elements| && Mentions(elements[i], name)
  }

  /** A slot whose index reads a declared local that the same unpacking assigns before it: the index
      then reads what the local held before the unpacking. */
  predicate Conflicts(d: Declared, targets: seq<Target>) {
    exists i, j :: 0 <= i < j < |targets| && ConflictAt(d, targets[i], targets[j])
  }

  predicate ConflictAt(d: Declared, earlier: Target, later: Target) {
    IsDeclared(d, earlier) && later.Slot? && Mentions(later.index, earlier.name)
  }

  predicate SourceTarget(target: Target) {
    match target
    case Local(name) => name.User?
    case Slot(index) => SourceExpr(index)
  }

  predicate Source(d: Declared, stmt: Stmt) {
    match stmt
    case Assign(target, value) => target.User? && SourceExpr(value)
    case Declare(target, _, initial) => target.User? && forall i :: 0 <= i < |initial| ==> SourceExpr(initial[i])
    case Augment(target, value) => target.User? && SourceExpr(value)
    case Store(index, value) => SourceExpr(index) && SourceExpr(value)
    case Unpack(targets, values) =>
      && (forall i :: 0 <= i < |targets| ==> SourceTarget(targets[i]))
      && (forall i :: 0 <= i < |values| ==> SourceExpr(values[i]))
      && !Conflicts(d, targets)
    case If(test, body, orelse) => SourceExpr(test) && SourceBlock(d, body) && SourceBlock(d, orelse)
    case While(test, body, orelse) => SourceExpr(test) && SourceBlock(d, body) && SourceBlock(d, orelse)
    case Return(value) => SourceExpr(value) && Displays(d.result, value)
    case _ => true
  }

  predicate SourceBlock(d: Declared, b: Block) {
    match b
    case Nil => true
    case Cons(head, tail) => Source(d, head) && SourceBlock(d, tail)
  }

  lemma {:induction false} EvalAlike(u: Unit, e: Expr, s: State, t: State)
    requires SourceExpr(e) && Alike(s, t)
    ensures Eval(u, e, s) == Eval(u, e, t)
  {
    match e
    case Load(name) => assert s.Get(User(name.id)) == t.Get(User(name.id));
    case Element(index) => EvalAlike(u, index, s, t);
    case Sum(l, r) => EvalAlike(u, l, s, t); EvalAlike(u, r, s, t);
    case Cast(_, operand) => EvalAlike(u, operand, s, t);
    case Choose(test, body, orelse) => EvalAlike(u, test, s, t); EvalAlike(u, body, s, t); EvalAlike(u, orelse, s, t);
    case Display(elements) =>
      forall i | 0 <= i < |elements| ensures Eval(u, elements[i], s) == Eval(u, elements[i], t) {
        EvalAlike(u, elements[i], s, t);
      }
      assert Eval(u, e, s).values == Eval(u, e, t).values;
    case _ =>
  }

  lemma {:induction false} RunAppend(u: Unit, d: Declared, fuel: nat, a: Block, b: Block, s: State)
    ensures RunBlock(u, d, fuel, Append(a, b), s) ==
      var r := RunBlock(u, d, fuel, a, s);
      if r.Ended? && r.exit == Normal then Behind(r.seen, RunBlock(u, d, fuel, b, r.state)) else r
  {
    match a
    case Nil => assert forall r: Result :: Behind([], r) == r by { forall r: Result ensures Behind([], r) == r {} }
    case Cons(head, tail) =>
      var r := Run(u, d, fuel, head, s);
      if r.Ended? && r.exit == Normal {
        RunAppend(u, d, fuel, tail, b, r.state);
        var q := RunBlock(u, d, fuel, tail, r.state);
        if q.Ended? && q.exit == Normal { BehindTwice(r.seen, q.seen, RunBlock(u, d, fuel, b, q.state)); }
      }
  }

  lemma BehindTwice(one: seq<State>, two: seq<State>, r: Result)
    ensures Behind(one, Behind(two, r)) == Behind(one + two, r)
  {
    assert one + (two + r.seen) == (one + two) + r.seen;
  }

  // ---------------------------------------------------------------- unpacking

  ghost predicate Among(id: string, targets: seq<Target>) {
    exists i :: 0 <= i < |targets| && targets[i] == Local(User(id))
  }

  /** `q` has received what `r` has converted, of the declared names among `targets`, and agrees with
      it on everything else. */
  ghost predicate Pending(u: Unit, d: Declared, targets: seq<Target>, r: State, q: State) {
    && r.memory == q.memory
    && forall id: string :: PendingName(u, d, targets, r, q, id)
  }

  ghost predicate PendingName(u: Unit, d: Declared, targets: seq<Target>, r: State, q: State, id: string) {
    if id in d.locals && Among(id, targets) then r.Get(User(id)) == u.cast(d.locals[id], q.Get(Received(id)))
    else r.Get(User(id)) == q.Get(User(id))
  }

  /** An index that reads no declared name received so far reads the same in both. */
  lemma {:induction false} EvalPending(u: Unit, d: Declared, targets: seq<Target>, e: Expr, r: State, q: State)
    requires SourceExpr(e) && Pending(u, d, targets, r, q)
    requires forall i :: 0 <= i < |targets| && IsDeclared(d, targets[i]) ==> !Mentions(e, targets[i].name)
    ensures Eval(u, e, r) == Eval(u, e, q)
  {
    match e
    case Load(name) => assert PendingName(u, d, targets, r, q, name.id);
    case Element(index) => EvalPending(u, d, targets, index, r, q);
    case Sum(a, b) => EvalPending(u, d, targets, a, r, q); EvalPending(u, d, targets, b, r, q);
    case Cast(_, operand) => EvalPending(u, d, targets, operand, r, q);
    case Choose(test, body, orelse) =>
      EvalPending(u, d, targets, test, r, q); EvalPending(u, d, targets, body, r, q); EvalPending(u, d, targets, orelse, r, q);
    case Display(elements) =>
      forall i | 0 <= i < |elements| ensures Eval(u, elements[i], r) == Eval(u, elements[i], q) {
        EvalPending(u, d, targets, elements[i], r, q);
      }
      assert Eval(u, e, r).values == Eval(u, e, q).values;
    case _ =>
  }

  lemma AmongSnoc(id: string, targets: seq<Target>, last: Target)
    ensures Among(id, targets + [last]) == (Among(id, targets) || last == Local(User(id)))
  {
    if Among(id, targets) {
      var i :| 0 <= i < |targets| && targets[i] == Local(User(id));
      assert (targets + [last])[i] == Local(User(id));
    }
    if last == Local(User(id)) { assert (targets + [last])[|targets|] == Local(User(id)); }
  }

  lemma PendingStep(u: Unit, d: Declared, targets: seq<Target>, last: Target, v: Value, r: State, q: State)
    requires Pending(u, d, targets, r, q) && SourceTarget(last)
    requires last.Slot? ==> Eval(u, last.index, r) == Eval(u, last.index, q)
    ensures Pending(u, d, targets + [last], AssignedTo(u, d, last, v, r), AssignedTo(u, nothing, Receiving(d, [last])[0], v, q))
  {
    var r', q' := AssignedTo(u, d, last, v, r), AssignedTo(u, nothing, Receiving(d, [last])[0], v, q);
    forall id: string ensures PendingName(u, d, targets + [last], r', q', id) {
      AmongSnoc(id, targets, last);
      assert PendingName(u, d, targets, r, q, id);
    }
  }

  lemma UnpackedSnoc(u: Unit, d: Declared, targets: seq<Target>, values: seq<Value>, s: State)
    requires |targets| > 0
    ensures var n := |targets| - 1;
      Unpacked(u, d, targets, values, s)[n + 1] ==
        AssignedTo(u, d, targets[n], ValueAt(values, n), Unpacked(u, d, targets[..n], values, s)[n])
  {}

  lemma NoConflictBefore(d: Declared, targets: seq<Target>, n: nat)
    requires !Conflicts(d, targets) && n < |targets|
    ensures !Conflicts(d, targets[..n])
    ensures forall i :: 0 <= i < n ==> !ConflictAt(d, targets[i], targets[n])
  {
    assert forall i, j :: 0 <= i < j < n && ConflictAt(d, targets[..n][i], targets[..n][j]) ==>
      ConflictAt(d, targets[i], targets[j]);
  }

  /** Received left to right under hidden names, an unpacking without a conflict leaves exactly the
      conversions to do. */
  lemma {:induction false} ReceivesAlike(u: Unit, d: Declared, targets: seq<Target>, values: seq<Value>, s: State, t: State)
    requires Alike(s, t) && !Conflicts(d, targets)
    requires forall i :: 0 <= i < |targets| ==> SourceTarget(targets[i])
    ensures Pending(u, d, targets, Unpacked(u, d, targets, values, s)[|targets|],
                    Unpacked(u, nothing, Receiving(d, targets), values, t)[|targets|])
  {
    if |targets| == 0 {
      forall id: string ensures PendingName(u, d, targets, s, t, id) { assert s.Get(User(id)) == t.Get(User(id)); }
    } else {
      var n := |targets| - 1;
      NoConflictBefore(d, targets, n);
      ReceivesAlike(u, d, targets[..n], values, s, t);
      ReceivesOneMore(u, d, targets, values, s, t);
    }
  }

  lemma ReceivesOneMore(u: Unit, d: Declared, targets: seq<Target>, values: seq<Value>, s: State, t: State)
    requires |targets| > 0 && SourceTarget(targets[|targets| - 1])
    requires forall i :: 0 <= i < |targets| - 1 ==> !ConflictAt(d, targets[i], targets[|targets| - 1])
    requires var n, front := |targets| - 1, targets[..|targets| - 1];
      Pending(u, d, front, Unpacked(u, d, front, values, s)[n], Unpacked(u, nothing, Receiving(d, front), values, t)[n])
    ensures Pending(u, d, targets, Unpacked(u, d, targets, values, s)[|targets|],
                    Unpacked(u, nothing, Receiving(d, targets), values, t)[|targets|])
  {
    hide Unpacked, Pending, AssignedTo;
    var n := |targets| - 1;
    var front, last := targets[..n], targets[n];
    var r, q := Unpacked(u, d, front, values, s)[n], Unpacked(u, nothing, Receiving(d, front), values, t)[n];
    if last.Slot? { EvalPending(u, d, front, last.index, r, q); }
    PendingStep(u, d, front, last, ValueAt(values, n), r, q);
    UnpackedSnoc(u, d, targets, values, s);
    UnpackedSnoc(u, nothing, Receiving(d, targets), values, t);
    assert Receiving(d, targets)[..n] == Receiving(d, front) && front + [last] == targets;
  }

  /** The conversions that follow do what is pending and nothing else. */
  lemma {:induction false} ConvertingRuns(u: Unit, d: Declared, fuel: nat, targets: seq<Target>, q: State)
    requires forall i :: 0 <= i < |targets| ==> SourceTarget(targets[i])
    ensures var c := RunBlock(u, nothing, fuel, Converting(d, targets), q);
      && c.Ended? && c.exit == Normal && c.state.memory == q.memory
      && forall id: string ::
          && c.state.Get(Received(id)) == q.Get(Received(id))
          && c.state.Get(User(id)) ==
               if id in d.locals && Among(id, targets) then u.cast(d.locals[id], q.Get(Received(id)))
               else q.Get(User(id))
  {
    if |targets| > 0 {
      var first, rest := targets[0], targets[1..];
      assert targets == [first] + rest;
      forall id: string ensures Among(id, targets) == (first == Local(User(id)) || Among(id, rest)) {
        AmongCons(id, first, rest);
      }
      if IsDeclared(d, first) {
        var kind := d.Of(first.name)[0];
        var value := Casting(kind, Load(Received(first.name.id)));
        CastingConverts(u, kind, Load(Received(first.name.id)), q);
        var q1 := Assigned(u, nothing, first.name, Eval(u, value, q), q);
        assert Run(u, nothing, fuel, Assign(first.name, value), q) == One(q1);
        ConvertingRuns(u, d, fuel, rest, q1);
      } else {
        ConvertingRuns(u, d, fuel, rest, q);
      }
    }
  }

  lemma AmongCons(id: string, first: Target, rest: seq<Target>)
    ensures Among(id, [first] + rest) == (first == Local(User(id)) || Among(id, rest))
  {
    var all := [first] + rest;
    if Among(id, rest) {
      var i :| 0 <= i < |rest| && rest[i] == Local(User(id));
      assert all[i + 1] == Local(User(id));
    }
    if first == Local(User(id)) { assert all[0] == Local(User(id)); }
  }

  /** Received and then converted, an unpacking without a conflict does what one whose names convert
      as they are assigned does. */
  lemma UnpackingMeans(u: Unit, d: Declared, fuel: nat, targets: seq<Target>, values: seq<Value>, s: State, t: State)
    requires Alike(s, t) && !Conflicts(d, targets)
    requires forall i :: 0 <= i < |targets| ==> SourceTarget(targets[i])
    ensures UnpacksAlike(u, d, fuel, targets, values, s, t)
  {
    ReceivesAlike(u, d, targets, values, s, t);
    var r, q := Unpacked(u, d, targets, values, s)[|targets|], Unpacked(u, nothing, Receiving(d, targets), values, t)[|targets|];
    ConvertingRuns(u, d, fuel, targets, q);
    var c := RunBlock(u, nothing, fuel, Converting(d, targets), q);
    forall id: string ensures r.Get(User(id)) == c.state.Get(User(id)) {
      assert PendingName(u, d, targets, r, q, id);
    }
  }

  ghost predicate UnpacksAlike(u: Unit, d: Declared, fuel: nat, targets: seq<Target>, values: seq<Value>, s: State, t: State) {
    var c := RunBlock(u, nothing, fuel, Converting(d, targets),
                      Unpacked(u, nothing, Receiving(d, targets), values, t)[|targets|]);
    c.Ended? && c.exit == Normal && Alike(Unpacked(u, d, targets, values, s)[|targets|], c.state)
  }

  // ---------------------------------------------------------------- exactly when

  /** Slots are indexed by names, a declared one by an integer, as Numba asks of any index. */
  predicate NamedSlots(d: Declared, targets: seq<Target>) {
    forall i :: 0 <= i < |targets| ==>
      && SourceTarget(targets[i])
      && (targets[i].Slot? ==> targets[i].index.Load? && Indexes(d.Of(targets[i].index.name)))
  }

  predicate Indexes(kinds: seq<Kind>) { forall kind :: kind in kinds ==> kind.Integer? && kind.bits >= 8 }

  const blank := State(map[], map[])

  function Mark(id: string, target: Target): Value { Number(signed64, if target == Local(User(id)) then 1 else 0) }

  ghost predicate Marks(id: string, targets: seq<Target>, values: seq<Value>) {
    |targets| <= |values| && forall i :: 0 <= i < |targets| ==> values[i] == Mark(id, targets[i])
  }

  /** A slot indexed by a name assigned before it. */
  ghost predicate ReadsAssigned(id: string, targets: seq<Target>) {
    exists i, j :: 0 <= i < j < |targets| && ReadsAt(id, targets[i], targets[j])
  }

  predicate ReadsAt(id: string, earlier: Target, later: Target) {
    earlier == Local(User(id)) && later == Slot(Load(User(id)))
  }

  lemma ReadsAssignedSnoc(id: string, targets: seq<Target>)
    requires |targets| > 0 && ReadsAssigned(id, targets)
    ensures var n := |targets| - 1;
      || ReadsAssigned(id, targets[..n])
      || (targets[n] == Slot(Load(User(id))) && Among(id, targets[..n]))
  {
    var n := |targets| - 1;
    var i, j :| 0 <= i < j < |targets| && ReadsAt(id, targets[i], targets[j]);
    if j < n {
      assert ReadsAt(id, targets[..n][i], targets[..n][j]);
    } else {
      assert targets[..n][i] == Local(User(id));
    }
  }

  /** Whether converting 1 to what a name is declared gives 1. */
  predicate OneStays(u: Unit, d: Declared, id: string) {
    d.Of(User(id)) != [] ==>
      var one := u.cast(d.Of(User(id))[0], Number(signed64, 1));
      one.Number? && one.number == 1
  }

  lemma OneStaysIndex(u: Unit, d: Declared, id: string)
    requires Wraps(u) && Indexes(d.Of(User(id)))
    ensures OneStays(u, d, id)
  {
    hide LowBits;
    if d.Of(User(id)) != [] {
      var kind := d.Of(User(id))[0];
      assert kind in d.Of(User(id));
      OneWraps(kind.bits, kind.signed);
    }
  }

  lemma OneWraps(bits: nat, signed: bool)
    requires bits >= 8
    ensures LowBits(bits, signed, 1) == 1
  {
    assert Pow2(bits) == 4 * Pow2(bits - 2);
    ModUnique(Pow2(bits), 1, 0, 1);
    hide Pow2;
  }

  ghost predicate StoresAtOne(id: string, targets: seq<Target>, r: State) {
    && (Among(id, targets) ==> r.Get(User(id)).Number? && r.Get(User(id)).number == 1)
    && (ReadsAssigned(id, targets) ==> 1 in r.memory)
  }

  lemma OneMoreStores(u: Unit, d: Declared, id: string, targets: seq<Target>, last: Target, r: State)
    requires OneStays(u, d, id)
    requires StoresAtOne(id, targets, r) && (last.Slot? ==> last.index.Load?)
    ensures StoresAtOne(id, targets + [last], AssignedTo(u, d, last, Mark(id, last), r))
  {
    AmongSnoc(id, targets, last);
    if ReadsAssigned(id, targets + [last]) {
      ReadsAssignedSnoc(id, targets + [last]);
      assert (targets + [last])[..|targets|] == targets;
    }
    hide Among, ReadsAssigned;
  }

  /** Converted as it is assigned, a name set to 1 sends a later store it indexes to slot 1. */
  lemma {:induction false} DeclaredStoresAtOne(u: Unit, d: Declared, id: string, targets: seq<Target>, values: seq<Value>)
    requires OneStays(u, d, id) && NamedSlots(d, targets) && Marks(id, targets, values)
    ensures StoresAtOne(id, targets, Unpacked(u, d, targets, values, blank)[|targets|])
  {
    if |targets| > 0 {
      hide StoresAtOne, OneStays, AssignedTo;
      var n := |targets| - 1;
      DeclaredStoresAtOne(u, d, id, targets[..n], values);
      OneMoreStores(u, d, id, targets[..n], targets[n], Unpacked(u, d, targets[..n], values, blank)[n]);
      assert targets == targets[..n] + [targets[n]];
      UnpackedSnoc(u, d, targets, values, blank);
      hide Unpacked;
    }
  }

  /** Received under its hidden name it stays as it was, and every store goes to slot 0. */
  lemma {:induction false} ReceivedStoresAtZero(u: Unit, d: Declared, id: string, targets: seq<Target>, values: seq<Value>)
    requires NamedSlots(d, targets) && Marks(id, targets, values) && id in d.locals
    ensures var q := Unpacked(u, nothing, Receiving(d, targets), values, blank)[|targets|];
      && 1 !in q.memory
      && forall other: string :: q.Get(User(other)) == zero
  {
    if |targets| > 0 {
      var n := |targets| - 1;
      ReceivedStoresAtZero(u, d, id, targets[..n], values);
      UnpackedSnoc(u, nothing, Receiving(d, targets), values, blank);
      assert Receiving(d, targets)[..n] == Receiving(d, targets[..n]);
    }
  }

  ghost predicate AlwaysUnpacksAlike(u: Unit, d: Declared, targets: seq<Target>) {
    forall fuel: nat, values: seq<Value>, s: State, t: State ::
      Alike(s, t) ==> UnpacksAlike(u, d, fuel, targets, values, s, t)
  }

  lemma ConflictDiffers(u: Unit, d: Declared, targets: seq<Target>, i: nat, j: nat)
    requires Wraps(u) && NamedSlots(d, targets) && i < j < |targets| && ConflictAt(d, targets[i], targets[j])
    ensures exists values :: !UnpacksAlike(u, d, 0, targets, values, blank, blank)
  {
    var id := targets[i].name.id;
    var values := seq(|targets|, k requires 0 <= k < |targets| => Mark(id, targets[k]));
    assert ReadsAt(id, targets[i], targets[j]);
    assert Indexes(d.Of(User(id)));
    OneStaysIndex(u, d, id);
    DeclaredStoresAtOne(u, d, id, targets, values);
    ReceivedStoresAtZero(u, d, id, targets, values);
    ConvertingRuns(u, d, 0, targets, Unpacked(u, nothing, Receiving(d, targets), values, blank)[|targets|]);
    hide Unpacked, Wraps;
    assert !UnpacksAlike(u, d, 0, targets, values, blank, blank);
  }

  /** Where slots are indexed by names, the rewriting of an unpacking means what the declarations do
      if and only if no slot is indexed by a declared local assigned before it. */
  lemma UnpackingMeansIff(u: Unit, d: Declared, targets: seq<Target>)
    requires Wraps(u) && NamedSlots(d, targets)
    ensures AlwaysUnpacksAlike(u, d, targets) <==> !Conflicts(d, targets)
  {
    hide Unpacked, UnpacksAlike, Wraps;
    if Conflicts(d, targets) {
      var i, j :| 0 <= i < j < |targets| && ConflictAt(d, targets[i], targets[j]);
      ConflictDiffers(u, d, targets, i, j);
      assert Alike(blank, blank);
    } else {
      forall fuel: nat, values: seq<Value>, s: State, t: State | Alike(s, t)
        ensures UnpacksAlike(u, d, fuel, targets, values, s, t)
      {
        UnpackingMeans(u, d, fuel, targets, values, s, t);
      }
    }
  }

  /** `x, a[x] = 1, 0` with `x` declared stores at the old `x`. */
  lemma UnpackingCanDiffer(u: Unit, kind: Kind)
    requires Wraps(u) && kind.Integer? && kind.bits >= 8
    ensures var d := Declared(map["x" := kind], Other);
      var targets := [Local(User("x")), Slot(Load(User("x")))];
      !AlwaysUnpacksAlike(u, d, targets)
  {
    var d := Declared(map["x" := kind], Other);
    var targets := [Local(User("x")), Slot(Load(User("x")))];
    assert ConflictAt(d, targets[0], targets[1]);
    UnpackingMeansIff(u, d, targets);
  }

  // ---------------------------------------------------------------- a whole function

  /** A rewritten function, whose annotations are dropped, means what the declarations of the one it
      came from do: the same exits and returned values, the same memory, the same locals. */
  lemma {:induction false} RewrittenMeans(u: Unit, d: Declared, fuel: nat, b: Block, s: State, t: State)
    requires SourceBlock(d, b) && Alike(s, t)
    ensures ResultsAlike(RunBlock(u, d, fuel, b, s), RunBlock(u, nothing, fuel, Rewritten(d, b), t))
    decreases fuel, b, 2
  {
    match b
    case Nil =>
    case Cons(head, tail) =>
      RewrittenStmtMeans(u, d, fuel, head, s, t);
      RunAppend(u, nothing, fuel, RewrittenStmt(d, head), Rewritten(d, tail), t);
      var r, q := Run(u, d, fuel, head, s), RunBlock(u, nothing, fuel, RewrittenStmt(d, head), t);
      if r.Ended? && r.exit == Normal { RewrittenMeans(u, d, fuel, tail, r.state, q.state); }
  }

  lemma RunSingle(u: Unit, d: Declared, fuel: nat, stmt: Stmt, s: State)
    ensures var r, q := RunBlock(u, d, fuel, Cons(stmt, Nil), s), Run(u, d, fuel, stmt, s);
      if q.Ended? then r.Ended? && r.exit == q.exit && r.state == q.state else r.OutOfFuel?
  {}

  lemma AssigningMeans(u: Unit, d: Declared, fuel: nat, target: Name, value: Expr, s: State, t: State)
    requires target.User? && SourceExpr(value) && Alike(s, t)
    ensures var q := Run(u, nothing, fuel, Assigning(d, target, value), t);
      q.Ended? && q.exit == Normal && Alike(Assigned(u, d, target, Eval(u, value, s), s), q.state)
  {
    EvalAlike(u, value, s, t);
    if d.Of(target) != [] { CastingConverts(u, d.Of(target)[0], value, t); }
  }

  lemma {:induction false} RewrittenStmtMeans(u: Unit, d: Declared, fuel: nat, stmt: Stmt, s: State, t: State)
    requires Source(d, stmt) && Alike(s, t)
    ensures ResultsAlike(Run(u, d, fuel, stmt, s), RunBlock(u, nothing, fuel, RewrittenStmt(d, stmt), t))
    decreases fuel, stmt, 1
  {
    match stmt
    case Assign(target, value) =>
      AssigningMeans(u, d, fuel, target, value, s, t);
      RunSingle(u, nothing, fuel, Assigning(d, target, value), t);
    case Declare(target, _, initial) =>
      if |initial| > 0 {
        AssigningMeans(u, d, fuel, target, initial[0], s, t);
        RunSingle(u, nothing, fuel, Assigning(d, target, initial[0]), t);
      }
    case Augment(_, _) => AugmentMeans(u, d, fuel, stmt, s, t);
    case Store(index, value) =>
      EvalAlike(u, index, s, t);
      EvalAlike(u, value, s, t);
    case Unpack(targets, values) => UnpackMeans(u, d, fuel, targets, values, s, t);
    case If(test, body, orelse) =>
      EvalAlike(u, test, s, t);
      RunSingle(u, nothing, fuel, If(test, Rewritten(d, body), Rewritten(d, orelse)), t);
      if u.holds(Eval(u, test, s)) { RewrittenMeans(u, d, fuel, body, s, t); } else { RewrittenMeans(u, d, fuel, orelse, s, t); }
    case While(test, body, orelse) =>
      WhileMeans(u, d, fuel, stmt, s, t);
      RunSingle(u, nothing, fuel, While(test, Rewritten(d, body), Rewritten(d, orelse)), t);
    case Return(value) => ReturnMeans(u, d, fuel, value, s, t);
    case _ =>
  }

  lemma AugmentMeans(u: Unit, d: Declared, fuel: nat, stmt: Stmt, s: State, t: State)
    requires stmt.Augment? && Source(d, stmt) && Alike(s, t)
    ensures ResultsAlike(Run(u, d, fuel, stmt, s), RunBlock(u, nothing, fuel, RewrittenStmt(d, stmt), t))
  {
    var sum := Sum(Load(stmt.target), stmt.value);
    EvalAlike(u, stmt.value, s, t);
    EvalAlike(u, Load(stmt.target), s, t);
    if d.Of(stmt.target) == [] {
      RunSingle(u, nothing, fuel, stmt, t);
    } else {
      AssigningMeans(u, d, fuel, stmt.target, sum, s, t);
      RunSingle(u, nothing, fuel, Assigning(d, stmt.target, sum), t);
    }
  }

  lemma ReturnMeans(u: Unit, d: Declared, fuel: nat, value: Expr, s: State, t: State)
    requires Source(d, Return(value)) && Alike(s, t)
    ensures ResultsAlike(Run(u, d, fuel, Return(value), s), RunBlock(u, nothing, fuel, RewrittenStmt(d, Return(value)), t))
  {
    EvalAlike(u, value, s, t);
    ReturningConverts(u, d.result, value, t);
    RunSingle(u, nothing, fuel, Return(Returning(d.result, value)), t);
    hide Eval, Returning, ReturnedAs;
  }

  lemma UnpackMeans(u: Unit, d: Declared, fuel: nat, targets: seq<Target>, values: seq<Expr>, s: State, t: State)
    requires Source(d, Unpack(targets, values)) && Alike(s, t)
    ensures ResultsAlike(Run(u, d, fuel, Unpack(targets, values), s),
                         RunBlock(u, nothing, fuel, RewrittenStmt(d, Unpack(targets, values)), t))
  {
    hide Unpacked, Eval, Conflicts;
    EvaluatedAlike(u, values, s, t);
    UnpackingMeans(u, d, fuel, targets, Evaluated(u, values, s), s, t);
    if !exists i :: 0 <= i < |targets| && IsDeclared(d, targets[i]) {
      NothingToConvert(d, targets);
      assert Receiving(d, targets) == targets;
      RunSingle(u, nothing, fuel, Unpack(targets, values), t);
      hide RunBlock;
    }
  }

  lemma EvaluatedAlike(u: Unit, values: seq<Expr>, s: State, t: State)
    requires Alike(s, t) && forall i :: 0 <= i < |values| ==> SourceExpr(values[i])
    ensures Evaluated(u, values, s) == Evaluated(u, values, t)
  {
    hide Eval, SourceExpr;
    forall i | 0 <= i < |values| ensures Eval(u, values[i], s) == Eval(u, values[i], t) { EvalAlike(u, values[i], s, t); }
  }

  lemma {:induction false} NothingToConvert(d: Declared, targets: seq<Target>)
    requires forall i :: 0 <= i < |targets| ==> !IsDeclared(d, targets[i])
    ensures Converting(d, targets) == Nil
  {
    if |targets| > 0 { NothingToConvert(d, targets[1..]); }
  }

  lemma {:induction false} WhileMeans(u: Unit, d: Declared, fuel: nat, stmt: Stmt, s: State, t: State)
    requires stmt.While? && Source(d, stmt) && Alike(s, t)
    ensures ResultsAlike(Run(u, d, fuel, stmt, s),
                         Run(u, nothing, fuel, While(stmt.test, Rewritten(d, stmt.body), Rewritten(d, stmt.orelse)), t))
    decreases fuel, stmt, 0
  {
    EvalAlike(u, stmt.test, s, t);
    if fuel > 0 {
      if !u.holds(Eval(u, stmt.test, s)) {
        RewrittenMeans(u, d, fuel, stmt.orelse, s, t);
      } else {
        RewrittenMeans(u, d, fuel - 1, stmt.body, s, t);
        var r, q := RunBlock(u, d, fuel - 1, stmt.body, s), RunBlock(u, nothing, fuel - 1, Rewritten(d, stmt.body), t);
        if r.Ended? && (r.exit == Normal || r.exit == Continued) { WhileMeans(u, d, fuel - 1, stmt, r.state, q.state); }
      }
    }
  }
}
