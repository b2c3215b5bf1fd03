/** The rewriting of a kernel's loops over items (src/patos/cuda/front/rewrite.py:193-278). */
module ItemLoops {
  import opened KernelLanguage

  /** `while cursor < bound`, or `<=` for `items_through`. */
  function Test(item: Name, bound: Expr, through: bool): Expr {
    Binary(if through then AtMost else Less, Load(item), bound)
  }

  function Advance(number: nat): Stmt { Augment(Cursor(number), Load(Stride(number))) }

  /** A body with `advance` ahead of each `continue` that is its loop's own: an inner loop's `else` is
      searched, an inner loop's body is not. */
  function Exits(advance: Stmt, b: Block): Block {
    match b
    case Nil => Nil
    case Cons(Continue, tail) => Cons(advance, Cons(Continue, Exits(advance, tail)))
    case Cons(head, tail) => Cons(Exiting(advance, head), Exits(advance, tail))
  }

  function Exiting(advance: Stmt, stmt: Stmt): Stmt {
    match stmt
    case If(test, body, orelse) => If(test, Exits(advance, body), Exits(advance, orelse))
    case While(test, body, orelse) => While(test, body, Exits(advance, orelse))
    case ForRange(target, count, body, orelse) => ForRange(target, count, body, Exits(advance, orelse))
    case _ => stmt
  }

  /** Whether a body holds a `break` or `continue` that binds to its own loop, which a kernel that
      does not stride refuses. */
  predicate Refused(b: Block) {
    match b
    case Nil => false
    case Cons(head, tail) => RefusedStmt(head) || Refused(tail)
  }

  predicate RefusedStmt(stmt: Stmt) {
    match stmt
    case Break => true
    case Continue => true
    case If(_, body, orelse) => Refused(body) || Refused(orelse)
    case While(_, _, orelse) => Refused(orelse)
    case ForRange(_, _, _, orelse) => Refused(orelse)
    case _ => false
  }

  /** A rewritten block, the number the next loop takes, and whether any exit was refused. */
  datatype Rewritten = Rewritten(block: Block, next: nat, refused: bool)

  function Visited(strided: bool, b: Block, loops: nat): Rewritten {
    match b
    case Nil => Rewritten(Nil, loops, false)
    case Cons(head, tail) =>
      var one := VisitedStmt(strided, head, loops);
      var rest := Visited(strided, tail, one.next);
      Rewritten(Append(one.block, rest.block), rest.next, one.refused || rest.refused)
  }

  /** One statement rewritten: the loops inside it first, in order, and then itself. */
  function VisitedStmt(strided: bool, stmt: Stmt, loops: nat): Rewritten {
    match stmt
    case If(test, body, orelse) =>
      var one := Visited(strided, body, loops);
      var two := Visited(strided, orelse, one.next);
      Rewritten(Cons(If(test, one.block, two.block), Nil), two.next, one.refused || two.refused)
    case While(test, body, orelse) =>
      var one := Visited(strided, body, loops);
      var two := Visited(strided, orelse, one.next);
      Rewritten(Cons(While(test, one.block, two.block), Nil), two.next, one.refused || two.refused)
    case ForRange(target, count, body, orelse) =>
      var one := Visited(strided, body, loops);
      var two := Visited(strided, orelse, one.next);
      Rewritten(Cons(ForRange(target, count, one.block, two.block), Nil), two.next, one.refused || two.refused)
    case ForItems(target, bound, through, body) =>
      var inner := Visited(strided, body, loops);
      if strided
      then Rewritten(Strided(target, bound, through, inner.block, inner.next), inner.next + 1, inner.refused)
      else Rewritten(Guarded(target, bound, through, inner.block), inner.next, inner.refused || Refused(inner.block))
    case _ => Rewritten(Cons(stmt, Nil), loops, false)
  }

  /** What an items loop becomes in a kernel that strides: a `while` on a hidden cursor, which each
      pass assigns to the item before the body and moves on however the body falls through. */
  function Strided(target: Name, bound: Expr, through: bool, body: Block, number: nat): Block {
    Cons(Assign(Cursor(number), First),
    Cons(Assign(Stride(number), Step),
    Cons(Hidden(target, bound, through, body, number), Nil)))
  }

  function Hidden(target: Name, bound: Expr, through: bool, body: Block, number: nat): Stmt {
    While(Test(Cursor(number), bound, through), Pass(target, body, number), Nil)
  }

  function Pass(target: Name, body: Block, number: nat): Block {
    Cons(Assign(target, Load(Cursor(number))),
      Append(Exits(Advance(number), body), Cons(Advance(number), Nil)))
  }

  /** What it becomes in any other: the first item, behind a test of the bound. */
  function Guarded(target: Name, bound: Expr, through: bool, body: Block): Block {
    Cons(Assign(target, First), Cons(If(Test(target, bound, through), body, Nil), Nil))
  }

  /** The rewriter, numbering the loops it meets as it goes. */
  class Rewriter {
    const strided: bool
    var loops: nat
    var refused: bool

    constructor (strided: bool)
      ensures this.strided == strided && loops == 0 && !refused
    {
      this.strided := strided;
      loops, refused := 0, false;
    }

    method VisitBlock(b: Block) returns (r: Block)
      modifies this
      ensures var v := Visited(strided, b, old(loops));
        r == v.block && loops == v.next && refused == (old(refused) || v.refused)
      decreases b, 1
    {
      match b {
        case Nil => r := Nil;
        case Cons(head, tail) =>
          var one := VisitStmt(head);
          var rest := VisitBlock(tail);
          r := Append(one, rest);
      }
    }

    method VisitStmt(stmt: Stmt) returns (r: Block)
      modifies this
      ensures var v := VisitedStmt(strided, stmt, old(loops));
        r == v.block && loops == v.next && refused == (old(refused) || v.refused)
      decreases stmt, 0
    {
      match stmt {
        case If(test, body, orelse) =>
          var one := VisitBlock(body);
          var two := VisitBlock(orelse);
          r := Cons(If(test, one, two), Nil);
        case While(test, body, orelse) =>
          var one := VisitBlock(body);
          var two := VisitBlock(orelse);
          r := Cons(While(test, one, two), Nil);
        case ForRange(target, count, body, orelse) =>
          var one := VisitBlock(body);
          var two := VisitBlock(orelse);
          r := Cons(ForRange(target, count, one, two), Nil);
        case ForItems(target, bound, through, body) =>
          var inner := VisitBlock(body);
          if strided {
            r := Strided(target, bound, through, inner, loops);
            loops := loops + 1;
          } else {
            r := Guarded(target, bound, through, inner);
            refused := refused || Refused(inner);
          }
        case _ => r := Cons(stmt, Nil);
      }
    }
  }

  lemma RunSingle(launch: Launch, fuel: nat, stmt: Stmt, s: State)
    ensures RunBlock(launch, fuel, Cons(stmt, Nil), s) == Run(launch, fuel, stmt, s)
  {}

  lemma TestDecides(launch: Launch, item: Name, bound: Expr, through: bool, t: State)
    ensures Eval(launch, Test(item, bound, through), t) != 0 <==>
            Within(t.Get(item), Eval(launch, bound, t), through)
  {}

  // ---------------------------------------------------------------- the exits

  /** A result as the loop sees it once every `continue` on its way out has advanced the cursor. */
  function Advancing(launch: Launch, number: nat, r: Result): Result {
    if r.Ended? && r.exit == Continued then Ended(Continued, Advanced(number, r.state)) else r
  }

  function Advanced(number: nat, s: State): State {
    s.Set(Cursor(number), Sum(s.Get(Cursor(number)), s.Get(Stride(number))))
  }

  /** The rewritten continues are exactly those that bind to the loop: a body with the advances put
      in runs as without them, except that it advances once exactly when it is continued. */
  lemma {:induction false} ExitsAdvance(launch: Launch, fuel: nat, number: nat, b: Block, s: State)
    ensures RunBlock(launch, fuel, Exits(Advance(number), b), s)
            == Advancing(launch, number, RunBlock(launch, fuel, b, s))
    decreases fuel, b, 2
  {
    match b
    case Nil =>
    case Cons(head, tail) =>
      var adv := Advance(number);
      if head == Continue {
        var t := Advanced(number, s);
        assert Run(launch, fuel, adv, s) == Ended(Normal, t);
        assert RunBlock(launch, fuel, Cons(Continue, Exits(adv, tail)), t) == Ended(Continued, t);
      } else {
        ExitingAdvances(launch, fuel, number, head, s);
        var r := Run(launch, fuel, head, s);
        if r.Ended? && r.exit == Normal { ExitsAdvance(launch, fuel, number, tail, r.state); }
      }
  }

  lemma {:induction false} ExitingAdvances(launch: Launch, fuel: nat, number: nat, stmt: Stmt, s: State)
    requires stmt != Continue
    ensures Run(launch, fuel, Exiting(Advance(number), stmt), s)
            == Advancing(launch, number, Run(launch, fuel, stmt, s))
    decreases fuel, stmt, 1
  {
    match stmt
    case If(test, body, orelse) =>
      ExitsAdvance(launch, fuel, number, if Eval(launch, test, s) != 0 then body else orelse, s);
    case While(test, body, orelse) =>
      if fuel > 0 {
        if Eval(launch, test, s) == 0 {
          ExitsAdvance(launch, fuel, number, orelse, s);
        } else {
          var r := RunBlock(launch, fuel - 1, body, s);
          if Goes(r) { ExitingAdvances(launch, fuel - 1, number, stmt, r.state); }
        }
      }
    case ForRange(_, count, _, _) => RangeAdvances(launch, fuel, number, stmt, 0, Eval(launch, count, s), s);
    case ForItems(target, bound, through, body) => ItemsNeverContinue(launch, fuel, stmt, launch.first, s);
    case _ =>
  }

  lemma {:induction false} RangeAdvances(launch: Launch, fuel: nat, number: nat, stmt: Stmt, i: int, count: int, s: State)
    requires stmt.ForRange?
    ensures RunRange(launch, fuel, Exiting(Advance(number), stmt), i, count, s)
            == Advancing(launch, number, RunRange(launch, fuel, stmt, i, count, s))
    decreases fuel, stmt, 0
  {
    if fuel > 0 {
      if i >= count {
        ExitsAdvance(launch, fuel, number, stmt.orelse, s);
      } else {
        var r := RunBlock(launch, fuel - 1, stmt.body, s.Set(stmt.target, i));
        if Goes(r) { RangeAdvances(launch, fuel - 1, number, stmt, i + 1, count, r.state); }
      }
    }
  }

  lemma {:induction false} ItemsNeverContinue(launch: Launch, fuel: nat, stmt: Stmt, item: int, s: State)
    requires stmt.ForItems?
    ensures var r := RunItems(launch, fuel, stmt, item, s);
      r.Ended? ==> r.exit == Normal || r.exit == Returned
    decreases fuel
  {
    if fuel > 0 && Within(item, Eval(launch, stmt.bound, s), stmt.through) {
      var r := RunBlock(launch, fuel - 1, stmt.body, s.Set(stmt.target, item));
      if Goes(r) { ItemsNeverContinue(launch, fuel - 1, stmt, Sum(item, launch.stride), r.state); }
    }
  }
}
