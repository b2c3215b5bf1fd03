/** The guard (src/patos/cuda/front/rewrite.py:207-213, 244-278). */
module ItemLoopsGuard {
  // What a kernel that has one item is refused for, and when its guard is the documented loop over the
  // item.

  import opened KernelLanguage
  import opened ItemLoops

  // ---------------------------------------------------------------- an exit of a loop's own

  /** A turn on the way into a block: at which statement, and whether into its `else`. */
  datatype Turn = Turn(at: nat, orelse: bool)

  function Length(b: Block): nat {
    match b
    case Nil => 0
    case Cons(_, tail) => 1 + Length(tail)
  }

  function Nth(b: Block, at: nat): Stmt
    requires at < Length(b)
  {
    if at == 0 then b.head else Nth(b.tail, at - 1)
  }

  /** Whether a way through a loop's body leads to a `break` or `continue` that binds to the loop: it
      turns into branches of an `if`, and of an inner loop into its `else` only. */
  predicate Binds(b: Block, way: seq<Turn>, at: nat)
    decreases |way|
  {
    if |way| == 0 then
      at < Length(b) && (Nth(b, at).Break? || Nth(b, at).Continue?)
    else
      && way[0].at < Length(b)
      && match Nth(b, way[0].at)
         case If(_, body, orelse) => Binds(if way[0].orelse then orelse else body, way[1..], at)
         case While(_, _, orelse) => way[0].orelse && Binds(orelse, way[1..], at)
         case ForRange(_, _, _, orelse) => way[0].orelse && Binds(orelse, way[1..], at)
         case _ => false
  }

  ghost predicate HasExit(b: Block) { exists way, at :: Binds(b, way, at) }

  lemma {:induction false} NthRefused(b: Block, at: nat)
    requires at < Length(b) && RefusedStmt(Nth(b, at))
    ensures Refused(b)
  {
    if at > 0 { NthRefused(b.tail, at - 1); }
  }

  lemma {:induction false} BindsRefused(b: Block, way: seq<Turn>, at: nat)
    requires Binds(b, way, at)
    ensures Refused(b)
    decreases |way|
  {
    if |way| == 0 {
      NthRefused(b, at);
    } else {
      match Nth(b, way[0].at) {
        case If(_, body, orelse) => BindsRefused(if way[0].orelse then orelse else body, way[1..], at);
        case While(_, _, orelse) => BindsRefused(orelse, way[1..], at);
        case ForRange(_, _, _, orelse) => BindsRefused(orelse, way[1..], at);
      }
      NthRefused(b, way[0].at);
    }
  }

  lemma {:induction false} RefusedBinds(b: Block) returns (way: seq<Turn>, at: nat)
    requires Refused(b)
    ensures Binds(b, way, at)
    decreases b
  {
    if RefusedStmt(b.head) {
      way, at := [], 0;
      match b.head {
        case If(_, body, orelse) =>
          var inner;
          inner, at := RefusedBinds(if Refused(body) then body else orelse);
          way := [Turn(0, !Refused(body))] + inner;
          assert way[1..] == inner;
        case While(_, _, orelse) =>
          var inner;
          inner, at := RefusedBinds(orelse);
          way := [Turn(0, true)] + inner;
          assert way[1..] == inner;
        case ForRange(_, _, _, orelse) =>
          var inner;
          inner, at := RefusedBinds(orelse);
          way := [Turn(0, true)] + inner;
          assert way[1..] == inner;
        case _ =>
      }
    } else {
      way, at := RefusedBinds(b.tail);
      if |way| == 0 { at := at + 1; } else { way := way[0 := Turn(way[0].at + 1, way[0].orelse)]; }
    }
  }

  /** The search of a body finds an exit exactly where one binds to its loop. */
  lemma RefusedIffBinds(b: Block)
    ensures Refused(b) <==> HasExit(b)
  {
    if Refused(b) { var way, at := RefusedBinds(b); }
    if HasExit(b) {
      var way, at :| Binds(b, way, at);
      BindsRefused(b, way, at);
    }
  }

  // ---------------------------------------------------------------- and what it does

  const skip := If(Literal(0), Nil, Nil)

  /** The same statements with other tests, counts and bounds, and perhaps with fewer returns. */
  predicate Retold(a: Block, b: Block) {
    match a
    case Nil => b == Nil
    case Cons(head, tail) => b.Cons? && RetoldStmt(head, b.head) && Retold(tail, b.tail)
  }

  predicate RetoldStmt(x: Stmt, y: Stmt) {
    match x
    case If(_, body, orelse) => y.If? && Retold(body, y.body) && Retold(orelse, y.orelse)
    case While(_, body, orelse) => y.While? && Retold(body, y.body) && Retold(orelse, y.orelse)
    case ForRange(target, _, body, orelse) =>
      y.ForRange? && y.target == target && Retold(body, y.body) && Retold(orelse, y.orelse)
    case ForItems(target, _, through, body) =>
      y.ForItems? && y.target == target && y.through == through && Retold(body, y.body)
    case Return => y == Return || y == skip
    case _ => y == x
  }

  lemma {:induction false} RetoldSelf(b: Block)
    ensures Retold(b, b)
  {
    match b
    case Nil =>
    case Cons(head, tail) =>
      RetoldSelf(tail);
      match head {
        case If(_, body, orelse) => RetoldSelf(body); RetoldSelf(orelse);
        case While(_, body, orelse) => RetoldSelf(body); RetoldSelf(orelse);
        case ForRange(_, _, body, orelse) => RetoldSelf(body); RetoldSelf(orelse);
        case ForItems(_, _, _, body) => RetoldSelf(body);
        case _ =>
      }
  }

  lemma {:induction false} RetoldRefused(a: Block, b: Block)
    requires Retold(a, b)
    ensures Refused(a) == Refused(b)
  {
    match a
    case Nil =>
    case Cons(head, tail) =>
      RetoldRefused(tail, b.tail);
      match head {
        case If(_, body, orelse) => RetoldRefused(body, b.head.body); RetoldRefused(orelse, b.head.orelse);
        case While(_, _, orelse) => RetoldRefused(orelse, b.head.orelse);
        case ForRange(_, _, _, orelse) => RetoldRefused(orelse, b.head.orelse);
        case _ =>
      }
  }

  /** Retold to fall through. */
  function Quiet(b: Block): Block {
    match b
    case Nil => Nil
    case Cons(head, tail) => Cons(QuietStmt(head), Quiet(tail))
  }

  function QuietStmt(stmt: Stmt): Stmt {
    match stmt
    case If(_, body, orelse) => If(Literal(0), body, Quiet(orelse))
    case While(_, body, orelse) => While(Literal(0), body, Quiet(orelse))
    case ForRange(target, _, body, orelse) => ForRange(target, Literal(0), body, Quiet(orelse))
    case ForItems(target, _, through, body) => ForItems(target, Literal(-1), through, body)
    case Return => skip
    case _ => stmt
  }

  /** Retold to reach the first exit that binds to the loop. */
  function Reaching(b: Block): Block {
    match b
    case Nil => Nil
    case Cons(head, tail) =>
      if RefusedStmt(head) then Cons(ReachingStmt(head), tail) else Cons(QuietStmt(head), Reaching(tail))
  }

  function ReachingStmt(stmt: Stmt): Stmt {
    match stmt
    case If(_, body, orelse) =>
      if Refused(body) then If(Literal(1), Reaching(body), orelse) else If(Literal(0), body, Reaching(orelse))
    case While(_, body, orelse) => While(Literal(0), body, Reaching(orelse))
    case ForRange(target, _, body, orelse) => ForRange(target, Literal(0), body, Reaching(orelse))
    case _ => stmt
  }

  lemma {:induction false} QuietRetells(b: Block)
    ensures Retold(b, Quiet(b))
  {
    match b
    case Nil =>
    case Cons(head, tail) => QuietStmtRetells(head); QuietRetells(tail);
  }

  lemma {:induction false} QuietStmtRetells(stmt: Stmt)
    ensures RetoldStmt(stmt, QuietStmt(stmt))
  {
    match stmt
    case If(_, body, orelse) => RetoldSelf(body); QuietRetells(orelse);
    case While(_, body, orelse) => RetoldSelf(body); QuietRetells(orelse);
    case ForRange(_, _, body, orelse) => RetoldSelf(body); QuietRetells(orelse);
    case ForItems(_, _, _, body) => RetoldSelf(body);
    case _ =>
  }

  lemma {:induction false} ReachingRetells(b: Block)
    ensures Retold(b, Reaching(b))
  {
    match b
    case Nil =>
    case Cons(head, tail) =>
      if RefusedStmt(head) {
        RetoldSelf(tail);
        match head {
          case If(_, body, orelse) =>
            RetoldSelf(body); RetoldSelf(orelse); ReachingRetells(body); ReachingRetells(orelse);
          case While(_, body, orelse) => RetoldSelf(body); ReachingRetells(orelse);
          case ForRange(_, _, body, orelse) => RetoldSelf(body); ReachingRetells(orelse);
          case _ =>
        }
      } else {
        QuietStmtRetells(head);
        ReachingRetells(tail);
      }
  }

  const anywhere := Launch(0, 1, false)

  lemma {:induction false} QuietFallsThrough(b: Block, s: State)
    requires !Refused(b)
    ensures var r := RunBlock(anywhere, 1, Quiet(b), s); r.Ended? && r.exit == Normal
    decreases b, 1
  {
    match b
    case Nil =>
    case Cons(head, tail) =>
      QuietStmtFallsThrough(head, s);
      QuietFallsThrough(tail, Run(anywhere, 1, QuietStmt(head), s).state);
  }

  lemma {:induction false} QuietStmtFallsThrough(stmt: Stmt, s: State)
    requires !RefusedStmt(stmt)
    ensures var r := Run(anywhere, 1, QuietStmt(stmt), s); r.Ended? && r.exit == Normal
    decreases stmt, 0
  {
    match stmt
    case If(_, _, orelse) => QuietFallsThrough(orelse, s);
    case While(_, _, orelse) => QuietFallsThrough(orelse, s);
    case ForRange(_, _, _, orelse) => QuietFallsThrough(orelse, s);
    case _ =>
  }

  lemma {:induction false} ReachingLeaves(b: Block, s: State)
    requires Refused(b)
    ensures LeavesBy(RunBlock(anywhere, 1, Reaching(b), s))
    decreases b
  {
    if RefusedStmt(b.head) {
      match b.head {
        case If(_, body, orelse) => if Refused(body) { ReachingLeaves(body, s); } else { ReachingLeaves(orelse, s); }
        case While(_, _, orelse) => ReachingLeaves(orelse, s);
        case ForRange(target, _, body, orelse) =>
          ReachingLeaves(orelse, s);
          var retold := ReachingStmt(b.head);
          assert Run(anywhere, 1, retold, s) == RunRange(anywhere, 1, retold, 0, 0, s) == RunBlock(anywhere, 1, Reaching(orelse), s);
        case _ =>
      }
    } else {
      QuietStmtFallsThrough(b.head, s);
      ReachingLeaves(b.tail, Run(anywhere, 1, QuietStmt(b.head), s).state);
    }
  }

  /** A run that ends in a `break` or `continue` of the loop whose body it is. */
  predicate LeavesBy(r: Result) { r.Ended? && (r.exit == Broke || r.exit == Continued) }

  ghost predicate CanLeave(b: Block) {
    exists other: Block, launch: Launch, fuel: nat, s: State ::
      Retold(b, other) && LeavesBy(RunBlock(launch, fuel, other, s))
  }

  /** What is refused is what can leave: a body with some tests, counts and bounds, its returns left
      out, ends by an exit of the loop's own if and only if the search finds one. */
  lemma RefusedIffLeaves(b: Block)
    ensures Refused(b) <==> CanLeave(b)
  {
    if Refused(b) {
      var s := State(map[], map[]);
      ReachingRetells(b);
      ReachingLeaves(b, s);
    }
    if CanLeave(b) {
      var other: Block, launch: Launch, fuel: nat, s: State :|
        Retold(b, other) && LeavesBy(RunBlock(launch, fuel, other, s));
      RetoldRefused(b, other);
      if !Refused(other) { FallsThrough(launch, fuel, other, s); }
    }
  }

  // ---------------------------------------------------------------- what is refused

  /** Whether some loop over items in the source holds an exit of its own. */
  ghost predicate Leaves(b: Block) {
    match b
    case Nil => false
    case Cons(head, tail) => LeavesStmt(head) || Leaves(tail)
  }

  ghost predicate LeavesStmt(stmt: Stmt) {
    match stmt
    case If(_, body, orelse) => Leaves(body) || Leaves(orelse)
    case While(_, body, orelse) => Leaves(body) || Leaves(orelse)
    case ForRange(_, _, body, orelse) => Leaves(body) || Leaves(orelse)
    case ForItems(_, _, _, body) => HasExit(body) || Leaves(body)
    case _ => false
  }

  lemma {:induction false} RefusedAppend(a: Block, b: Block)
    ensures Refused(Append(a, b)) == (Refused(a) || Refused(b))
  {
    match a
    case Nil =>
    case Cons(_, tail) => RefusedAppend(tail, b);
  }

  /** The pass looks for exits in bodies whose inner loops it has already made guards of, and still
      refuses a kernel exactly when one of its loops over items has an exit of its own. */
  lemma {:induction false} RefusesOwnExits(b: Block, loops: nat)
    ensures Visited(false, b, loops).refused == Leaves(b)
    ensures Refused(Visited(false, b, loops).block) ==> Refused(b) || Leaves(b)
    ensures Refused(b) ==> Refused(Visited(false, b, loops).block)
    decreases b, 1
  {
    match b
    case Nil =>
    case Cons(head, tail) =>
      var one := VisitedStmt(false, head, loops);
      RefusesOwnExitsIn(head, loops);
      RefusesOwnExits(tail, one.next);
      RefusedAppend(one.block, Visited(false, tail, one.next).block);
  }

  lemma {:induction false} RefusesOwnExitsIn(stmt: Stmt, loops: nat)
    ensures VisitedStmt(false, stmt, loops).refused == LeavesStmt(stmt)
    ensures Refused(VisitedStmt(false, stmt, loops).block) ==> RefusedStmt(stmt) || LeavesStmt(stmt)
    ensures RefusedStmt(stmt) ==> Refused(VisitedStmt(false, stmt, loops).block)
    decreases stmt, 0
  {
    var v := VisitedStmt(false, stmt, loops);
    if !stmt.ForItems? { RefusedSingle(v.block.head); }
    match stmt
    case If(_, body, orelse) =>
      RefusesOwnExits(body, loops); RefusesOwnExits(orelse, Visited(false, body, loops).next);
    case While(_, body, orelse) =>
      RefusesOwnExits(body, loops); RefusesOwnExits(orelse, Visited(false, body, loops).next);
    case ForRange(_, _, body, orelse) =>
      RefusesOwnExits(body, loops); RefusesOwnExits(orelse, Visited(false, body, loops).next);
    case ForItems(target, bound, through, body) =>
      RefusedIffBinds(body);
      RefusesOwnExits(body, loops);
      var guard := If(Test(target, bound, through), Visited(false, body, loops).block, Nil);
      RefusedSingle(guard);
      assert Refused(v.block) == Refused(Cons(guard, Nil)) && !Refused(Nil);
    case _ =>
  }

  lemma RefusedSingle(stmt: Stmt)
    ensures Refused(Cons(stmt, Nil)) == RefusedStmt(stmt)
  {}

  /** A body with no exit of its own falls through or returns. */
  lemma {:induction false} FallsThrough(launch: Launch, fuel: nat, b: Block, s: State)
    requires !Refused(b)
    ensures var r := RunBlock(launch, fuel, b, s); r.Ended? ==> r.exit == Normal || r.exit == Returned
    decreases fuel, b, 2
  {
    match b
    case Nil =>
    case Cons(head, tail) =>
      FallsThroughStmt(launch, fuel, head, s);
      var r := Run(launch, fuel, head, s);
      if r.Ended? && r.exit == Normal { FallsThrough(launch, fuel, tail, r.state); }
  }

  lemma {:induction false} FallsThroughStmt(launch: Launch, fuel: nat, stmt: Stmt, s: State)
    requires !RefusedStmt(stmt)
    ensures var r := Run(launch, fuel, stmt, s); r.Ended? ==> r.exit == Normal || r.exit == Returned
    decreases fuel, stmt, 1
  {
    match stmt
    case If(test, body, orelse) =>
      FallsThrough(launch, fuel, if Eval(launch, test, s) != 0 then body else orelse, s);
    case While(test, body, orelse) =>
      if fuel > 0 {
        if Eval(launch, test, s) == 0 {
          FallsThrough(launch, fuel, orelse, s);
        } else {
          var r := RunBlock(launch, fuel - 1, body, s);
          if Goes(r) { FallsThroughStmt(launch, fuel - 1, stmt, r.state); }
        }
      }
    case ForRange(_, count, _, _) => RangeFallsThrough(launch, fuel, stmt, 0, Eval(launch, count, s), s);
    case ForItems(_, _, _, _) => ItemsNeverContinue(launch, fuel, stmt, launch.first, s);
    case _ =>
  }

  lemma {:induction false} RangeFallsThrough(launch: Launch, fuel: nat, stmt: Stmt, i: int, count: int, s: State)
    requires stmt.ForRange? && !RefusedStmt(stmt)
    ensures var r := RunRange(launch, fuel, stmt, i, count, s); r.Ended? ==> r.exit == Normal || r.exit == Returned
    decreases fuel, stmt, 0
  {
    if fuel > 0 {
      if i >= count {
        FallsThrough(launch, fuel, stmt.orelse, s);
      } else {
        var r := RunBlock(launch, fuel - 1, stmt.body, s.Set(stmt.target, i));
        if Goes(r) { RangeFallsThrough(launch, fuel - 1, stmt, i + 1, count, r.state); }
      }
    }
  }

  // ---------------------------------------------------------------- one loop, exactly

  ghost predicate SameStates(s: State, t: State) {
    s.memory == t.memory && forall name: Name :: s.Get(name) == t.Get(name)
  }

  ghost predicate SameResults(r: Result, q: Result) {
    match r
    case OutOfFuel => q.OutOfFuel?
    case Ended(exit, s) => q.Ended? && q.exit == exit && SameStates(s, q.state)
  }

  /** The guard runs as the documented loop, whatever its body does. */
  ghost predicate GuardMeansLoop(launch: Launch, target: Name, bound: Expr, through: bool, s: State) {
    forall body: Block, fuel: nat :: !Refused(body) ==> GuardedAsLoop(launch, target, bound, through, body, fuel, s)
  }

  ghost predicate GuardedAsLoop(launch: Launch, target: Name, bound: Expr, through: bool, body: Block, fuel: nat, s: State) {
    SameResults(RunBlock(launch, fuel, Guarded(target, bound, through, body), s),
                Run(launch, fuel, ForItems(target, bound, through, body), s))
  }

  /** What a caller can check before the loop: binding the item first changes neither whether the
      bound admits it nor, where it does not, the name itself. */
  predicate BindingIsHarmless(launch: Launch, target: Name, bound: Expr, through: bool, s: State) {
    var admitted := Within(launch.first, Eval(launch, bound, s), through);
    && admitted == Within(launch.first, Eval(launch, bound, s.Set(target, launch.first)), through)
    && (admitted || s.Get(target) == launch.first)
  }

  lemma GuardRuns(launch: Launch, fuel: nat, target: Name, bound: Expr, through: bool, body: Block, s: State)
    ensures var t := s.Set(target, launch.first);
      RunBlock(launch, fuel, Guarded(target, bound, through, body), s) ==
        if Within(launch.first, Eval(launch, bound, t), through) then RunBlock(launch, fuel, body, t)
        else Ended(Normal, t)
  {
    var t := s.Set(target, launch.first);
    var guard := If(Test(target, bound, through), body, Nil);
    assert Run(launch, fuel, Assign(target, First), s) == Ended(Normal, t);
    RunSingle(launch, fuel, guard, t);
    assert RunBlock(launch, fuel, Guarded(target, bound, through, body), s) == Run(launch, fuel, guard, t);
    TestDecides(launch, target, bound, through, t);
    assert RunBlock(launch, fuel, Nil, t) == Ended(Normal, t);
  }

  /** For every body, the guard runs as the loop over the one item exactly when binding the item
      first is harmless: the rewriting assigns the name before it reads the bound, and assigns it
      even where there is no item. */
  lemma GuardMeansLoopIff(launch: Launch, target: Name, bound: Expr, through: bool, s: State)
    requires !launch.strided
    ensures GuardMeansLoop(launch, target, bound, through, s) <==>
            BindingIsHarmless(launch, target, bound, through, s)
  {
    if BindingIsHarmless(launch, target, bound, through, s) {
      forall body: Block, fuel: nat | !Refused(body)
        ensures GuardedAsLoop(launch, target, bound, through, body, fuel, s)
      {
        GuardRuns(launch, fuel, target, bound, through, body, s);
        FallsThrough(launch, fuel, body, s.Set(target, launch.first));
      }
    }
    if GuardMeansLoop(launch, target, bound, through, s) {
      var body := Cons(Return, Nil);
      assert !Refused(body);
      assert GuardedAsLoop(launch, target, bound, through, body, 0, s);
      GuardRuns(launch, 0, target, bound, through, body, s);
      RunSingle(launch, 0, Return, s.Set(target, launch.first));
      assert s.Set(target, launch.first).Get(target) == launch.first;
    }
  }

  /** `for item in items(item)` where `item` is 5 and the kernel's own item is 3: the documented loop
      has an item, the guard compares 3 with itself and has none. */
  lemma GuardCanDiffer()
    ensures var s := State(map[User("item") := 5], map[]);
      !GuardMeansLoop(Launch(3, 1, false), User("item"), Load(User("item")), false, s)
  {
    var s := State(map[User("item") := 5], map[]);
    GuardMeansLoopIff(Launch(3, 1, false), User("item"), Load(User("item")), false, s);
  }

  // ---------------------------------------------------------------- a whole kernel

  /** An expression that reads no name in `stale`. */
  predicate Reads(e: Expr, stale: set<Name>) {
    match e
    case Load(name) => name !in stale
    case Element(index) => Reads(index, stale)
    case Binary(_, l, r) => Reads(l, stale) && Reads(r, stale)
    case _ => true
  }

  /** The names of the items of a statement's loops over items. */
  function ItemsOf(stmt: Stmt): set<Name> {
    match stmt
    case If(_, body, orelse) => ItemsIn(body) + ItemsIn(orelse)
    case While(_, body, orelse) => ItemsIn(body) + ItemsIn(orelse)
    case ForRange(_, _, body, orelse) => ItemsIn(body) + ItemsIn(orelse)
    case ForItems(target, _, _, body) => {target} + ItemsIn(body)
    case _ => {}
  }

  function ItemsIn(b: Block): set<Name> {
    match b
    case Nil => {}
    case Cons(head, tail) => ItemsOf(head) + ItemsIn(tail)
  }

  /** What may be stale after a statement, where `stale` may before: an items loop leaves its item
      so, an assignment makes a name good again, and a loop may run any number of times. */
  function StaleAfter(stmt: Stmt, stale: set<Name>): set<Name> {
    match stmt
    case Assign(target, _) => stale - {target}
    case If(_, body, orelse) => StaleAfterAll(body, stale) + StaleAfterAll(orelse, stale)
    case While(_, _, _) => stale + ItemsOf(stmt)
    case ForRange(_, _, _, _) => stale + ItemsOf(stmt)
    case ForItems(target, _, _, body) => stale + {target} + StaleAfterAll(body, stale - {target})
    case _ => stale
  }

  function StaleAfterAll(b: Block, stale: set<Name>): set<Name> {
    match b
    case Nil => stale
    case Cons(head, tail) => StaleAfterAll(tail, StaleAfter(head, stale))
  }

  /** Code that reads no item once its loop is over, until the name is assigned again. */
  predicate ReadsItemsInside(stmt: Stmt, stale: set<Name>) {
    match stmt
    case Assign(_, value) => Reads(value, stale)
    case Augment(target, value) => target !in stale && Reads(value, stale)
    case Store(index, value) => Reads(index, stale) && Reads(value, stale)
    case If(test, body, orelse) => Reads(test, stale) && ReadsInside(body, stale) && ReadsInside(orelse, stale)
    case While(test, body, orelse) =>
      && Reads(test, stale + ItemsOf(stmt))
      && ReadsInside(body, stale + ItemsOf(stmt)) && ReadsInside(orelse, stale + ItemsOf(stmt))
    case ForRange(target, count, body, orelse) =>
      && Reads(count, stale)
      && ReadsInside(body, stale + ItemsOf(stmt) - {target}) && ReadsInside(orelse, stale + ItemsOf(stmt))
    case ForItems(target, bound, _, body) => Reads(bound, stale + {target}) && ReadsInside(body, stale - {target})
    case _ => true
  }

  predicate ReadsInside(b: Block, stale: set<Name>) {
    match b
    case Nil => true
    case Cons(head, tail) => ReadsItemsInside(head, stale) && ReadsInside(tail, StaleAfter(head, stale))
  }

  lemma {:induction false} StaleWithin(stmt: Stmt, stale: set<Name>)
    ensures StaleAfter(stmt, stale) <= stale + ItemsOf(stmt)
    decreases stmt, 0
  {
    match stmt
    case If(_, body, orelse) => StaleAllWithin(body, stale); StaleAllWithin(orelse, stale);
    case ForItems(target, _, _, body) => StaleAllWithin(body, stale - {target});
    case _ =>
  }

  lemma {:induction false} StaleAllWithin(b: Block, stale: set<Name>)
    ensures StaleAfterAll(b, stale) <= stale + ItemsIn(b)
    decreases b, 1
  {
    match b
    case Nil =>
    case Cons(head, tail) => StaleWithin(head, stale); StaleAllWithin(tail, StaleAfter(head, stale));
  }

  ghost predicate AlikeBut(stale: set<Name>, s: State, t: State) {
    s.memory == t.memory && forall name: Name :: name !in stale ==> s.Get(name) == t.Get(name)
  }

  /** The same exits, and states alike but for `stale` where they fall through, `more` where not. */
  ghost predicate ResultsAlikeBut(stale: set<Name>, more: set<Name>, r: Result, q: Result) {
    match r
    case OutOfFuel => q.OutOfFuel?
    case Ended(exit, s) =>
      q.Ended? && q.exit == exit && if exit == Normal then AlikeBut(stale, s, q.state) else AlikeBut(more, s, q.state)
  }

  lemma Widened(stale: set<Name>, more: set<Name>, stale': set<Name>, more': set<Name>, r: Result, q: Result)
    requires stale <= stale' && more <= more' && ResultsAlikeBut(stale, more, r, q)
    ensures ResultsAlikeBut(stale', more', r, q)
  {}

  lemma {:induction false} EvalAlikeBut(launch: Launch, e: Expr, stale: set<Name>, s: State, t: State)
    requires Reads(e, stale) && AlikeBut(stale, s, t)
    ensures Eval(launch, e, s) == Eval(launch, e, t)
  {
    match e
    case Element(index) => EvalAlikeBut(launch, index, stale, s, t);
    case Binary(_, l, r) => EvalAlikeBut(launch, l, stale, s, t); EvalAlikeBut(launch, r, stale, s, t);
    case _ =>
  }

  /** A kernel that does not stride, has no exit of its loops' own and reads no item after its loop
      without assigning the name anew runs, rewritten, as written: the same exits, the same memory and
      the same names but for items no longer read. */
  lemma {:induction false} GuardedKernelKeepsMeaning(launch: Launch, fuel: nat, b: Block, loops: nat, stale: set<Name>,
      s: State, t: State)
    requires !launch.strided && ReadsInside(b, stale) && !Leaves(b) && AlikeBut(stale, s, t)
    ensures ResultsAlikeBut(StaleAfterAll(b, stale), stale + ItemsIn(b),
                            RunBlock(launch, fuel, b, s), RunBlock(launch, fuel, Visited(false, b, loops).block, t))
    decreases fuel, b, 3
  {
    match b
    case Nil =>
    case Cons(head, tail) =>
      var one := VisitedStmt(false, head, loops);
      var next := StaleAfter(head, stale);
      RunAppend(launch, fuel, one.block, Visited(false, tail, one.next).block, t);
      GuardedStmtKeepsMeaning(launch, fuel, head, loops, stale, s, t);
      var r, q := Run(launch, fuel, head, s), RunBlock(launch, fuel, one.block, t);
      StaleWithin(head, stale);
      if r.Ended? && r.exit == Normal {
        GuardedKernelKeepsMeaning(launch, fuel, tail, one.next, next, r.state, q.state);
        Widened(StaleAfterAll(b, stale), next + ItemsIn(tail), StaleAfterAll(b, stale), stale + ItemsIn(b),
                RunBlock(launch, fuel, tail, r.state), RunBlock(launch, fuel, Visited(false, tail, one.next).block, q.state));
      }
  }

  lemma {:induction false} GuardedStmtKeepsMeaning(launch: Launch, fuel: nat, stmt: Stmt, loops: nat, stale: set<Name>,
      s: State, t: State)
    requires !launch.strided && ReadsItemsInside(stmt, stale) && !LeavesStmt(stmt) && AlikeBut(stale, s, t)
    ensures ResultsAlikeBut(StaleAfter(stmt, stale), stale + ItemsOf(stmt), Run(launch, fuel, stmt, s),
                            RunBlock(launch, fuel, VisitedStmt(false, stmt, loops).block, t))
    decreases fuel, stmt, 2
  {
    var v := VisitedStmt(false, stmt, loops);
    match stmt
    case Assign(_, value) => EvalAlikeBut(launch, value, stale, s, t);
    case Augment(_, value) => EvalAlikeBut(launch, value, stale, s, t);
    case Store(index, value) =>
      EvalAlikeBut(launch, index, stale, s, t);
      EvalAlikeBut(launch, value, stale, s, t);
    case If(_, _, _) =>
      RunSingle(launch, fuel, v.block.head, t);
      GuardedIf(launch, fuel, stmt, loops, stale, s, t);
    case While(_, _, _) =>
      RunSingle(launch, fuel, v.block.head, t);
      GuardedWhile(launch, fuel, stmt, loops, stale + ItemsOf(stmt), s, t);
    case ForRange(_, count, _, _) =>
      RunSingle(launch, fuel, v.block.head, t);
      EvalAlikeBut(launch, count, stale, s, t);
      GuardedRange(launch, fuel, stmt, loops, 0, Eval(launch, count, s), stale + ItemsOf(stmt), s, t);
    case ForItems(_, _, _, _) => GuardedItems(launch, fuel, stmt, loops, stale, s, t);
    case _ =>
  }

  lemma {:induction false} GuardedIf(launch: Launch, fuel: nat, stmt: Stmt, loops: nat, stale: set<Name>, s: State, t: State)
    requires stmt.If? && !launch.strided && ReadsItemsInside(stmt, stale) && !LeavesStmt(stmt) && AlikeBut(stale, s, t)
    ensures ResultsAlikeBut(StaleAfter(stmt, stale), stale + ItemsOf(stmt), Run(launch, fuel, stmt, s),
                            Run(launch, fuel, VisitedStmt(false, stmt, loops).block.head, t))
    decreases fuel, stmt, 1
  {
    var one := Visited(false, stmt.body, loops);
    EvalAlikeBut(launch, stmt.test, stale, s, t);
    if Eval(launch, stmt.test, s) != 0 {
      GuardedKernelKeepsMeaning(launch, fuel, stmt.body, loops, stale, s, t);
      Widened(StaleAfterAll(stmt.body, stale), stale + ItemsIn(stmt.body), StaleAfter(stmt, stale), stale + ItemsOf(stmt),
              RunBlock(launch, fuel, stmt.body, s), RunBlock(launch, fuel, one.block, t));
    } else {
      GuardedKernelKeepsMeaning(launch, fuel, stmt.orelse, one.next, stale, s, t);
      Widened(StaleAfterAll(stmt.orelse, stale), stale + ItemsIn(stmt.orelse), StaleAfter(stmt, stale), stale + ItemsOf(stmt),
              RunBlock(launch, fuel, stmt.orelse, s), RunBlock(launch, fuel, Visited(false, stmt.orelse, one.next).block, t));
    }
  }

  /** The guard: where there is no item the name is left stale, where there is one the body runs. */
  lemma {:induction false} GuardedItems(launch: Launch, fuel: nat, stmt: Stmt, loops: nat, stale: set<Name>, s: State, t: State)
    requires stmt.ForItems? && !launch.strided
    requires ReadsItemsInside(stmt, stale) && !LeavesStmt(stmt) && AlikeBut(stale, s, t)
    ensures ResultsAlikeBut(StaleAfter(stmt, stale), stale + ItemsOf(stmt), Run(launch, fuel, stmt, s),
                            RunBlock(launch, fuel, VisitedStmt(false, stmt, loops).block, t))
    decreases fuel, stmt, 1
  {
    var inner := Visited(false, stmt.body, loops);
    var inside := stale - {stmt.target};
    var s1, t1 := s.Set(stmt.target, launch.first), t.Set(stmt.target, launch.first);
    assert AlikeBut(stale + {stmt.target}, s, t1) && AlikeBut(inside, s1, t1);
    EvalAlikeBut(launch, stmt.bound, stale + {stmt.target}, s, t1);
    GuardRuns(launch, fuel, stmt.target, stmt.bound, stmt.through, inner.block, t);
    RefusedIffBinds(stmt.body);
    if Within(launch.first, Eval(launch, stmt.bound, s), stmt.through) {
      GuardedKernelKeepsMeaning(launch, fuel, stmt.body, loops, inside, s1, t1);
      FallsThrough(launch, fuel, stmt.body, s1);
      Widened(StaleAfterAll(stmt.body, inside), inside + ItemsIn(stmt.body), StaleAfter(stmt, stale), stale + ItemsOf(stmt),
              RunBlock(launch, fuel, stmt.body, s1), RunBlock(launch, fuel, inner.block, t1));
    } else {
      Widened(stale + {stmt.target}, {}, StaleAfter(stmt, stale), stale + ItemsOf(stmt), Ended(Normal, s), Ended(Normal, t1));
    }
  }

  /** A loop's pass, after which nothing more may be stale than may before. */
  lemma {:induction false} GuardedPass(launch: Launch, fuel: nat, body: Block, loops: nat, stale: set<Name>, more: set<Name>,
      s: State, t: State)
    requires !launch.strided && ReadsInside(body, stale) && !Leaves(body) && AlikeBut(stale, s, t)
    requires stale + ItemsIn(body) <= more
    ensures ResultsAlikeBut(more, more, RunBlock(launch, fuel, body, s),
                            RunBlock(launch, fuel, Visited(false, body, loops).block, t))
    decreases fuel, body, 4
  {
    GuardedKernelKeepsMeaning(launch, fuel, body, loops, stale, s, t);
    StaleAllWithin(body, stale);
    Widened(StaleAfterAll(body, stale), stale + ItemsIn(body), more, more, RunBlock(launch, fuel, body, s),
            RunBlock(launch, fuel, Visited(false, body, loops).block, t));
  }

  lemma {:induction false} GuardedWhile(launch: Launch, fuel: nat, stmt: Stmt, loops: nat, stale: set<Name>, s: State, t: State)
    requires stmt.While? && !launch.strided && ItemsOf(stmt) <= stale && !LeavesStmt(stmt) && AlikeBut(stale, s, t)
    requires Reads(stmt.test, stale) && ReadsInside(stmt.body, stale) && ReadsInside(stmt.orelse, stale)
    ensures ResultsAlikeBut(stale, stale, Run(launch, fuel, stmt, s),
                            Run(launch, fuel, VisitedStmt(false, stmt, loops).block.head, t))
    decreases fuel, stmt, 1
  {
    var one := Visited(false, stmt.body, loops);
    EvalAlikeBut(launch, stmt.test, stale, s, t);
    if fuel > 0 {
      if Eval(launch, stmt.test, s) == 0 {
        GuardedPass(launch, fuel, stmt.orelse, one.next, stale, stale, s, t);
      } else {
        GuardedPass(launch, fuel - 1, stmt.body, loops, stale, stale, s, t);
        var r, q := RunBlock(launch, fuel - 1, stmt.body, s), RunBlock(launch, fuel - 1, one.block, t);
        if Goes(r) { GuardedWhile(launch, fuel - 1, stmt, loops, stale, r.state, q.state); }
      }
    }
  }

  lemma {:induction false} GuardedRange(launch: Launch, fuel: nat, stmt: Stmt, loops: nat, i: int, count: int,
      stale: set<Name>, s: State, t: State)
    requires stmt.ForRange? && !launch.strided && ItemsOf(stmt) <= stale && !LeavesStmt(stmt) && AlikeBut(stale, s, t)
    requires ReadsInside(stmt.body, stale - {stmt.target}) && ReadsInside(stmt.orelse, stale)
    ensures ResultsAlikeBut(stale, stale, RunRange(launch, fuel, stmt, i, count, s),
                            RunRange(launch, fuel, VisitedStmt(false, stmt, loops).block.head, i, count, t))
    decreases fuel, stmt, 1
  {
    var one := Visited(false, stmt.body, loops);
    if fuel > 0 {
      if i >= count {
        GuardedPass(launch, fuel, stmt.orelse, one.next, stale, stale, s, t);
      } else {
        var s1, t1 := s.Set(stmt.target, i), t.Set(stmt.target, i);
        GuardedPass(launch, fuel - 1, stmt.body, loops, stale - {stmt.target}, stale, s1, t1);
        var r, q := RunBlock(launch, fuel - 1, stmt.body, s1), RunBlock(launch, fuel - 1, one.block, t1);
        if Goes(r) { GuardedRange(launch, fuel - 1, stmt, loops, i + 1, count, stale, r.state, q.state); }
      }
    }
  }
}
