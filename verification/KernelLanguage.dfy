/** The statements a kernel's loops are made of, and what running them means
    (src/patos/cuda/front/items.py:12-27 for the loops over items). */
module KernelLanguage {
  import opened Integers

  /** A name the kernel's author wrote, or one of the hidden names a rewritten loop binds. */
  datatype Name = User(id: string) | Cursor(number: nat) | Stride(number: nat)

  datatype Operator = Plus | Minus | Times | Less | AtMost | Equals

  /** `First` and `Step` are the launch's own numbers, read by a call; `Element` reads memory. */
  datatype Expr =
    | Literal(value: int)
    | Load(name: Name)
    | Element(index: Expr)
    | Binary(op: Operator, left: Expr, right: Expr)
    | First
    | Step

  datatype Stmt =
    | Assign(target: Name, value: Expr)
    | Augment(target: Name, value: Expr)
    | Store(index: Expr, value: Expr)
    | If(test: Expr, body: Block, orelse: Block)
    | While(test: Expr, body: Block, orelse: Block)
    | ForRange(target: Name, count: Expr, body: Block, orelse: Block)
    | ForItems(target: Name, bound: Expr, through: bool, body: Block)
    | Break
    | Continue
    | Return

  datatype Block = Nil | Cons(head: Stmt, tail: Block)

  function Append(a: Block, b: Block): Block {
    match a
    case Nil => b
    case Cons(head, tail) => Cons(head, Append(tail, b))
  }

  /** What a launch gives a thread, warp or block: its first item, and the step to its next one in a
      kernel that strides. */
  datatype Launch = Launch(first: int, stride: int, strided: bool)

  datatype State = State(vars: map<Name, int>, memory: map<int, int>) {
    function Get(name: Name): int { if name in vars then vars[name] else 0 }
    function Set(name: Name, value: int): State { this.(vars := vars[name := value]) }
    function At(index: int): int { if index in memory then memory[index] else 0 }
  }

  /** How a statement ends: by falling through, or by an exit on its way to what it leaves. */
  datatype Exit = Normal | Broke | Continued | Returned

  datatype Result = OutOfFuel | Ended(exit: Exit, state: State)

  /** Numba adds two 64-bit integers around their range. */
  function Sum(a: int, b: int): int { ToI64(a + b) }

  function Applied(op: Operator, a: int, b: int): int {
    match op
    case Plus => Sum(a, b)
    case Minus => ToI64(a - b)
    case Times => ToI64(a * b)
    case Less => if a < b then 1 else 0
    case AtMost => if a <= b then 1 else 0
    case Equals => if a == b then 1 else 0
  }

  function Eval(launch: Launch, e: Expr, s: State): int {
    match e
    case Literal(v) => v
    case Load(name) => s.Get(name)
    case Element(index) => s.At(Eval(launch, index, s))
    case Binary(op, l, r) => Applied(op, Eval(launch, l, s), Eval(launch, r, s))
    case First => launch.first
    case Step => launch.stride
  }

  /** Whether an item is below a bound, or up to and including it. */
  predicate Within(item: int, bound: int, through: bool) {
    if through then item <= bound else item < bound
  }

  /** Each pass of a loop runs with one unit of fuel less, so that every loop runs out or ends. */
  function RunBlock(launch: Launch, fuel: nat, b: Block, s: State): Result
    decreases fuel, b, 2
  {
    match b
    case Nil => Ended(Normal, s)
    case Cons(head, tail) =>
      var r := Run(launch, fuel, head, s);
      if r.Ended? && r.exit == Normal then RunBlock(launch, fuel, tail, r.state) else r
  }

  function Run(launch: Launch, fuel: nat, stmt: Stmt, s: State): Result
    decreases fuel, stmt, 1
  {
    match stmt
    case Assign(target, value) => Ended(Normal, s.Set(target, Eval(launch, value, s)))
    case Augment(target, value) =>
      Ended(Normal, s.Set(target, Sum(s.Get(target), Eval(launch, value, s))))
    case Store(index, value) =>
      Ended(Normal, s.(memory := s.memory[Eval(launch, index, s) := Eval(launch, value, s)]))
    case If(test, body, orelse) => RunBlock(launch, fuel, if Eval(launch, test, s) != 0 then body else orelse, s)
    case While(test, body, orelse) =>
      if fuel == 0 then OutOfFuel
      else if Eval(launch, test, s) == 0 then RunBlock(launch, fuel, orelse, s)
      else
        var r := RunBlock(launch, fuel - 1, body, s);
        if Goes(r) then Run(launch, fuel - 1, stmt, r.state) else Left(r)
    case ForRange(_, count, _, _) => RunRange(launch, fuel, stmt, 0, Eval(launch, count, s), s)
    case ForItems(target, bound, through, body) =>
      if launch.strided then RunItems(launch, fuel, stmt, launch.first, s)
      else if !Within(launch.first, Eval(launch, bound, s), through) then Ended(Normal, s)
      else
        var r := RunBlock(launch, fuel, body, s.Set(target, launch.first));
        if Goes(r) then Ended(Normal, r.state) else Left(r)
    case Break => Ended(Broke, s)
    case Continue => Ended(Continued, s)
    case Return => Ended(Returned, s)
  }

  /** Whether a pass that ended so is followed by another. */
  predicate Goes(r: Result) { r.Ended? && (r.exit == Normal || r.exit == Continued) }

  /** How a loop ends that a pass has left: a `break` goes no further, a `return` does. */
  function Left(r: Result): Result {
    if r.Ended? && r.exit == Broke then Ended(Normal, r.state) else r
  }

  /** `for target in range(count)` from `i`, whose count was read once. */
  function RunRange(launch: Launch, fuel: nat, stmt: Stmt, i: int, count: int, s: State): Result
    requires stmt.ForRange?
    decreases fuel, stmt, 0
  {
    if fuel == 0 then OutOfFuel
    else if i >= count then RunBlock(launch, fuel, stmt.orelse, s)
    else
      var r := RunBlock(launch, fuel - 1, stmt.body, s.Set(stmt.target, i));
      if Goes(r) then RunRange(launch, fuel - 1, stmt, i + 1, count, r.state) else Left(r)
  }

  /** The loop over items as its documentation puts it: the kernel's own item and every one a stride
      after it, the bound read again at each pass, whatever the body makes of the item's name. */
  function RunItems(launch: Launch, fuel: nat, stmt: Stmt, item: int, s: State): Result
    requires stmt.ForItems?
    decreases fuel, stmt, 0
  {
    if fuel == 0 then OutOfFuel
    else if !Within(item, Eval(launch, stmt.bound, s), stmt.through) then Ended(Normal, s)
    else
      var r := RunBlock(launch, fuel - 1, stmt.body, s.Set(stmt.target, item));
      if Goes(r) then RunItems(launch, fuel - 1, stmt, Sum(item, launch.stride), r.state) else Left(r)
  }

  // ---------------------------------------------------------------- what the author may write

  predicate SourceExpr(e: Expr) {
    match e
    case Literal(_) => true
    case Load(name) => name.User?
    case Element(index) => SourceExpr(index)
    case Binary(_, l, r) => SourceExpr(l) && SourceExpr(r)
    case First => false
    case Step => false
  }

  predicate Source(stmt: Stmt) {
    match stmt
    case Assign(target, value) => target.User? && SourceExpr(value)
    case Augment(target, value) => target.User? && SourceExpr(value)
    case Store(index, value) => SourceExpr(index) && SourceExpr(value)
    case If(test, body, orelse) => SourceExpr(test) && SourceBlock(body) && SourceBlock(orelse)
    case While(test, body, orelse) => SourceExpr(test) && SourceBlock(body) && SourceBlock(orelse)
    case ForRange(target, count, body, orelse) =>
      target.User? && SourceExpr(count) && SourceBlock(body) && SourceBlock(orelse)
    case ForItems(target, bound, _, body) => target.User? && SourceExpr(bound) && SourceBlock(body)
    case _ => true
  }

  predicate SourceBlock(b: Block) {
    match b
    case Nil => true
    case Cons(head, tail) => Source(head) && SourceBlock(tail)
  }

  lemma {:induction false} RunAppend(launch: Launch, fuel: nat, a: Block, b: Block, s: State)
    ensures RunBlock(launch, fuel, Append(a, b), s) ==
      var r := RunBlock(launch, fuel, a, s);
      if r.Ended? && r.exit == Normal then RunBlock(launch, fuel, b, r.state) else r
  {
    match a
    case Nil =>
    case Cons(head, tail) =>
      var r := Run(launch, fuel, head, s);
      if r.Ended? && r.exit == Normal { RunAppend(launch, fuel, tail, b, r.state); }
  }
}
