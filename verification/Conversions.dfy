/** Conversions (src/patos/cuda/front/rewrite.py:105-190, 289-297). */
module Conversions {
  // The pass puts casts at assignments, unpackings and returns; a function so rewritten means what one
  // whose declarations convert does.

  import opened Integers
  import opened Words

  /** The scalar types, and the packed lanes of a register. */
  datatype Kind = Integer(bits: nat, signed: bool) | Floating(bits: nat) | Packed(name: string)

  const signed64 := Integer(64, true)

  /** A number with the type it has, or a tuple; `number` is an integer's value and the bits of
      any other type's. */
  datatype Value = Number(kind: Kind, number: int) | Many(values: seq<Value>)

  const zero := Number(signed64, 0)

  /** The arithmetic the code runs on: what converting, adding and testing do. Everything below holds
      on any, floats, lanes and rounding included. */
  datatype Unit = Unit(cast: (Kind, Value) -> Value, add: (Value, Value) -> Value, holds: Value -> bool)

  /** Whether `v` is of a type, and so what converting to it once more makes of it. */
  predicate Has(u: Unit, kind: Kind, v: Value) { v.Number? && v.kind == kind && u.cast(kind, v) == v }

  /** A conversion gives a value of its type. */
  ghost predicate Fits(u: Unit) { forall kind: Kind, v: Value :: Has(u, kind, u.cast(kind, v)) }

  function LowBits(bits: nat, signed: bool, n: int): int {
    if signed && n % Pow2(bits) >= (Pow2(bits) + 1) / 2 then n % Pow2(bits) - Pow2(bits) else n % Pow2(bits)
  }

  /** Between integers it keeps the low bits. */
  ghost predicate Wraps(u: Unit) {
    forall bits: nat, signed: bool, v: Value :: v.Number? && v.kind.Integer? ==>
      u.cast(Integer(bits, signed), v) == Number(Integer(bits, signed), LowBits(bits, signed, v.number))
  }

  lemma LowBitsStay(bits: nat, signed: bool, n: int)
    ensures LowBits(bits, signed, LowBits(bits, signed, n)) == LowBits(bits, signed, n)
    ensures LowBits(bits, signed, n) % Pow2(bits) == n % Pow2(bits)
    ensures bits > 0 && signed ==> 0 <= LowBits(bits, signed, n) + Pow2(bits - 1) < Pow2(bits)
    ensures !signed ==> 0 <= LowBits(bits, signed, n) < Pow2(bits)
  {
    var p, r := Pow2(bits), n % Pow2(bits);
    ModUnique(p, r, 0, r);
    ModUnique(p, r - p, -1, r);
  }

  /** There are such conversions. */
  lemma WrapsAndFits() returns (u: Unit)
    ensures Wraps(u) && Fits(u)
  {
    u := Unit((kind: Kind, v: Value) =>
                if v.Number? && v.kind.Integer? && kind.Integer?
                then Number(kind, LowBits(kind.bits, kind.signed, v.number))
                else if v.Number? && v.kind == kind then v else Number(kind, 0),
              (a: Value, b: Value) => zero, (v: Value) => true);
    forall kind: Kind, v: Value ensures Has(u, kind, u.cast(kind, v)) {
      if kind.Integer? && v.Number? { LowBitsStay(kind.bits, kind.signed, v.number); }
      if kind.Integer? { LowBitsStay(kind.bits, kind.signed, 0); }
    }
  }

  /** A name of the author's, or the hidden one an unpacking receives it under. */
  datatype Name = User(id: string) | Received(id: string)

  datatype Expr =
    | Literal(value: Value)
    | Load(name: Name)
    | Element(index: Expr)
    | Sum(left: Expr, right: Expr)
    | Cast(kind: Kind, operand: Expr)
    | Choose(test: Expr, body: Expr, orelse: Expr)
    | Display(elements: seq<Expr>)

  /** What an unpacking stores to: a name, or a slot of memory. */
  datatype Target = Local(name: Name) | Slot(index: Expr)

  datatype Stmt =
    | Assign(target: Name, value: Expr)
    | Declare(target: Name, kind: Kind, initial: seq<Expr>)   // an annotation, with a value or none
    | Augment(target: Name, value: Expr)
    | Store(index: Expr, value: Expr)
    | Unpack(targets: seq<Target>, values: seq<Expr>)
    | If(test: Expr, body: Block, orelse: Block)
    | While(test: Expr, body: Block, orelse: Block)
    | Break
    | Continue
    | Return(value: Expr)

  datatype Block = Nil | Cons(head: Stmt, tail: Block)

  /** What a return declares: a scalar, a tuple of such, or nothing that converts. */
  datatype Returns = Scalar(kind: Kind) | Tuple(parts: seq<Returns>) | Other

  /** What annotations declare: the scalar locals and parameters, and the return. */
  datatype Declared = Declared(locals: map<string, Kind>, result: Returns) {
    function Of(name: Name): seq<Kind> {
      if name.User? && name.id in locals then [locals[name.id]] else []
    }
  }

  /** What a rewritten function declares: its annotations are dropped. */
  const nothing := Declared(map[], Other)

  datatype State = State(vars: map<Name, Value>, memory: map<int, Value>) {
    function Get(name: Name): Value { if name in vars then vars[name] else zero }
    function At(index: Value): Value {
      if index.Number? && index.number in memory then memory[index.number] else zero
    }
  }

  function Eval(u: Unit, e: Expr, s: State): Value {
    match e
    case Literal(v) => v
    case Load(name) => s.Get(name)
    case Element(index) => s.At(Eval(u, index, s))
    case Sum(l, r) => u.add(Eval(u, l, s), Eval(u, r, s))
    case Cast(kind, operand) => u.cast(kind, Eval(u, operand, s))
    case Choose(test, body, orelse) => if u.holds(Eval(u, test, s)) then Eval(u, body, s) else Eval(u, orelse, s)
    case Display(elements) => Many(seq(|elements|, i requires 0 <= i < |elements| => Eval(u, elements[i], s)))
  }

  // ---------------------------------------------------------------- running, as declared

  datatype Exit = Normal | Broke | Continued | Returned(value: Value)

  /** `seen` are the states after each assignment and store, in order. */
  datatype Result = OutOfFuel(seen: seq<State>) | Ended(exit: Exit, state: State, seen: seq<State>)

  /** An assignment converts to the name's declaration, where it has one. */
  function Assigned(u: Unit, d: Declared, name: Name, v: Value, s: State): State {
    s.(vars := s.vars[name := if d.Of(name) == [] then v else u.cast(d.Of(name)[0], v)])
  }

  function Stored(index: Value, v: Value, s: State): State {
    s.(memory := s.memory[(if index.Number? then index.number else 0) := v])
  }

  function AssignedTo(u: Unit, d: Declared, target: Target, v: Value, s: State): State {
    match target
    case Local(name) => Assigned(u, d, name, v, s)
    case Slot(index) => Stored(Eval(u, index, s), v, s)
  }

  /** The states of storing values to targets from left to right, an index read when its turn comes. */
  function Unpacked(u: Unit, d: Declared, targets: seq<Target>, values: seq<Value>, s: State): (seen: seq<State>)
    ensures |seen| == |targets| + 1 && seen[0] == s
  {
    if |targets| == 0 then [s]
    else
      var before := Unpacked(u, d, targets[..|targets| - 1], values, s);
      before + [AssignedTo(u, d, targets[|targets| - 1], ValueAt(values, |targets| - 1), before[|targets| - 1])]
  }

  function ValueAt(values: seq<Value>, i: nat): Value { if i < |values| then values[i] else zero }

  /** A returned value converted to the declaration, part by part. */
  function ReturnedAs(u: Unit, result: Returns, v: Value): Value {
    match result
    case Scalar(kind) => u.cast(kind, v)
    case Tuple(parts) =>
      if v.Many? && |v.values| == |parts|
      then Many(seq(|parts|, i requires 0 <= i < |parts| => ReturnedAs(u, parts[i], v.values[i])))
      else v
    case Other => v
  }

  function One(s: State): Result { Ended(Normal, s, [s]) }

  function Behind(seen: seq<State>, r: Result): Result {
    match r
    case OutOfFuel(after) => OutOfFuel(seen + after)
    case Ended(exit, s, after) => Ended(exit, s, seen + after)
  }

  function RunBlock(u: Unit, d: Declared, fuel: nat, b: Block, s: State): Result
    decreases fuel, b, 1
  {
    match b
    case Nil => Ended(Normal, s, [])
    case Cons(head, tail) =>
      var r := Run(u, d, fuel, head, s);
      if r.Ended? && r.exit == Normal then Behind(r.seen, RunBlock(u, d, fuel, tail, r.state)) else r
  }

  function Run(u: Unit, d: Declared, fuel: nat, stmt: Stmt, s: State): Result
    decreases fuel, stmt, 0
  {
    match stmt
    case Assign(target, value) => One(Assigned(u, d, target, Eval(u, value, s), s))
    case Declare(target, _, initial) =>
      if |initial| == 0 then Ended(Normal, s, []) else One(Assigned(u, d, target, Eval(u, initial[0], s), s))
    case Augment(target, value) => One(Assigned(u, d, target, u.add(s.Get(target), Eval(u, value, s)), s))
    case Store(index, value) => One(Stored(Eval(u, index, s), Eval(u, value, s), s))
    case Unpack(targets, values) =>
      var seen := Unpacked(u, d, targets, Evaluated(u, values, s), s);
      Ended(Normal, seen[|targets|], seen[1..])
    case If(test, body, orelse) => RunBlock(u, d, fuel, if u.holds(Eval(u, test, s)) then body else orelse, s)
    case While(test, body, orelse) =>
      if fuel == 0 then OutOfFuel([])
      else if !u.holds(Eval(u, test, s)) then RunBlock(u, d, fuel, orelse, s)
      else
        var r := RunBlock(u, d, fuel - 1, body, s);
        if r.Ended? && (r.exit == Normal || r.exit == Continued) then Behind(r.seen, Run(u, d, fuel - 1, stmt, r.state))
        else if r.Ended? && r.exit == Broke then Ended(Normal, r.state, r.seen)
        else r
    case Break => Ended(Broke, s, [])
    case Continue => Ended(Continued, s, [])
    case Return(value) => Ended(Returned(ReturnedAs(u, d.result, Eval(u, value, s))), s, [])
  }

  function Evaluated(u: Unit, values: seq<Expr>, s: State): (r: seq<Value>)
    ensures |r| == |values|
  {
    seq(|values|, i requires 0 <= i < |values| => Eval(u, values[i], s))
  }

  // ---------------------------------------------------------------- the pass

  /** A cast put on the leaves of a conditional, however deep, and on nothing above them. */
  function Casting(kind: Kind, value: Expr): Expr {
    match value
    case Choose(test, body, orelse) => Choose(test, Casting(kind, body), Casting(kind, orelse))
    case _ => Cast(kind, value)
  }

  function Assigning(d: Declared, target: Name, value: Expr): Stmt {
    Assign(target, if d.Of(target) == [] then value else Casting(d.Of(target)[0], value))
  }

  /** A returned expression converted through nested tuple displays. */
  function Returning(result: Returns, value: Expr): Expr {
    match result
    case Scalar(kind) => Casting(kind, value)
    case Tuple(parts) =>
      if value.Display? && |value.elements| == |parts|
      then Display(seq(|parts|, i requires 0 <= i < |parts| => Returning(parts[i], value.elements[i])))
      else value
    case Other => value
  }

  predicate IsDeclared(d: Declared, target: Target) { target.Local? && d.Of(target.name) != [] }

  /** The targets of an unpacking, a declared name received under its hidden one. */
  function Receiving(d: Declared, targets: seq<Target>): (r: seq<Target>)
    ensures |r| == |targets|
  {
    seq(|targets|, i requires 0 <= i < |targets| =>
      if IsDeclared(d, targets[i]) then Local(Received(targets[i].name.id)) else targets[i])
  }

  /** The conversions that follow it, in order. */
  function Converting(d: Declared, targets: seq<Target>): Block {
    if |targets| == 0 then Nil
    else
      var rest := Converting(d, targets[1..]);
      if IsDeclared(d, targets[0])
      then Cons(Assigning(d, targets[0].name, Load(Received(targets[0].name.id))), rest)
      else rest
  }

  function Append(a: Block, b: Block): Block {
    match a
    case Nil => b
    case Cons(head, tail) => Cons(head, Append(tail, b))
  }

  function Rewritten(d: Declared, b: Block): Block {
    match b
    case Nil => Nil
    case Cons(head, tail) => Append(RewrittenStmt(d, head), Rewritten(d, tail))
  }

  function RewrittenStmt(d: Declared, stmt: Stmt): Block {
    match stmt
    case Assign(target, value) => Cons(Assigning(d, target, value), Nil)
    case Declare(target, _, initial) =>
      if |initial| == 0 then Nil else Cons(Assigning(d, target, initial[0]), Nil)
    case Augment(target, value) =>
      if d.Of(target) == [] then Cons(stmt, Nil) else Cons(Assigning(d, target, Sum(Load(target), value)), Nil)
    case Unpack(targets, values) =>
      if exists i :: 0 <= i < |targets| && IsDeclared(d, targets[i])
      then Cons(Unpack(Receiving(d, targets), values), Converting(d, targets))
      else Cons(stmt, Nil)
    case If(test, body, orelse) => Cons(If(test, Rewritten(d, body), Rewritten(d, orelse)), Nil)
    case While(test, body, orelse) => Cons(While(test, Rewritten(d, body), Rewritten(d, orelse)), Nil)
    case Return(value) => Cons(Return(Returning(d.result, value)), Nil)
    case _ => Cons(stmt, Nil)
  }

  // ---------------------------------------------------------------- casts

  /** Casting the leaves evaluates to the cast of the whole. */
  lemma {:induction false} CastingConverts(u: Unit, kind: Kind, value: Expr, s: State)
    ensures Eval(u, Casting(kind, value), s) == u.cast(kind, Eval(u, value, s))
  {
    match value
    case Choose(_, body, orelse) => CastingConverts(u, kind, body, s); CastingConverts(u, kind, orelse, s);
    case _ =>
  }

  /** Whether an expression is written so that a return can convert it: a tuple where a tuple is
      declared, as the checks before the pass require. */
  predicate Displays(result: Returns, value: Expr) {
    match result
    case Tuple(parts) =>
      value.Display? && |value.elements| == |parts| && forall i :: 0 <= i < |parts| ==> Displays(parts[i], value.elements[i])
    case _ => true
  }

  predicate HasReturned(u: Unit, result: Returns, v: Value) {
    match result
    case Scalar(kind) => Has(u, kind, v)
    case Tuple(parts) => v.Many? && |v.values| == |parts| && forall i :: 0 <= i < |parts| ==> HasReturned(u, parts[i], v.values[i])
    case Other => true
  }

  /** A rewritten return is element by element in the declared types, and is the conversion. */
  lemma {:induction false} ReturningConverts(u: Unit, result: Returns, value: Expr, s: State)
    requires Displays(result, value)
    ensures Eval(u, Returning(result, value), s) == ReturnedAs(u, result, Eval(u, value, s))
    ensures Fits(u) ==> HasReturned(u, result, Eval(u, Returning(result, value), s))
  {
    match result
    case Scalar(kind) => CastingConverts(u, kind, value, s);
    case Tuple(parts) =>
      var display := Returning(result, value);
      forall i | 0 <= i < |parts|
        ensures Eval(u, display.elements[i], s) == ReturnedAs(u, parts[i], Eval(u, value.elements[i], s))
        ensures Fits(u) ==> HasReturned(u, parts[i], Eval(u, display.elements[i], s))
      {
        ReturningConverts(u, parts[i], value.elements[i], s);
      }
      assert Eval(u, display, s).values == ReturnedAs(u, result, Eval(u, value, s)).values;
    case Other =>
  }
}
