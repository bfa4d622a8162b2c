/**
 * Metric formulas and their evaluator.
 *
 * Formulas start as syntax trees: parsing the formula text is not modelled.
 */
module Formulas {
  import opened Wrappers

  datatype UnaryOp = Minus | Plus | OtherUnary

  datatype BinaryOp = Add | Sub | Mult | Div | OtherBinary

  datatype Expr =
    | Num(value: real)
    | NonNumeric                 // a constant that is not a number
    | Name(id: string)
    | Unary(uop: UnaryOp, operand: Expr)
    | Binary(bop: BinaryOp, left: Expr, right: Expr)
    | Call(func: Expr, args: seq<Expr>, keywords: seq<Expr>)
    | IfExp(test: Expr, body: Expr, orelse: Expr)
    | Attribute(of: Expr)
    | Other(parts: seq<Expr>)    // any other syntax

  /** A missing number is None: division by zero, or an operand that is itself missing. */
  type Number = Option<real>

  datatype EvalError = UnknownVariable(name: string) | Unsupported

  type Outcome = Result<Number, EvalError>

  const ABS := "abs"

  const PYTHON_BUILTINS: set<string> :=
    {"abs", "round", "min", "max", "sum", "len", "int", "float", "bool"}

  // ---------------------------------------------------------------------
  // Names
  // ---------------------------------------------------------------------

  function Names(e: Expr): set<string>
    decreases e
  {
    match e
    case Num(_) | NonNumeric => {}
    case Name(id) => {id}
    case Unary(_, x) => Names(x)
    case Binary(_, x, y) => Names(x) + Names(y)
    case Call(f, args, kws) => Names(f) + NamesOf(args) + NamesOf(kws)
    case IfExp(t, x, y) => Names(t) + Names(x) + Names(y)
    case Attribute(x) => Names(x)
    case Other(parts) => NamesOf(parts)
  }

  function NamesOf(es: seq<Expr>): set<string>
    decreases es
  {
    if es == [] then {} else Names(es[0]) + NamesOf(es[1..])
  }

  /** The metric keys a formula refers to. */
  function MetricRefs(e: Expr): set<string>
  {
    Names(e) - PYTHON_BUILTINS
  }

  /** A variable on its own refers to the metric of its name, unless it is called like one of nine builtins. */
  lemma VariableRefersUnlessBuiltin(name: string)
    ensures MetricRefs(Name(name)) ==
      if name in {"abs", "round", "min", "max", "sum", "len", "int", "float", "bool"} then {} else {name}
  {
  }

  predicate HasAttribute(e: Expr)
    decreases e
  {
    match e
    case Num(_) | NonNumeric | Name(_) => false
    case Unary(_, x) => HasAttribute(x)
    case Binary(_, x, y) => HasAttribute(x) || HasAttribute(y)
    case Call(f, args, kws) => HasAttribute(f) || AnyAttribute(args) || AnyAttribute(kws)
    case IfExp(t, x, y) => HasAttribute(t) || HasAttribute(x) || HasAttribute(y)
    case Attribute(_) => true
    case Other(parts) => AnyAttribute(parts)
  }

  predicate AnyAttribute(es: seq<Expr>)
    decreases es
  {
    es != [] && (HasAttribute(es[0]) || AnyAttribute(es[1..]))
  }

  // ---------------------------------------------------------------------
  // Evaluation
  // ---------------------------------------------------------------------

  /** How a formula reads a variable. */
  type Reader = string -> Outcome

  /** Reads from a row of named numbers; a name the row does not hold is an error. */
  function RowReader(row: map<string, Number>): Reader
  {
    n => if n in row then Ok(row[n]) else Err(UnknownVariable(n))
  }

  function Combine(op: BinaryOp, x: real, y: real): Outcome
  {
    match op
    case Add => Ok(Some(x + y))
    case Sub => Ok(Some(x - y))
    case Mult => Ok(Some(x * y))
    case Div => if y == 0.0 then Ok(None) else Ok(Some(x / y))
    case OtherBinary => Err(Unsupported)
  }

  /** Truthy means present and not zero. */
  predicate Truthy(v: Number)
  {
    v.Some? && v.value != 0.0
  }

  function EvalNode(e: Expr, read: Reader): Outcome
    decreases e
  {
    match e
    case Num(v) => Ok(Some(v))
    case NonNumeric => Err(Unsupported)
    case Name(id) => read(id)
    case Unary(op, x) =>
      if op.OtherUnary? then Err(Unsupported) else
      var v := EvalNode(x, read);
      if op.Minus? && v.Ok? && v.value.Some? then Ok(Some(-v.value.value)) else v
    case Binary(op, x, y) =>
      var l := EvalNode(x, read);
      if l.Err? then l else
      var r := EvalNode(y, read);
      if r.Err? then r else
      if l.value.None? || r.value.None? then Ok(None)
      else Combine(op, l.value.value, r.value.value)
    case Call(f, args, kws) =>
      if f != Name(ABS) || |args| != 1 || kws != [] then Err(Unsupported) else
      var v := EvalNode(args[0], read);
      if v.Ok? && v.value.Some? && v.value.value < 0.0 then Ok(Some(-v.value.value)) else v
    case IfExp(t, x, y) =>
      var v := EvalNode(t, read);
      if v.Err? then v else
      if Truthy(v.value) then EvalNode(x, read) else EvalNode(y, read)
    case Attribute(_) => Err(Unsupported)
    case Other(_) => Err(Unsupported)
  }

  /** The public evaluator: attribute access anywhere is refused before anything is read. */
  function EvaluateExpression(e: Expr, read: Reader): Outcome
  {
    if HasAttribute(e) then Err(Unsupported) else EvalNode(e, read)
  }

  // ---------------------------------------------------------------------
  // Laws of evaluation
  // ---------------------------------------------------------------------

  /** Only the variables a formula names can influence it. */
  lemma {:induction false} ReadsOnlyNames(e: Expr, r: Reader, s: Reader)
    requires forall n | n in Names(e) :: r(n) == s(n)
    ensures EvalNode(e, r) == EvalNode(e, s)
    decreases e
  {
    match e
    case Num(_) | NonNumeric | Name(_) | Attribute(_) | Other(_) =>
    case Unary(_, x) =>
      ReadsOnlyNames(x, r, s);
    case Binary(_, x, y) =>
      ReadsOnlyNames(x, r, s);
      ReadsOnlyNames(y, r, s);
    case Call(f, args, _) =>
      if |args| == 1 {
        assert NamesOf(args) == Names(args[0]) + NamesOf(args[1..]);
        ReadsOnlyNames(args[0], r, s);
      }
    case IfExp(t, x, y) =>
      ReadsOnlyNames(t, r, s);
      ReadsOnlyNames(x, r, s);
      ReadsOnlyNames(y, r, s);
  }

  /** Supported syntax: numbers, variables, signs, + - * /, abs of one argument, conditionals. */
  predicate Supported(e: Expr)
    decreases e
  {
    match e
    case Num(_) | Name(_) => true
    case Unary(op, x) => !op.OtherUnary? && Supported(x)
    case Binary(op, x, y) => !op.OtherBinary? && Supported(x) && Supported(y)
    case Call(f, args, kws) => f == Name(ABS) && |args| == 1 && kws == [] && Supported(args[0])
    case IfExp(t, x, y) => Supported(t) && Supported(x) && Supported(y)
    case _ => false
  }

  /** The branch a conditional takes; a missing or zero test takes the second. */
  function Taken(e: Expr, read: Reader): Expr
    requires e.IfExp?
  {
    var v := EvalNode(e.test, read);
    if v.Ok? && Truthy(v.value) then e.body else e.orelse
  }

  /** The variables evaluation reads: a branch not taken is not read. */
  function Reached(e: Expr, read: Reader): set<string>
    requires Supported(e)
    decreases e
  {
    match e
    case Num(_) => {}
    case Name(id) => {id}
    case Unary(_, x) => Reached(x, read)
    case Binary(_, x, y) => Reached(x, read) + Reached(y, read)
    case Call(_, args, _) => Reached(args[0], read)
    case IfExp(t, x, y) =>
      Reached(t, read) + if Taken(e, read) == x then Reached(x, read) else Reached(y, read)
  }

  /** The variables whose absence makes the result missing: not those only tested. */
  function Carried(e: Expr, read: Reader): set<string>
    requires Supported(e)
    decreases e
  {
    match e
    case Num(_) => {}
    case Name(id) => {id}
    case Unary(_, x) => Carried(x, read)
    case Binary(_, x, y) => Carried(x, read) + Carried(y, read)
    case Call(_, args, _) => Carried(args[0], read)
    case IfExp(t, x, y) => if Taken(e, read) == x then Carried(x, read) else Carried(y, read)
  }

  /** Some division the result is built from has a divisor that is zero. */
  predicate DividesByZero(e: Expr, read: Reader)
    requires Supported(e)
    decreases e
  {
    match e
    case Num(_) | Name(_) => false
    case Unary(_, x) => DividesByZero(x, read)
    case Binary(op, x, y) =>
      || DividesByZero(x, read) || DividesByZero(y, read)
      || (op.Div? && EvalNode(y, read) == Ok(Some(0.0)))
    case Call(_, args, _) => DividesByZero(args[0], read)
    case IfExp(t, x, y) => if Taken(e, read) == x then DividesByZero(x, read) else DividesByZero(y, read)
  }

  /** The variables a formula could read; the name of the called function is not one. */
  function Variables(e: Expr): set<string>
    requires Supported(e)
    decreases e
  {
    match e
    case Num(_) => {}
    case Name(id) => {id}
    case Unary(_, x) => Variables(x)
    case Binary(_, x, y) => Variables(x) + Variables(y)
    case Call(_, args, _) => Variables(args[0])
    case IfExp(t, x, y) => Variables(t) + Variables(x) + Variables(y)
  }

  lemma {:induction false} ReachedAreVariables(e: Expr, read: Reader)
    requires Supported(e)
    ensures Reached(e, read) <= Variables(e)
    decreases e
  {
    match e
    case Num(_) | Name(_) =>
    case Unary(_, x) => ReachedAreVariables(x, read);
    case Binary(_, x, y) =>
      ReachedAreVariables(x, read);
      ReachedAreVariables(y, read);
    case Call(_, args, _) => ReachedAreVariables(args[0], read);
    case IfExp(t, x, y) =>
      ReachedAreVariables(t, read);
      ReachedAreVariables(x, read);
      ReachedAreVariables(y, read);
  }

  lemma {:induction false} SupportedHasNoAttribute(e: Expr)
    requires Supported(e)
    ensures !HasAttribute(e)
    decreases e
  {
    match e
    case Num(_) | Name(_) =>
    case Unary(_, x) => SupportedHasNoAttribute(x);
    case Binary(_, x, y) =>
      SupportedHasNoAttribute(x);
      SupportedHasNoAttribute(y);
    case Call(f, args, kws) =>
      SupportedHasNoAttribute(args[0]);
      assert !AnyAttribute(args[1..]) && !AnyAttribute(args) && !HasAttribute(f) && !AnyAttribute(kws);
    case IfExp(t, x, y) =>
      SupportedHasNoAttribute(t);
      SupportedHasNoAttribute(x);
      SupportedHasNoAttribute(y);
  }

  /** Supported syntax over known variables always evaluates. */
  lemma KnownVariablesEvaluate(e: Expr, read: Reader)
    requires Supported(e)
    requires forall n | n in Variables(e) :: read(n).Ok?
    ensures EvaluateExpression(e, read) == EvalNode(e, read) && EvalNode(e, read).Ok?
  {
    SupportedHasNoAttribute(e);
    ReachedAreVariables(e, read);
    FailsOnUnknownOnly(e, read);
  }

  /** Evaluation of supported syntax fails only when it reads an unknown variable. */
  lemma {:induction false} FailsOnUnknownOnly(e: Expr, read: Reader)
    requires Supported(e)
    requires forall n | n in Reached(e, read) :: read(n).Ok?
    ensures EvalNode(e, read).Ok?
    decreases e
  {
    match e
    case Num(_) | Name(_) =>
    case Unary(_, x) => FailsOnUnknownOnly(x, read);
    case Binary(_, x, y) =>
      FailsOnUnknownOnly(x, read);
      FailsOnUnknownOnly(y, read);
    case Call(_, args, _) => FailsOnUnknownOnly(args[0], read);
    case IfExp(t, x, y) =>
      FailsOnUnknownOnly(t, read);
      FailsOnUnknownOnly(if Taken(e, read) == x then x else y, read);
  }

  /**
   * None propagates, division by zero gives None, and nothing else does: over known
   * variables the result is missing exactly when a carried variable is, or a divisor is zero.
   */
  lemma {:induction false} NoneExactly(e: Expr, read: Reader)
    requires Supported(e)
    requires forall n | n in Reached(e, read) :: read(n).Ok?
    ensures EvalNode(e, read).Ok?
    ensures EvalNode(e, read).value.None? <==>
      (exists n :: n in Carried(e, read) && read(n) == Ok(None)) || DividesByZero(e, read)
    decreases e
  {
    FailsOnUnknownOnly(e, read);
    match e
    case Num(_) | Name(_) =>
    case Unary(_, x) => NoneExactly(x, read);
    case Binary(_, x, y) =>
      NoneExactly(x, read);
      NoneExactly(y, read);
    case Call(_, args, _) => NoneExactly(args[0], read);
    case IfExp(t, x, y) =>
      FailsOnUnknownOnly(t, read);
      NoneExactly(if Taken(e, read) == x then x else y, read);
  }

  // ---------------------------------------------------------------------
  // Formulas as real functions
  // ---------------------------------------------------------------------

  /** The number a formula stands for, when every variable stands for one. */
  function RealValue(e: Expr, env: map<string, real>): real
    requires Supported(e) && Variables(e) <= env.Keys
    decreases e
  {
    match e
    case Num(v) => v
    case Name(id) => env[id]
    case Unary(op, x) => if op.Minus? then 0.0 - RealValue(x, env) else RealValue(x, env)
    case Binary(op, x, y) =>
      var l, r := RealValue(x, env), RealValue(y, env);
      if op.Add? then l + r
      else if op.Sub? then l - r
      else if op.Mult? then l * r
      else if r == 0.0 then 0.0 else l / r
    case Call(_, args, _) =>
      var v := RealValue(args[0], env);
      if v >= 0.0 then v else 0.0 - v
    case IfExp(t, x, y) => if RealValue(t, env) == 0.0 then RealValue(y, env) else RealValue(x, env)
  }

  /** No divisor on the way to the value is zero. */
  predicate Divisible(e: Expr, env: map<string, real>)
    requires Supported(e) && Variables(e) <= env.Keys
    decreases e
  {
    match e
    case Num(_) | Name(_) => true
    case Unary(_, x) => Divisible(x, env)
    case Binary(op, x, y) => Divisible(x, env) && Divisible(y, env) && (op.Div? ==> RealValue(y, env) != 0.0)
    case Call(_, args, _) => Divisible(args[0], env)
    case IfExp(t, x, y) =>
      Divisible(t, env) && if RealValue(t, env) == 0.0 then Divisible(y, env) else Divisible(x, env)
  }

  /** The reader knows the formula's variables as these numbers. */
  ghost predicate ReadsAs(e: Expr, read: Reader, env: map<string, real>)
    requires Supported(e)
  {
    forall n | n in Variables(e) :: n in env && read(n) == Ok(Some(env[n]))
  }

  /** Over present variables, without a zero divisor, evaluating a formula is real arithmetic. */
  lemma EvaluatesToRealValue(e: Expr, read: Reader, env: map<string, real>)
    requires Supported(e) && ReadsAs(e, read, env) && Divisible(e, env)
    ensures EvaluateExpression(e, read) == Ok(Some(RealValue(e, env)))
  {
    SupportedHasNoAttribute(e);
    NodeIsRealValue(e, read, env);
  }

  lemma BinaryNode(op: BinaryOp, a: Expr, b: Expr, read: Reader, x: real, y: real)
    requires EvalNode(a, read) == Ok(Some(x)) && EvalNode(b, read) == Ok(Some(y))
    ensures EvalNode(Binary(op, a, b), read) == Combine(op, x, y)
  {
  }

  lemma BinaryIsRealValue(op: BinaryOp, a: Expr, b: Expr, read: Reader, env: map<string, real>)
    requires Supported(Binary(op, a, b)) && Variables(Binary(op, a, b)) <= env.Keys
    requires Divisible(Binary(op, a, b), env)
    requires EvalNode(a, read) == Ok(Some(RealValue(a, env))) && EvalNode(b, read) == Ok(Some(RealValue(b, env)))
    ensures EvalNode(Binary(op, a, b), read) == Ok(Some(RealValue(Binary(op, a, b), env)))
  {
    var x, y := RealValue(a, env), RealValue(b, env);
    BinaryNode(op, a, b, read, x, y);
    var combined := Combine(op, x, y).value.value;
    assert combined == RealValue(Binary(op, a, b), env);
  }

  lemma {:induction false} NodeIsRealValue(e: Expr, read: Reader, env: map<string, real>)
    requires Supported(e) && ReadsAs(e, read, env) && Divisible(e, env)
    ensures EvalNode(e, read) == Ok(Some(RealValue(e, env)))
    decreases e
  {
    match e
    case Num(_) | Name(_) =>
    case Unary(_, x) => NodeIsRealValue(x, read, env);
    case Binary(op, x, y) =>
      NodeIsRealValue(x, read, env);
      NodeIsRealValue(y, read, env);
      BinaryIsRealValue(op, x, y, read, env);
    case Call(_, args, _) => NodeIsRealValue(args[0], read, env);
    case IfExp(t, x, y) =>
      NodeIsRealValue(t, read, env);
      NodeIsRealValue(if RealValue(t, env) == 0.0 then y else x, read, env);
  }

  // ---------------------------------------------------------------------
  // Laws of arithmetic
  // ---------------------------------------------------------------------

  function Sum(a: Expr, b: Expr): Expr { Binary(BinaryOp.Add, a, b) }

  function Difference(a: Expr, b: Expr): Expr { Binary(Sub, a, b) }

  function Product(a: Expr, b: Expr): Expr { Binary(Mult, a, b) }

  function Quotient(a: Expr, b: Expr): Expr { Binary(Div, a, b) }

  function Negated(a: Expr): Expr { Unary(Minus, a) }

  function Size(a: Expr): Expr { Call(Name(ABS), [a], []) }

  /** The formula evaluates to a number. */
  ghost predicate HasValue(e: Expr, read: Reader, v: real)
  {
    Supported(e) && EvaluateExpression(e, read) == Ok(Some(v))
  }

  lemma ValueOfNode(e: Expr, read: Reader)
    requires Supported(e)
    ensures EvaluateExpression(e, read) == EvalNode(e, read)
  {
    SupportedHasNoAttribute(e);
  }

  lemma BinaryOutcome(op: BinaryOp, a: Expr, b: Expr, read: Reader, x: real, y: real)
    requires HasValue(a, read, x) && HasValue(b, read, y) && !op.OtherBinary?
    ensures Supported(Binary(op, a, b)) && EvaluateExpression(Binary(op, a, b), read) == Combine(op, x, y)
  {
    ValueOfNode(a, read);
    ValueOfNode(b, read);
    BinaryNode(op, a, b, read, x, y);
    ValueOfNode(Binary(op, a, b), read);
  }

  lemma ProductOutcome(a: Expr, b: Expr, read: Reader, x: real, y: real, v: real)
    requires HasValue(a, read, x) && HasValue(b, read, y) && v == x * y
    ensures HasValue(Product(a, b), read, v)
  {
    BinaryOutcome(Mult, a, b, read, x, y);
    var product := Combine(Mult, x, y).value.value;
    assert product == v;
  }

  lemma QuotientOutcome(a: Expr, b: Expr, read: Reader, x: real, y: real, v: real)
    requires HasValue(a, read, x) && HasValue(b, read, y) && y != 0.0 && v == x / y
    ensures HasValue(Quotient(a, b), read, v)
  {
    BinaryOutcome(Div, a, b, read, x, y);
    var quotient := Combine(Div, x, y).value.value;
    assert quotient == v;
  }

  lemma UnaryOutcome(a: Expr, read: Reader, x: real)
    requires HasValue(a, read, x)
    ensures HasValue(Negated(a), read, -x) && HasValue(Unary(Plus, a), read, x)
    ensures HasValue(Size(a), read, if x < 0.0 then -x else x)
  {
    ValueOfNode(a, read);
    ValueOfNode(Negated(a), read);
    ValueOfNode(Unary(Plus, a), read);
    ValueOfNode(Size(a), read);
  }

  lemma NumberOutcome(v: real, read: Reader)
    ensures HasValue(Num(v), read, v)
  {
  }

  /** For formulas that have values, addition and subtraction undo each other, and a negation its formula. */
  lemma SumLaws(a: Expr, b: Expr, read: Reader, x: real, y: real)
    requires HasValue(a, read, x) && HasValue(b, read, y)
    ensures HasValue(Difference(Sum(a, b), b), read, x)
    ensures HasValue(Sum(Difference(a, b), b), read, x)
    ensures HasValue(Sum(a, Num(0.0)), read, x)
    ensures HasValue(Sum(Negated(a), a), read, 0.0)
    ensures HasValue(Unary(Plus, a), read, x)
    ensures EvaluateExpression(Sum(a, b), read) == EvaluateExpression(Sum(b, a), read)
  {
    BinaryOutcome(BinaryOp.Add, a, b, read, x, y);
    BinaryOutcome(BinaryOp.Add, b, a, read, y, x);
    BinaryOutcome(Sub, a, b, read, x, y);
    BinaryOutcome(Sub, Sum(a, b), b, read, x + y, y);
    BinaryOutcome(BinaryOp.Add, Difference(a, b), b, read, x - y, y);
    UnaryOutcome(a, read, x);
    BinaryOutcome(BinaryOp.Add, Negated(a), a, read, -x, x);
    NumberOutcome(0.0, read);
    BinaryOutcome(BinaryOp.Add, a, Num(0.0), read, x, 0.0);
  }

  lemma Distributes(x: real, y: real, z: real)
    ensures x * (y + z) == x * y + x * z
  {
  }

  /** Multiplication commutes, has one for unit, and distributes over addition. */
  lemma ProductLaws(a: Expr, b: Expr, c: Expr, read: Reader, x: real, y: real, z: real)
    requires HasValue(a, read, x) && HasValue(b, read, y) && HasValue(c, read, z)
    ensures EvaluateExpression(Product(a, b), read) == EvaluateExpression(Product(b, a), read)
    ensures HasValue(Product(a, Num(1.0)), read, x)
    ensures EvaluateExpression(Product(a, Sum(b, c)), read)
      == EvaluateExpression(Sum(Product(a, b), Product(a, c)), read)
  {
    var xy, xz, yz := x * y, x * z, y + z;
    ProductOutcome(a, b, read, x, y, xy);
    ProductOutcome(b, a, read, y, x, xy);
    ProductOutcome(a, c, read, x, z, xz);
    BinaryOutcome(BinaryOp.Add, b, c, read, y, z);
    Distributes(x, y, z);
    ProductOutcome(a, Sum(b, c), read, x, yz, xy + xz);
    BinaryOutcome(BinaryOp.Add, Product(a, b), Product(a, c), read, xy, xz);
    NumberOutcome(1.0, read);
    ProductOutcome(a, Num(1.0), read, x, 1.0, x);
  }

  lemma DivisionUndoes(x: real, y: real, ratio: real, xy: real)
    requires y != 0.0 && ratio == x / y && xy == x * y
    ensures ratio * y == x && xy / y == x
  {
  }

  /** Division undoes multiplication by any divisor but zero, and by zero the value is missing. */
  lemma QuotientLaws(a: Expr, b: Expr, read: Reader, x: real, y: real)
    requires HasValue(a, read, x) && HasValue(b, read, y)
    ensures y != 0.0 ==> HasValue(Product(Quotient(a, b), b), read, x)
    ensures y != 0.0 ==> HasValue(Quotient(Product(a, b), b), read, x)
    ensures y == 0.0 ==> EvaluateExpression(Quotient(a, b), read) == Ok(None)
  {
    if y != 0.0 {
      var ratio, xy := x / y, x * y;
      DivisionUndoes(x, y, ratio, xy);
      QuotientOutcome(a, b, read, x, y, ratio);
      ProductOutcome(Quotient(a, b), b, read, ratio, y, x);
      ProductOutcome(a, b, read, x, y, xy);
      QuotientOutcome(Product(a, b), b, read, xy, y, x);
    } else {
      BinaryOutcome(Div, a, b, read, x, y);
    }
  }

  /** The size of a value is not negative, and is the value or its negation. */
  lemma SizeLaws(a: Expr, read: Reader, x: real)
    requires HasValue(a, read, x)
    ensures x >= 0.0 ==> HasValue(Size(a), read, x)
    ensures EvaluateExpression(Size(Negated(a)), read) == EvaluateExpression(Size(a), read)
  {
    UnaryOutcome(a, read, x);
    UnaryOutcome(Negated(a), read, -x);
  }

  /** A conditional has its second branch's outcome when the test is missing or zero, and its first's otherwise. */
  lemma ConditionalLaws(t: Expr, a: Expr, b: Expr, read: Reader)
    requires Supported(t) && Supported(a) && Supported(b) && EvaluateExpression(t, read).Ok?
    ensures EvaluateExpression(t, read) in {Ok(None), Ok(Some(0.0))} ==>
      EvaluateExpression(IfExp(t, a, b), read) == EvaluateExpression(b, read)
    ensures EvaluateExpression(t, read) !in {Ok(None), Ok(Some(0.0))} ==>
      EvaluateExpression(IfExp(t, a, b), read) == EvaluateExpression(a, read)
  {
    ValueOfNode(t, read);
    ValueOfNode(a, read);
    ValueOfNode(b, read);
    ValueOfNode(IfExp(t, a, b), read);
  }
}
