/** `Expression.evaluate_postfix` as a specification function: a stack machine over the
    whitespace-separated tokens that checks every intermediate result against the
    engine's rules. Values are exact: every number the machine keeps is whole, so only
    the result of a single operation can have a fraction, and that one is caught. */
module Evaluation {
  import opened Results
  import opened Text
  import opened Unicodes
  import opened FloatSyntax
  import opened ExprTree

  /** A Python number on the operand stack: a literal is pushed as a `float`, the result
      of an operation as an `int`. Both hold whole numbers. */
  datatype Num = PyInt(value: int) | PyFloat(value: int)

  /** The engine's evaluation rules: `rule_negation` and the two limits. */
  datatype Rules = Rules(negation: string, lower: int, upper: int)

  /** The outcomes the source reports as "Error: ..." strings, plus the
      `ZeroDivisionError` it lets escape from `0 ** negative`, plus the literals the
      model does not value. */
  datatype EvalError =
    | NotEnoughOperands
    | DivisionByZero
    | ExponentTooLarge(exponent: int)
    | InvalidOperator(token: string)
    | NotWhole(result: real)
    | Negative(result: real)
    | OutOfBounds(result: real)
    | TooManyOperands
    | ZeroToNegativePower
    | LiteralNotModelled(token: string)

  /** The result of one operation before the checks, with whether Python makes it a
      `float`. */
  datatype Raw = Raw(value: real, isFloat: bool)

  function PowInt(i: int, n: nat): (r: int)
    ensures i != 0 ==> r != 0
    decreases n
  {
    if n == 0 then 1 else i * PowInt(i, n - 1)
  }

  predicate IsMultiply(t: string) { t == "*" || t == [MultiplicationSign] }

  predicate IsDivide(t: string) { t == "/" || t == [DivisionSign] }

  /** The exact value of `i t j` for Python's operators on whole numbers: `/` is true
      division and a negative power divides; where the operation is undefined (a zero
      divisor, a negative power of zero, an unknown operator) the value is never used. */
  function ExactOp(i: int, j: int, t: string): real {
    if t == "+" then (i + j) as real
    else if t == "-" then (i - j) as real
    else if IsMultiply(t) then (i * j) as real
    else if IsDivide(t) then (if j == 0 then 0.0 else i as real / j as real)
    else if t == "^" then
      if j >= 0 then PowInt(i, j) as real
      else if i == 0 then 0.0
      else 1.0 / PowInt(i, -j) as real
    else 0.0
  }

  /** The operator branch: `+`, `-`, `*` or the multiplication sign, `/` or the division
      sign, and `^`; `/` refuses a zero divisor and `^` an exponent above 5. The result
      is a `float` when either operand is one, after `/`, and after a negative power. */
  function Apply(a: Num, b: Num, t: string): (r: Result<Raw, EvalError>)
    ensures r.Ok? <==> && (t == "+" || t == "-" || IsMultiply(t) || IsDivide(t) || t == "^")
                       && (IsDivide(t) ==> b.value != 0)
                       && (t == "^" ==> b.value <= 5 && (b.value < 0 ==> a.value != 0))
    ensures r.Ok? ==> r.value.value == ExactOp(a.value, b.value, t)
    ensures r.Ok? ==> (r.value.isFloat <==> a.PyFloat? || b.PyFloat? || IsDivide(t) || (t == "^" && b.value < 0))
  {
    var i, j := a.value, b.value;
    var floats := a.PyFloat? || b.PyFloat?;
    if t == "+" || t == "-" || IsMultiply(t) then Ok(Raw(ExactOp(i, j, t), floats))
    else if IsDivide(t) then
      if j == 0 then Err(DivisionByZero) else Ok(Raw(ExactOp(i, j, t), true))
    else if t == "^" then
      if j > 5 then Err(ExponentTooLarge(j))
      else if j < 0 && i == 0 then Err(ZeroToNegativePower)
      else Ok(Raw(ExactOp(i, j, t), floats || j < 0))
    else Err(InvalidOperator(t))
  }

  predicate IsWhole(r: real) { r.Floor as real == r }

  /** The three checks on a result, in the source's order: a `float` with a fraction, a
      negative result where negatives are not allowed, a result outside the limits.
      A result that passes is pushed as an `int`. */
  function Settle(rules: Rules, r: Raw): (n: Result<Num, EvalError>)
    ensures n.Ok? <==> && (r.isFloat ==> IsWhole(r.value))
                       && (rules.negation == "No" ==> r.value >= 0.0)
                       && rules.lower as real <= r.value <= rules.upper as real
    ensures n.Ok? ==> n.value.PyInt? && rules.lower <= n.value.value <= rules.upper
    ensures n.Ok? && rules.negation == "No" ==> n.value.value >= 0
    ensures n.Ok? && r.isFloat ==> n.value.value as real == r.value
  {
    if r.isFloat && !IsWhole(r.value) then Err(NotWhole(r.value))
    else if rules.negation == "No" && r.value < 0.0 then Err(Negative(r.value))
    else if r.value < rules.lower as real || r.value > rules.upper as real then Err(OutOfBounds(r.value))
    else Ok(PyInt(r.value.Floor))
  }

  function Combine(rules: Rules, a: Num, b: Num, t: string): Result<Num, EvalError> {
    match Apply(a, b, t)
    case Err(e) => Err(e)
    case Ok(r) => Settle(rules, r)
  }

  /** `float(t)` for a token `float()` accepts: integer literals are valued, other
      literals are outside the model. */
  function Literal(t: string): Result<Num, EvalError>
    requires IsFloatText(t)
  {
    if IsIntText(t) then Ok(PyFloat(IntTextValue(t))) else Err(LiteralNotModelled(t))
  }

  /** One token: a literal is pushed; anything else needs two operands and is applied
      to them. */
  function EvalStep(rules: Rules, stack: seq<Num>, t: string): Result<seq<Num>, EvalError> {
    if IsFloatText(t) then
      match Literal(t)
      case Err(e) => Err(e)
      case Ok(v) => Ok(stack + [v])
    else if |stack| < 2 then Err(EvalError.NotEnoughOperands)
    else
      match Combine(rules, stack[|stack| - 2], stack[|stack| - 1], t)
      case Err(e) => Err(e)
      case Ok(v) => Ok(stack[..|stack| - 2] + [v])
  }

  function EvalTokens(rules: Rules, ts: seq<string>, stack: seq<Num>): Result<seq<Num>, EvalError>
    decreases |ts|
  {
    if ts == [] then Ok(stack)
    else match EvalStep(rules, stack, ts[0])
      case Err(e) => Err(e)
      case Ok(stack') => EvalTokens(rules, ts[1..], stack')
  }

  /** `evaluate_postfix(s)`: exactly one number must be left. */
  function EvaluatePostfix(rules: Rules, s: string): Result<Num, EvalError> {
    match EvalTokens(rules, Split(s), [])
    case Err(e) => Err(e)
    case Ok(stack) => if |stack| != 1 then Err(EvalError.TooManyOperands) else Ok(stack[0])
  }

  // ---------------------------------------------------------------------------------
  // The meaning of one operation

  /** An operation the rules accept: a known operator, a non-zero divisor, an exponent of
      at most 5 that does not raise zero to a negative power, and a whole result,
      non-negative where negatives are not allowed, within the limits. */
  predicate StepOk(rules: Rules, i: int, j: int, t: string) {
    && (t == "+" || t == "-" || IsMultiply(t) || IsDivide(t) || t == "^")
    && (IsDivide(t) ==> j != 0)
    && (t == "^" ==> j <= 5 && (j < 0 ==> i != 0))
    && var r := ExactOp(i, j, t);
       && IsWhole(r)
       && (rules.negation == "No" ==> r >= 0.0)
       && rules.lower as real <= r <= rules.upper as real
  }

  /** An operation on two stack numbers passes exactly when the rules accept it, and
      then pushes its exact result as a whole `int` within the limits. */
  lemma CombineMeaning(rules: Rules, a: Num, b: Num, t: string)
    ensures Combine(rules, a, b, t).Ok? <==> StepOk(rules, a.value, b.value, t)
    ensures Combine(rules, a, b, t).Ok? ==>
      var v := Combine(rules, a, b, t).value;
      && v.PyInt?
      && v.value as real == ExactOp(a.value, b.value, t)
      && rules.lower <= v.value <= rules.upper
      && (rules.negation == "No" ==> v.value >= 0)
  {
  }

  // ---------------------------------------------------------------------------------
  // The tree a postfix string spells

  /** Trees whose postfix form the evaluator reads back as that tree: literal leaves
      (text `float()` accepts) and operator nodes that are not literals. */
  predicate Evaluable(e: Expr) {
    match e
    case Leaf(t) => IsFloatText(t)
    case Node(op, l, r) => !IsFloatText(op) && Evaluable(l) && Evaluable(r)
  }

  /** The evaluation of a tree, left operand first, each operation checked by the rules. */
  function EvalTree(rules: Rules, e: Expr): Result<Num, EvalError>
    requires Evaluable(e)
  {
    match e
    case Leaf(t) => Literal(t)
    case Node(op, l, r) =>
      match EvalTree(rules, l)
      case Err(x) => Err(x)
      case Ok(a) =>
        match EvalTree(rules, r)
        case Err(x) => Err(x)
        case Ok(b) => Combine(rules, a, b, op)
  }

  /** Reading the postfix form of an evaluable tree pushes its value, or stops with the
      error its evaluation meets first. */
  lemma {:induction false} EvalTokensOfTree(rules: Rules, e: Expr, rest: seq<string>, stack: seq<Num>)
    requires Evaluable(e)
    ensures var r := EvalTree(rules, e);
      EvalTokens(rules, PostfixOf(e) + rest, stack)
        == if r.Ok? then EvalTokens(rules, rest, stack + [r.value]) else Err(r.error)
  {
    match e
    case Leaf(t) =>
      assert ([t] + rest)[0] == t && ([t] + rest)[1..] == rest;
    case Node(op, l, r) =>
      var pl, pr := PostfixOf(l), PostfixOf(r);
      assert PostfixOf(e) + rest == pl + (pr + ([op] + rest));
      EvalTokensOfTree(rules, l, pr + ([op] + rest), stack);
      match EvalTree(rules, l)
      case Err(_) =>
      case Ok(a) =>
        EvalTokensOfTree(rules, r, [op] + rest, stack + [a]);
        match EvalTree(rules, r)
        case Err(_) =>
        case Ok(b) =>
          OperatorStep(rules, op, rest, stack, a, b);
  }

  lemma OperatorStep(rules: Rules, op: string, rest: seq<string>, stack: seq<Num>, a: Num, b: Num)
    requires !IsFloatText(op)
    ensures var r := Combine(rules, a, b, op);
      EvalTokens(rules, [op] + rest, stack + [a] + [b])
        == if r.Ok? then EvalTokens(rules, rest, stack + [r.value]) else Err(r.error)
  {
    var s2 := stack + [a] + [b];
    assert s2[..|s2| - 2] == stack && s2[|s2| - 2] == a && s2[|s2| - 1] == b;
    assert ([op] + rest)[0] == op && ([op] + rest)[1..] == rest;
  }

  /** `evaluate_postfix` on the postfix form of an evaluable tree is the tree's
      evaluation. */
  lemma EvaluatePostfixOfTree(rules: Rules, s: string, e: Expr)
    requires Evaluable(e) && Split(s) == PostfixOf(e)
    ensures EvaluatePostfix(rules, s) == EvalTree(rules, e)
  {
    EvalTokensOfTree(rules, e, [], []);
    assert PostfixOf(e) + [] == PostfixOf(e);
    if EvalTree(rules, e).Ok? {
      var v := EvalTree(rules, e).value;
      assert [] + [v] == [v];
    }
  }

  // ---------------------------------------------------------------------------------
  // The exact value of a tree

  /** The value of a tree with integer leaves in exact arithmetic, each operation's
      result taken as a whole number. */
  function Exact(e: Expr): int {
    match e
    case Leaf(t) => IntTextValue(t)
    case Node(op, l, r) => ExactOp(Exact(l), Exact(r), op).Floor
  }

  /** Every leaf an integer literal and every operation one the rules accept. */
  predicate Admissible(rules: Rules, e: Expr) {
    match e
    case Leaf(t) => IsIntText(t)
    case Node(op, l, r) => Admissible(rules, l) && Admissible(rules, r) && StepOk(rules, Exact(l), Exact(r), op)
  }

  /** The checked evaluation of a tree succeeds exactly when every leaf is an integer
      literal and every operation passes the rules, and then gives the tree's exact
      value: a `float` for a lone literal, an `int` within the limits otherwise. */
  lemma {:induction false} EvalTreeMeaning(rules: Rules, e: Expr)
    requires Evaluable(e)
    ensures EvalTree(rules, e).Ok? <==> Admissible(rules, e)
    ensures EvalTree(rules, e).Ok? ==>
      var v := EvalTree(rules, e).value;
      && v.value == Exact(e)
      && (e.Leaf? <==> v.PyFloat?)
      && (e.Node? ==> rules.lower <= v.value <= rules.upper && (rules.negation == "No" ==> v.value >= 0))
  {
    match e
    case Leaf(t) =>
    case Node(op, l, r) =>
      EvalTreeMeaning(rules, l);
      EvalTreeMeaning(rules, r);
      if EvalTree(rules, l).Ok? && EvalTree(rules, r).Ok? {
        CombineMeaning(rules, EvalTree(rules, l).value, EvalTree(rules, r).value, op);
      }
  }

  // ---------------------------------------------------------------------------------
  // What the machine keeps

  /** Every `int` on the stack is within the limits, and non-negative where negatives
      are not allowed. */
  predicate IntsChecked(rules: Rules, stack: seq<Num>) {
    forall k :: 0 <= k < |stack| && stack[k].PyInt? ==>
      rules.lower <= stack[k].value <= rules.upper && (rules.negation == "No" ==> stack[k].value >= 0)
  }

  lemma {:induction false} EvalTokensChecked(rules: Rules, ts: seq<string>, stack: seq<Num>)
    requires IntsChecked(rules, stack)
    ensures EvalTokens(rules, ts, stack).Ok? ==> IntsChecked(rules, EvalTokens(rules, ts, stack).value)
    decreases |ts|
  {
    if ts != [] {
      var step := EvalStep(rules, stack, ts[0]);
      if step.Ok? {
        if !IsFloatText(ts[0]) {
          CombineMeaning(rules, stack[|stack| - 2], stack[|stack| - 1], ts[0]);
        }
        assert IntsChecked(rules, step.value);
        EvalTokensChecked(rules, ts[1..], step.value);
      }
    }
  }

  /** An `int` answer of `evaluate_postfix` is the result of a checked operation: within
      the limits, and non-negative where negatives are not allowed. */
  lemma EvaluatePostfixChecked(rules: Rules, s: string)
    requires EvaluatePostfix(rules, s).Ok? && EvaluatePostfix(rules, s).value.PyInt?
    ensures var v := EvaluatePostfix(rules, s).value.value;
      rules.lower <= v <= rules.upper && (rules.negation == "No" ==> v >= 0)
  {
    EvalTokensChecked(rules, Split(s), []);
  }

  // ---------------------------------------------------------------------------------
  // Short postfix strings

  /** A digit is an integer literal worth its value. */
  lemma DigitLiteral(c: char)
    requires IsDigit(c)
    ensures IsIntText([c]) && IsFloatText([c])
    ensures Literal([c]) == Ok(PyFloat(c as int - '0' as int))
  {
    var t := [c];
    assert t[..0] == [];
    assert IsDigitPart(t);
    assert !IsSign(c) && IsIntText(t);
    assert DigitPartValue(t) == DigitPartValue(t[..0]) * 10 + (c as int - '0' as int);
    IntTextIsFloatText(t);
  }

  /** Two digits and an operator symbol: the one operation, checked by the rules, is the
      answer. */
  lemma EvaluateOneOperation(rules: Rules, s: string)
    requires |s| == 5 && s[1] == ' ' && s[3] == ' '
    requires IsDigit(s[0]) && IsDigit(s[2]) && !IsDigit(s[4]) && !IsSpace(s[4])
    ensures EvaluatePostfix(rules, s)
      == Combine(rules, PyFloat(s[0] as int - '0' as int), PyFloat(s[2] as int - '0' as int), [s[4]])
  {
    SplitThree(s);
    DigitLiteral(s[0]);
    DigitLiteral(s[2]);
    SymbolNotFloatText(s[4]);
    var a, b := PyFloat(s[0] as int - '0' as int), PyFloat(s[2] as int - '0' as int);
    var ts := [[s[0]], [s[2]], [s[4]]];
    var e: seq<Num> := [];
    assert e + [a] == [a] && [a] + [b] == [a, b];
    assert EvalStep(rules, [], ts[0]) == Ok([a]);
    assert EvalTokens(rules, ts, []) == EvalTokens(rules, ts[1..], [a]);
    assert EvalStep(rules, [a], ts[1]) == Ok([a, b]);
    assert EvalTokens(rules, ts[1..], [a]) == EvalTokens(rules, ts[2..], [a, b]);
    assert [a, b][..0] == [];
    var c := Combine(rules, a, b, ts[2]);
    if c.Ok? {
      assert e + [c.value] == [c.value];
      assert EvalStep(rules, [a, b], ts[2]) == Ok([c.value]);
      assert EvalTokens(rules, ts[2..], [a, b]) == EvalTokens(rules, ts[3..], [c.value]);
      assert ts[3..] == [];
      assert EvalTokens(rules, ts, []) == Ok([c.value]);
    } else {
      assert EvalStep(rules, [a, b], ts[2]) == Err(c.error);
    }
  }
}
