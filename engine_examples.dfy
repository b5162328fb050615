/** The engine's documented outcomes on small inputs: each error `evaluate_postfix`
    reports, the rebuilding converters' refusals and minimal brackets, the infix
    converters on brackets left open or never opened, and the formatter on no input. */
module EngineExamples {
  import opened Results
  import opened Text
  import opened Unicodes
  import opened FloatSyntax
  import opened Tokenizer
  import opened Shunting
  import opened ExprTree
  import opened Evaluation
  import opened Rebuild
  import opened Pipeline
  import opened Formatter

  // ---------------------------------------------------------------------------------
  // `evaluate_postfix`

  /** `"4 0 /"`: division by zero. */
  lemma DivisionByZeroRefused(rules: Rules)
    ensures EvaluatePostfix(rules, "4 0 /") == Err(DivisionByZero)
  {
    EvaluateOneOperation(rules, "4 0 /");
  }

  /** `"5 6 ^"`: an exponent above 5. */
  lemma LargeExponentRefused(rules: Rules)
    ensures EvaluatePostfix(rules, "5 6 ^") == Err(ExponentTooLarge(6))
  {
    EvaluateOneOperation(rules, "5 6 ^");
  }

  /** `"3 2 /"`: a result with a fraction. */
  lemma FractionRefused(rules: Rules)
    ensures EvaluatePostfix(rules, "3 2 /") == Err(NotWhole(1.5))
  {
    EvaluateOneOperation(rules, "3 2 /");
    HalvesRefused(rules);
  }

  lemma HalvesRefused(rules: Rules)
    ensures Combine(rules, PyFloat(3), PyFloat(2), "/") == Err(NotWhole(1.5))
  {
    assert IsDivide("/");
    assert ExactOp(3, 2, "/") == 1.5;
    assert Apply(PyFloat(3), PyFloat(2), "/") == Ok(Raw(1.5, true));
    assert (1.5).Floor == 1;
  }

  /** `"3 5 -"` is refused where negatives are not allowed ... */
  lemma NegativeRefused(rules: Rules)
    requires rules.negation == "No"
    ensures EvaluatePostfix(rules, "3 5 -") == Err(Negative(-2.0))
  {
    EvaluateOneOperation(rules, "3 5 -");
    assert ExactOp(3, 5, "-") == -2.0;
  }

  /** ... and is -2 where they are and the limits take it in. */
  lemma NegativeAllowed(rules: Rules)
    requires rules.negation == "Yes" && rules.lower <= -2 <= rules.upper
    ensures EvaluatePostfix(rules, "3 5 -") == Ok(PyInt(-2))
  {
    EvaluateOneOperation(rules, "3 5 -");
    assert ExactOp(3, 5, "-") == -2.0;
  }

  /** `"9 9 *"` is refused under an upper limit below 81. */
  lemma OutOfBoundsRefused(rules: Rules)
    requires rules.upper < 81
    ensures EvaluatePostfix(rules, "9 9 *") == Err(OutOfBounds(81.0))
  {
    EvaluateOneOperation(rules, "9 9 *");
    assert IsMultiply("*");
    assert ExactOp(9, 9, "*") == 81.0;
  }

  /** `"2 3"`: two numbers left. */
  lemma TwoNumbersLeft(rules: Rules)
    ensures EvaluatePostfix(rules, "2 3") == Err(EvalError.TooManyOperands)
  {
    SplitTwo("2 3");
    DigitLiteral('2');
    DigitLiteral('3');
    var ts: seq<string> := ["2", "3"];
    var e: seq<Num> := [];
    assert e + [PyFloat(2)] == [PyFloat(2)] && [PyFloat(2)] + [PyFloat(3)] == [PyFloat(2), PyFloat(3)];
    assert EvalStep(rules, [], ts[0]) == Ok([PyFloat(2)]);
    assert EvalTokens(rules, ts, []) == EvalTokens(rules, ts[1..], [PyFloat(2)]);
    assert EvalStep(rules, [PyFloat(2)], ts[1]) == Ok([PyFloat(2), PyFloat(3)]);
  }

  /** `"2 +"`: an operator with one number on the stack. */
  lemma OperatorAfterOneNumber(rules: Rules)
    ensures EvaluatePostfix(rules, "2 +") == Err(EvalError.NotEnoughOperands)
  {
    SplitTwo("2 +");
    DigitLiteral('2');
    SymbolNotFloatText('+');
    var ts: seq<string> := ["2", "+"];
    var e: seq<Num> := [];
    assert e + [PyFloat(2)] == [PyFloat(2)];
    assert EvalStep(rules, [], ts[0]) == Ok([PyFloat(2)]);
    assert EvalTokens(rules, ts, []) == EvalTokens(rules, ts[1..], [PyFloat(2)]);
  }

  /** A lone literal is the answer as it was read: none of the rules is applied to it. */
  lemma LoneLiteralUnchecked(rules: Rules)
    ensures EvaluatePostfix(rules, "7") == Ok(PyFloat(7))
  {
    SplitOne('7');
    DigitLiteral('7');
    var e: seq<Num> := [];
    assert e + [PyFloat(7)] == [PyFloat(7)];
    assert EvalStep(rules, [], "7") == Ok([PyFloat(7)]);
    assert EvalTokens(rules, ["7"], []) == EvalTokens(rules, [], [PyFloat(7)]);
  }

  // ---------------------------------------------------------------------------------
  // `prefix_to_infix` and `postfix_to_infix`

  lemma DigitOperand(c: char)
    requires IsAsciiDigit(c)
    ensures IsPlainOperand([c]) && !IsOperator([c])
  {
    var t := [c];
    assert t[1..] == [] && AlnumChars(t[1..]);
    assert AlnumChars(t);
  }

  /** A signed literal is no operand to either rebuilding converter. */
  lemma SignedLiteralRefused()
    ensures PrefixToInfix("-5") == Err(RebuildError.InvalidToken("-5"))
    ensures PostfixToInfix("-5") == Err(RebuildError.InvalidToken("-5"))
  {
    var t := "-5";
    SplitWordThenRest(t, []);
    assert t + [] == t;
    assert Split([]) == [];
    assert !IsAlnumChar(t[0]) && !IsSuperscriptDigit(t[0]);
    assert !AlnumChars(t) && !AllSuperscript(t);
    assert !IsPlainOperand(t) && !IsOperator(t);
    assert Reverse([t]) == [t];
  }

  /** Two operands and no operator: two parts are left. */
  lemma TwoPartsLeft()
    ensures PrefixToInfix("2 3") == Err(RebuildError.TooManyOperands)
    ensures PostfixToInfix("2 3") == Err(RebuildError.TooManyOperands)
  {
    SplitTwo("2 3");
    DigitOperand('2');
    DigitOperand('3');
    var ts: seq<string> := ["2", "3"];
    assert Reverse(ts) == ["3", "2"];
  }

  /** An operator read with one part on the stack. */
  lemma OnePartForOperator()
    ensures PostfixToInfix("2 +") == Err(RebuildError.NotEnoughOperands)
    ensures PrefixToInfix("+ 2") == Err(RebuildError.NotEnoughOperands)
  {
    SplitTwo("2 +");
    SplitTwo("+ 2");
    DigitOperand('2');
    assert !IsPlainOperand("+") && IsOperator("+");
    var ts: seq<string> := ["+", "2"];
    assert Reverse(ts) == ["2", "+"];
  }

  /** `3 + 4` and `2 * (3 + 4)` as trees. */
  const SumOfDigits := Node("+", Leaf("3"), Leaf("4"))
  const ProductOfSum := Node("*", Leaf("2"), SumOfDigits)

  lemma ProductOfSumPlain()
    ensures Plain(ProductOfSum)
  {
    DigitOperand('2');
    DigitOperand('3');
    DigitOperand('4');
  }

  lemma ProductOfSumPostfixWords()
    ensures Split("2 3 4 + *") == PostfixOf(ProductOfSum)
  {
    SplitFive('2', '3', '4', '+', '*');
    assert PostfixOf(SumOfDigits) == ["3", "4", "+"];
    assert PostfixOf(ProductOfSum) == ["2", "3", "4", "+", "*"];
  }

  lemma ProductOfSumPrefixWords()
    ensures Split("* 2 + 3 4") == PrefixOf(ProductOfSum)
  {
    SplitFive('*', '2', '+', '3', '4');
    assert PrefixOf(SumOfDigits) == ["+", "3", "4"];
    assert PrefixOf(ProductOfSum) == ["*", "2", "+", "3", "4"];
  }

  lemma ProductOfSumMinParen()
    ensures MinParen(ProductOfSum) == "2 * (3 + 4)"
  {
    assert Prec("+") == 1 && Prec("*") == 2;
    assert !LeftNeedsBrackets(4, "+") && !RightNeedsBrackets(4, "+");
    assert MinParen(SumOfDigits) == "3 + 4";
    assert !LeftNeedsBrackets(4, "*") && RightNeedsBrackets(1, "*");
  }

  /** `"2 3 4 + *"`: the sum is bracketed as the right operand of the product, and
      nothing else is. */
  lemma PostfixMinimalBrackets()
    ensures PostfixToInfix("2 3 4 + *") == Ok("2 * (3 + 4)")
  {
    ProductOfSumPlain();
    ProductOfSumPostfixWords();
    PostfixToInfixOfTree("2 3 4 + *", ProductOfSum);
    ProductOfSumMinParen();
  }

  /** `"* 2 + 3 4"`: every operation bracketed, the outer pair kept. */
  lemma PrefixFullBrackets()
    ensures PrefixToInfix("* 2 + 3 4") == Ok("(2 * (3 + 4))")
  {
    ProductOfSumPlain();
    ProductOfSumPrefixWords();
    PrefixToInfixOfTree("* 2 + 3 4", ProductOfSum);
    ProductOfSumFullParen();
  }

  lemma ProductOfSumFullParen()
    ensures FullParen(ProductOfSum) == "(2 * (3 + 4))"
  {
    assert FullParen(SumOfDigits) == "(3 + 4)";
  }

  // ---------------------------------------------------------------------------------
  // `infix_to_postfix` and `infix_to_prefix` on brackets

  lemma SmallTokensValid()
    ensures IsValidToken("(") && IsValidToken(")") && IsValidToken("+")
    ensures IsValidToken("2") && IsValidToken("3")
  {
    DigitOperand('2');
    DigitOperand('3');
  }

  /** `(a + b` for digits `a` and `b` is four tokens. */
  lemma UnclosedTokens(a: char, b: char)
    requires IsAsciiDigit(a) && IsAsciiDigit(b)
    ensures Tokenize(['(', a, ' ', '+', ' ', b]) == ["(", [a], "+", [b]]
  {
    var s := ['(', a, ' ', '+', ' ', b];
    assert IsOperandChar(a) && IsOperandChar(b) && !IsOperandChar('(') && !IsOperandChar('+');
    TokenizeCharStep(s, 0, [], ["("]);
    TokenizeDigitStep(s, 1, ["("], ["(", [a]]);
    TokenizeOperatorOperand(s, 2, ["(", [a]], ["(", [a], "+", [b]]);
  }

  /** `a + b)` for digits `a` and `b` is four tokens. */
  lemma UnopenedTokens(a: char, b: char)
    requires IsAsciiDigit(a) && IsAsciiDigit(b)
    ensures Tokenize([a, ' ', '+', ' ', b, ')']) == [[a], "+", [b], ")"]
  {
    var s := [a, ' ', '+', ' ', b, ')'];
    assert IsOperandChar(a) && IsOperandChar(b) && !IsOperandChar('+') && !IsOperandChar(')');
    OperandTokenIsNoOperator(b);
    TokenizeDigitStep(s, 0, [], [[a]]);
    TokenizeOperatorOperand(s, 1, [[a]], [[a], "+", [b]]);
    TokenizeCharStep(s, 5, [[a], "+", [b]], [[a], "+", [b], ")"]);
  }

  lemma DepthOpenFirst(x: string, y: string, z: string)
    requires !IsBracket(x) && !IsBracket(y) && !IsBracket(z)
    ensures Depth(["(", x, y, z]) == 1
  {
    var ts := ["(", x, y, z];
    assert ts[..3] == ["(", x, y] && ts[..3][..2] == ["(", x] && ts[..3][..2][..1] == ["("];
    assert ["("][..0] == [];
    assert Depth(["("]) == 1;
    assert Depth(["(", x]) == 1;
    assert Depth(["(", x, y]) == 1;
  }

  lemma DepthCloseLast(x: string, y: string, z: string)
    requires !IsBracket(x) && !IsBracket(y) && !IsBracket(z)
    ensures Depth([x, y, z, ")"]) == -1
  {
    var ts := [x, y, z, ")"];
    assert ts[..3] == [x, y, z] && ts[..3][..2] == [x, y] && ts[..3][..2][..1] == [x];
    assert [x][..0] == [];
    assert Depth([x]) == 0;
    assert Depth([x, y]) == 0;
    assert Depth([x, y, z]) == 0;
  }

  /** Valid tokens whose brackets do not match are refused by both infix converters. */
  lemma MismatchRefused(s: string)
    requires AllValid(Tokenize(s)) && !Balanced(Tokenize(s))
    ensures InfixToPostfix(s) == Err(MismatchedParentheses)
    ensures InfixToPrefix(s) == Err(MismatchedParentheses)
  {
    InfixConvertersAgree(s);
  }

  /** `"(2 + 3"`: a bracket left open. */
  lemma UnclosedBracket()
    ensures InfixToPostfix("(2 + 3") == Err(MismatchedParentheses)
    ensures InfixToPrefix("(2 + 3") == Err(MismatchedParentheses)
  {
    UnclosedTokens('2', '3');
    var ts: seq<string> := ["(", "2", "+", "3"];
    SmallTokensValid();
    assert AllValid(ts);
    DepthOpenFirst("2", "+", "3");
    MismatchRefused("(2 + 3");
  }

  /** `"2 + 3)"`: a bracket closed that was never opened. */
  lemma UnopenedBracket()
    ensures InfixToPostfix("2 + 3)") == Err(MismatchedParentheses)
    ensures InfixToPrefix("2 + 3)") == Err(MismatchedParentheses)
  {
    UnopenedTokens('2', '3');
    var ts: seq<string> := ["2", "+", "3", ")"];
    SmallTokensValid();
    assert AllValid(ts);
    DepthCloseLast("2", "+", "3");
    MismatchRefused("2 + 3)");
  }

  // ---------------------------------------------------------------------------------
  // `_infix_to_unicode_format`

  /** No input: the token list is empty and the formatter says so. */
  lemma FormatNothing()
    ensures FormatUnicode("") == Returns(Message("no expression found."))
  {
    assert Tokenize("") == [];
    ShuntOutcome(RightToLeft, []);
    assert Mirror([]) == [];
    assert InfixToPrefix("") == Ok([]);
    assert InfixToPrefixText("") == "";
    assert !Contains("", "Error:");
    assert Split("") == [];
  }
}
