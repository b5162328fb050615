/** The `Expression` class: the engine's settings, their validating setters, and the
    engine's scans written as the loops they are, each proved to compute the
    specification function of its module. */
module ExpressionEngine {
  import opened Results
  import opened Text
  import opened Unicodes
  import opened FloatSyntax
  import opened Tokenizer
  import opened Shunting
  import opened ExprTree
  import opened Rebuild
  import opened Evaluation
  import opened Pipeline
  import opened Scans
  import opened Precedence

  /** A Python value handed to a setter: only its type and value matter. */
  datatype Value =
    | IntValue(i: int)
    | FloatValue(x: real)
    | StrValue(s: string)
    | TupleValue(items: seq<Value>)
    | NoneValue

  class Expression {
    var numberOfNested: int
    var difficultyLevel: real
    var frequencyExponential: real
    var ruleNegation: string
    var ruleLowerLimit: int
    var ruleUpperLimit: int

    /** What the setters let through: at least one nested operation, the two levels
        between 0 and 1, negation "Yes" or "No", and limits in strict order. */
    predicate Valid()
      reads this
    {
      && numberOfNested >= 1
      && 0.0 <= difficultyLevel <= 1.0
      && 0.0 <= frequencyExponential <= 1.0
      && (ruleNegation == "Yes" || ruleNegation == "No")
      && ruleLowerLimit < ruleUpperLimit
    }

    /** The evaluation rules the settings stand for. */
    function CurrentRules(): (r: Rules)
      reads this
      ensures r.negation == ruleNegation && r.lower == ruleLowerLimit && r.upper == ruleUpperLimit
    {
      Rules(ruleNegation, ruleLowerLimit, ruleUpperLimit)
    }

    constructor()
      ensures Valid()
      ensures numberOfNested == 2 && difficultyLevel == 0.2 && frequencyExponential == 0.5
      ensures ruleNegation == "No" && ruleLowerLimit == -1000 && ruleUpperLimit == 1000
    {
      numberOfNested := 2;
      difficultyLevel := 0.2;
      frequencyExponential := 0.5;
      ruleNegation := "No";
      ruleLowerLimit := -1000;
      ruleUpperLimit := 1000;
    }

    /** The `number_of_nested` setter: an integer of at least 1, or the `ValueError`. */
    method SetNumberOfNested(value: Value) returns (r: Result<(), string>)
      modifies this
      ensures r.Ok? <==> value.IntValue? && value.i >= 1
      ensures r.Ok? ==> numberOfNested == value.i
      ensures r.Ok? ==> unchanged(this`difficultyLevel, this`frequencyExponential, this`ruleNegation,
        this`ruleLowerLimit, this`ruleUpperLimit)
      ensures r.Err? ==> unchanged(this)
      ensures r.Err? ==> r.error == NestedMessage
      ensures old(Valid()) ==> Valid()
    {
      if !value.IntValue? || value.i < 1 {
        return Err(NestedMessage);
      }
      numberOfNested := value.i;
      r := Ok(());
    }

    /** The `difficulty_level` setter: an integer or float between 0 and 1. */
    method SetDifficultyLevel(value: Value) returns (r: Result<(), string>)
      modifies this
      ensures r.Ok? <==> IsLevel(value)
      ensures r.Ok? ==> difficultyLevel == LevelOf(value)
      ensures r.Ok? ==> unchanged(this`numberOfNested, this`frequencyExponential, this`ruleNegation,
        this`ruleLowerLimit, this`ruleUpperLimit)
      ensures r.Err? ==> unchanged(this)
      ensures r.Err? ==> r.error == DifficultyMessage
      ensures old(Valid()) ==> Valid()
    {
      if !IsLevel(value) {
        return Err(DifficultyMessage);
      }
      difficultyLevel := LevelOf(value);
      r := Ok(());
    }

    /** The `frequency_exponential` setter: an integer or float between 0 and 1. */
    method SetFrequencyExponential(value: Value) returns (r: Result<(), string>)
      modifies this
      ensures r.Ok? <==> IsLevel(value)
      ensures r.Ok? ==> frequencyExponential == LevelOf(value)
      ensures r.Ok? ==> unchanged(this`numberOfNested, this`difficultyLevel, this`ruleNegation,
        this`ruleLowerLimit, this`ruleUpperLimit)
      ensures r.Err? ==> unchanged(this)
      ensures r.Err? ==> r.error == FrequencyMessage
      ensures old(Valid()) ==> Valid()
    {
      if !IsLevel(value) {
        return Err(FrequencyMessage);
      }
      frequencyExponential := LevelOf(value);
      r := Ok(());
    }

    /** The `rule_negation` setter: exactly "Yes" or "No". */
    method SetRuleNegation(value: Value) returns (r: Result<(), string>)
      modifies this
      ensures r.Ok? <==> value == StrValue("Yes") || value == StrValue("No")
      ensures r.Ok? ==> ruleNegation == value.s
      ensures r.Ok? ==> unchanged(this`numberOfNested, this`difficultyLevel, this`frequencyExponential,
        this`ruleLowerLimit, this`ruleUpperLimit)
      ensures r.Err? ==> unchanged(this)
      ensures r.Err? ==> r.error == NegationMessage
      ensures old(Valid()) ==> Valid()
    {
      if value != StrValue("Yes") && value != StrValue("No") {
        return Err(NegationMessage);
      }
      ruleNegation := value.s;
      r := Ok(());
    }

    /** The `rule_lower_upper_limit` setter: a pair of integers, the first strictly
        below the second; each check has its own message. */
    method SetRuleLowerUpperLimit(values: Value) returns (r: Result<(), string>)
      modifies this
      ensures r.Ok? <==> LimitsFine(values)
      ensures r.Ok? ==> ruleLowerLimit == values.items[0].i && ruleUpperLimit == values.items[1].i
      ensures r.Ok? ==> unchanged(this`numberOfNested, this`difficultyLevel, this`frequencyExponential,
        this`ruleNegation)
      ensures r.Err? ==> unchanged(this)
      ensures r.Err? ==> r.error == LimitsMessage(values)
      ensures old(Valid()) ==> Valid()
    {
      if !values.TupleValue? || |values.items| != 2 {
        return Err(LimitsShapeMessage);
      }
      var low, high := values.items[0], values.items[1];
      if !low.IntValue? || !high.IntValue? {
        return Err(LimitsTypeMessage);
      }
      if low.i >= high.i {
        return Err(LimitsOrderMessage);
      }
      ruleLowerLimit := low.i;
      ruleUpperLimit := high.i;
      r := Ok(());
    }

    /** `tokenize_expression`: whitespace is skipped; a `-` at the start or after `(` or
        an operator takes the operand characters after it as a signed operand (alone it
        stays an operator); an operand is the longest run of operand characters; any
        other character is a token of its own. */
    method TokenizeExpression(s: string) returns (tokens: seq<string>)
      ensures tokens == Tokenize(s)
    {
      tokens := [];
      var i := 0;
      while i < |s|
        invariant i <= |s|
        invariant TokenizeFrom(s, i, tokens) == Tokenize(s)
        decreases |s| - i
      {
        var c := s[i];
        if IsSpace(c) {
          i := i + 1;
          continue;
        }
        var isUnaryMinus := false;
        if c == '-' {
          if i == 0 {
            isUnaryMinus := true;
          } else if |tokens| > 0 {
            var prev := tokens[|tokens| - 1];
            if prev == "(" || prev in TokenizerOperators {
              isUnaryMinus := true;
            }
          }
        }
        assert isUnaryMinus <==> c == '-' && MinusIsUnary(s, i, tokens);
        if isUnaryMinus {
          TokenizeRunStep(s, i, tokens);
          var j := OperandRun(s, i + 1);
          var operand := s[i..j];
          if operand == "-" {
            assert j == i + 1;
            tokens := tokens + ["-"];
            i := i + 1;
          } else {
            tokens := tokens + [operand];
            i := j;
          }
          continue;
        }
        if IsOperandChar(c) {
          TokenizeRunStep(s, i, tokens);
          var j := OperandRun(s, i + 1);
          var operand := s[i..j];
          tokens := tokens + [operand];
          i := j;
          continue;
        }
        TokenizeCharStep(s, i, tokens, tokens + [[c]]);
        if [c] in TokenizerOperators || c == '(' || c == ')' {
          tokens := tokens + [[c]];
          i := i + 1;
          continue;
        }
        tokens := tokens + [[c]];
        i := i + 1;
      }
    }

    /** The inner `while` of both operand branches: the end of the run of operand
        characters from `from` on. */
    method OperandRun(s: string, from: nat) returns (j: nat)
      requires from <= |s|
      ensures j == OperandEnd(s, from)
    {
      j := from;
      while j < |s|
        invariant from <= j <= |s|
        invariant OperandEnd(s, j) == OperandEnd(s, from)
        decreases |s| - j
      {
        if IsOperandChar(s[j]) {
          j := j + 1;
        } else {
          break;
        }
      }
    }

    /** The scan `infix_to_postfix` and `infix_to_prefix` share (the second on the
        mirrored tokens, popping on a tie only for `^`): operands go to the output, `(`
        onto the stack, `)` moves the operators above the nearest `(` to the output and
        drops it, an operator first moves the stacked operators that yield to it; at
        the end the stack is emptied onto the output. */
    method ShuntScan(dir: Direction, tokens: seq<string>) returns (r: Result<seq<string>, ConvertError>)
      ensures r == Shunt(dir, tokens)
    {
      var output: seq<string> := [];
      var stack: seq<string> := [];
      for i := 0 to |tokens|
        invariant ShuntFrom(dir, tokens, i, ShuntState(output, stack)) == ShuntFrom(dir, tokens, 0, ShuntState([], []))
      {
        var t := tokens[i];
        ghost var before := ShuntState(output, stack);
        ScanTokenHandsOn(dir, tokens, i, before);
        if IsNumeric(t) {
          output := output + [t];
        } else if t == "(" {
          stack := stack + ["("];
        } else if t == ")" {
          var closed := CloseBracket(output, stack);
          if closed.Err? {
            return Err(MismatchedParentheses);
          }
          output, stack := closed.value.output, closed.value.stack;
        } else if IsOperator(t) {
          output, stack := PopYieldingLoop(dir, output, stack, t);
          stack := stack + [t];
        } else {
          return Err(ConvertError.InvalidToken(t));
        }
        assert ShuntToken(dir, before, t) == Ok(ShuntState(output, stack));
      }
      r := DrainLoop(output, stack);
    }

    /** The final `while`: the stacked operators move to the output, the last stacked
        first; a `(` among them means the brackets are mismatched. */
    method DrainLoop(output0: seq<string>, stack0: seq<string>) returns (r: Result<seq<string>, ConvertError>)
      ensures r == Drain(ShuntState(output0, stack0))
    {
      var output, stack := output0, stack0;
      while |stack| > 0
        invariant stack == stack0[..|stack|]
        invariant output == output0 + Reverse(stack0[|stack|..])
        invariant "(" !in stack0[|stack|..]
      {
        if stack[|stack| - 1] == "(" {
          return Err(MismatchedParentheses);
        }
        MoveTop(stack0, |stack|, output0, output);
        output := output + [stack[|stack| - 1]];
        stack := stack[..|stack| - 1];
      }
      assert stack0[0..] == stack0;
      r := Ok(output);
    }

    /** The `)` branch: the operators above the nearest `(` move to the output, the last
        stacked first, and the `(` is dropped; with no `(` left the brackets are mismatched. */
    method CloseBracket(output0: seq<string>, stack0: seq<string>) returns (r: Result<ShuntState, ConvertError>)
      ensures r == PopToOpen(ShuntState(output0, stack0))
    {
      var output, stack := PopToOpenLoop(output0, stack0);
      ghost var k := LastOpen(stack0);
      if |stack| > 0 && stack[|stack| - 1] == "(" {
        assert stack[..|stack| - 1] == stack0[..k];
        r := Ok(ShuntState(output, stack[..|stack| - 1]));
      } else {
        r := Err(MismatchedParentheses);
      }
    }

    /** The `while` of the `)` branch: the operators above the nearest `(` move to the
        output, the last stacked first. */
    method PopToOpenLoop(output0: seq<string>, stack0: seq<string>) returns (output: seq<string>, stack: seq<string>)
      ensures stack == stack0[..LastOpen(stack0) + 1]
      ensures output == output0 + Reverse(stack0[LastOpen(stack0) + 1..])
    {
      output, stack := output0, stack0;
      while |stack| > 0 && stack[|stack| - 1] != "("
        invariant stack == stack0[..|stack|]
        invariant output == output0 + Reverse(stack0[|stack|..])
        invariant LastOpen(stack) == LastOpen(stack0)
      {
        MoveTop(stack0, |stack|, output0, output);
        output := output + [stack[|stack| - 1]];
        stack := stack[..|stack| - 1];
      }
    }

    /** The `while` of the operator branch: the stacked operators that yield to `t`
        move to the output, the last stacked first. */
    method PopYieldingLoop(dir: Direction, output0: seq<string>, stack0: seq<string>, t: string)
      returns (output: seq<string>, stack: seq<string>)
      ensures ShuntState(output, stack) == PopYielding(dir, ShuntState(output0, stack0), t)
    {
      output, stack := output0, stack0;
      while |stack| > 0 && Yields(dir, stack[|stack| - 1], t)
        invariant stack == stack0[..|stack|]
        invariant output == output0 + Reverse(stack0[|stack|..])
        invariant Kept(dir, stack, t) == Kept(dir, stack0, t)
      {
        MoveTop(stack0, |stack|, output0, output);
        output := output + [stack[|stack| - 1]];
        stack := stack[..|stack| - 1];
      }
    }

    /** `infix_to_postfix`: the tokens of the scan joined by spaces, or its message.
        On text that is a standard reading of a tree, the tree's postfix form. */
    method InfixToPostfix(s: string) returns (r: string)
      ensures r == InfixToPostfixText(s)
      ensures forall x :: Reads(LeftToRight, x) && Infix(x) == s ==> r == Join(PostfixOf(Tree(x)))
    {
      var tokens := TokenizeExpression(s);
      var scanned := ShuntScan(LeftToRight, tokens);
      match scanned {
        case Ok(output) => r := Join(output);
        case Err(e) => r := PostfixMessage(e);
      }
      forall x | Reads(LeftToRight, x) && Infix(x) == s
        ensures r == Join(PostfixOf(Tree(x)))
      {
        ConvertReading(x);
      }
    }

    /** `infix_to_prefix`: the tokens reversed with their brackets swapped, scanned, and
        the output reversed again. On text that is a standard reading of a tree, the
        tree's prefix form. */
    method InfixToPrefix(s: string) returns (r: string)
      ensures r == InfixToPrefixText(s)
      ensures forall x :: Reads(LeftToRight, x) && Infix(x) == s ==> r == Join(PrefixOf(Tree(x)))
    {
      var tokens := TokenizeExpression(s);
      var reversedTokens: seq<string> := [];
      for k := 0 to |tokens|
        invariant |reversedTokens| == k
        invariant forall m :: 0 <= m < k ==> reversedTokens[m] == SwapBracket(tokens[|tokens| - 1 - m])
      {
        var token := tokens[|tokens| - 1 - k];
        if token == "(" {
          reversedTokens := reversedTokens + [")"];
        } else if token == ")" {
          reversedTokens := reversedTokens + ["("];
        } else {
          reversedTokens := reversedTokens + [token];
        }
      }
      assert reversedTokens == Mirror(tokens);
      var scanned := ShuntScan(RightToLeft, reversedTokens);
      match scanned {
        case Ok(output) => r := Join(Reverse(output));
        case Err(e) => r := PrefixMessage(e);
      }
      forall x | Reads(LeftToRight, x) && Infix(x) == s
        ensures r == Join(PrefixOf(Tree(x)))
      {
        ConvertReading(x);
      }
    }

    /** `prefix_to_infix`: the tokens read from the last to the first on a stack of
        bracketed parts; exactly one part must be left. */
    method PrefixToInfix(s: string) returns (r: string)
      ensures r == PrefixToInfixText(s)
    {
      var tokens := Split(s);
      var stack: seq<string> := [];
      ghost var rts := Reverse(tokens);
      for k := 0 to |tokens|
        invariant PrefixInfixScan(rts[k..], stack) == PrefixInfixScan(rts, [])
      {
        var token := tokens[|tokens| - 1 - k];
        assert rts[k..][0] == token && rts[k..][1..] == rts[k + 1..];
        if IsPlainOperand(token) {
          stack := stack + [token];
        } else if IsOperator(token) {
          if |stack| < 2 {
            return PrefixRebuildMessage(RebuildError.NotEnoughOperands);
          }
          var left := stack[|stack| - 1];
          var right := stack[|stack| - 2];
          stack := stack[..|stack| - 2] + ["(" + left + " " + token + " " + right + ")"];
        } else {
          return PrefixRebuildMessage(RebuildError.InvalidToken(token));
        }
      }
      assert rts[|tokens|..] == [];
      if |stack| != 1 {
        return PrefixRebuildMessage(RebuildError.TooManyOperands);
      }
      r := stack[0];
    }

    /** `postfix_to_infix`: each operator brackets its operands where precedence and
        associativity ask for it; exactly one part must be left. */
    method PostfixToInfix(s: string) returns (r: string)
      ensures r == PostfixToInfixText(s)
    {
      var tokens := Split(s);
      var stack: seq<Part> := [];
      for k := 0 to |tokens|
        invariant PostfixInfixScan(tokens[k..], stack) == PostfixInfixScan(tokens, [])
      {
        var token := tokens[k];
        assert tokens[k..][0] == token && tokens[k..][1..] == tokens[k + 1..];
        if IsPlainOperand(token) {
          stack := stack + [Part(token, 4)];
        } else if IsOperator(token) {
          if |stack| < 2 {
            return PostfixRebuildMessage(RebuildError.NotEnoughOperands);
          }
          var operand2 := stack[|stack| - 1];
          var operand1 := stack[|stack| - 2];
          stack := stack[..|stack| - 2];
          var currentPrec := Prec(token);
          var op1Formatted := operand1.text;
          if operand1.prec < currentPrec || (operand1.prec == currentPrec && token == "^") {
            op1Formatted := "(" + operand1.text + ")";
          }
          var op2Formatted := operand2.text;
          if operand2.prec < currentPrec || (operand2.prec == currentPrec && token != "^") {
            op2Formatted := "(" + operand2.text + ")";
          }
          stack := stack + [Part(op1Formatted + " " + token + " " + op2Formatted, currentPrec)];
        } else {
          return PostfixRebuildMessage(RebuildError.InvalidToken(token));
        }
      }
      assert tokens[|tokens|..] == [];
      if |stack| != 1 {
        return PostfixRebuildMessage(RebuildError.TooManyOperands);
      }
      r := stack[0].text;
    }

    /** `evaluate_postfix` under the current rules: literals are pushed, each operator
        is applied to the two numbers below it and its result checked; exactly one
        number must be left. */
    method EvaluatePostfix(s: string) returns (r: Result<Num, EvalError>)
      ensures r == Evaluation.EvaluatePostfix(CurrentRules(), s)
    {
      var tokens := Split(s);
      var operandStack: seq<Num> := [];
      for k := 0 to |tokens|
        invariant EvalTokens(CurrentRules(), tokens[k..], operandStack) == EvalTokens(CurrentRules(), tokens, [])
      {
        var token := tokens[k];
        assert tokens[k..][0] == token && tokens[k..][1..] == tokens[k + 1..];
        if IsFloatText(token) {
          var literal := Literal(token);
          if literal.Err? {
            return Err(literal.error);
          }
          operandStack := operandStack + [literal.value];
        } else {
          if |operandStack| < 2 {
            return Err(EvalError.NotEnoughOperands);
          }
          var operand2 := operandStack[|operandStack| - 1];
          var operand1 := operandStack[|operandStack| - 2];
          operandStack := operandStack[..|operandStack| - 2];
          var result := Combine(CurrentRules(), operand1, operand2, token);
          if result.Err? {
            return Err(result.error);
          }
          operandStack := operandStack + [result.value];
        }
      }
      assert tokens[|tokens|..] == [];
      if |operandStack| != 1 {
        return Err(EvalError.TooManyOperands);
      }
      r := Ok(operandStack[0]);
    }

    /** `evaluate_infix`: the postfix string of `s`, evaluated. On text that is a
        standard reading of a tree, the tree's checked evaluation. */
    method EvaluateInfix(s: string) returns (r: Result<Num, EvalError>)
      ensures r == Pipeline.EvaluateInfix(CurrentRules(), s)
      ensures forall x :: Reads(LeftToRight, x) && Infix(x) == s && Evaluable(Tree(x)) ==>
        r == EvalTree(CurrentRules(), Tree(x))
    {
      var postfix := InfixToPostfix(s);
      r := EvaluatePostfix(postfix);
      forall x | Reads(LeftToRight, x) && Infix(x) == s && Evaluable(Tree(x))
        ensures r == EvalTree(CurrentRules(), Tree(x))
      {
        EvaluateReading(CurrentRules(), x);
      }
    }

    /** `evaluate_prefix`: the infix string of `s`, evaluated. On the prefix string of a
        tree with plain operands, the tree's checked evaluation. */
    method EvaluatePrefix(s: string) returns (r: Result<Num, EvalError>)
      ensures r == Pipeline.EvaluatePrefix(CurrentRules(), s)
      ensures forall e :: Spelled(e) && Evaluable(e) && Join(PrefixOf(e)) == s ==>
        r == EvalTree(CurrentRules(), e)
    {
      var infix := PrefixToInfix(s);
      r := EvaluateInfix(infix);
      forall e | Spelled(e) && Evaluable(e) && Join(PrefixOf(e)) == s
        ensures r == EvalTree(CurrentRules(), e)
      {
        SpelledWritten(e);
        EvaluationsAgree(CurrentRules(), e);
      }
    }
  }

  /** The messages of the setters' `ValueError`s. */
  const NestedMessage: string := "Number of nested operations must be an integer greater than 0."
  const DifficultyMessage: string := "Difficulty level must be between 0.0 and 1.0."
  const FrequencyMessage: string := "Frequency exponential must be between 0.0 and 1.0."
  const NegationMessage: string := "Rule negation must be 'Yes' or 'No'."
  const LimitsShapeMessage: string := "Limit values must be provided as a tuple of two integers: (lower, upper)."
  const LimitsTypeMessage: string := "Both lower and upper limits must be integers."
  const LimitsOrderMessage: string := "Lower limit must be strictly less than the upper limit."

  /** An integer or a float between 0 and 1 inclusive. */
  predicate IsLevel(v: Value) {
    (v.IntValue? && 0 <= v.i <= 1) || (v.FloatValue? && 0.0 <= v.x <= 1.0)
  }

  function LevelOf(v: Value): real
    requires IsLevel(v)
  {
    if v.IntValue? then v.i as real else v.x
  }

  /** A tuple of two integers, the first strictly smaller. */
  predicate LimitsFine(v: Value) {
    v.TupleValue? && |v.items| == 2 && v.items[0].IntValue? && v.items[1].IntValue?
    && v.items[0].i < v.items[1].i
  }

  /** The message of the first check a refused pair of limits fails. */
  function LimitsMessage(v: Value): string {
    if !v.TupleValue? || |v.items| != 2 then
      LimitsShapeMessage
    else if !v.items[0].IntValue? || !v.items[1].IntValue? then
      LimitsTypeMessage
    else if v.items[0].i >= v.items[1].i then
      LimitsOrderMessage
    else ""
  }
}
