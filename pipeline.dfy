/** The engine's string interface: each converter returns either its result or an
    error message starting with `Error:`, and `evaluate_infix` and `evaluate_prefix`
    feed one converter's string to the next. The results here say what that chaining
    computes: the value of the tree a well-formed input spells, and, for an input a
    converter refuses, the evaluator's own "not enough operands" error, because the
    message's first word is not a number. */
module Pipeline {
  import opened Results
  import opened Text
  import opened Unicodes
  import opened FloatSyntax
  import opened Tokenizer
  import opened Shunting
  import opened ExprTree
  import opened Rebuild
  import opened Evaluation
  import opened Scans
  import opened Precedence

  // ---------------------------------------------------------------------------------
  // The converters' strings

  /** The engine's error strings: `Error: ` and the text. */
  function Message(text: string): string {
    "Error: " + text
  }

  /** The message `infix_to_postfix` returns instead of a postfix string. */
  function PostfixMessage(e: ConvertError): string {
    match e
    case MismatchedParentheses => Message("Mismatched parentheses.")
    case InvalidToken(t) => Message("Invalid token '" + t + "' in expression.")
  }

  /** The message `infix_to_prefix` returns instead of a prefix string. */
  function PrefixMessage(e: ConvertError): string {
    match e
    case MismatchedParentheses => Message("Mismatched parentheses in prefix conversion.")
    case InvalidToken(t) => Message("Invalid token '" + t + "' in prefix conversion.")
  }

  /** The message `prefix_to_infix` returns instead of an infix string. */
  function PrefixRebuildMessage(e: RebuildError): string {
    match e
    case NotEnoughOperands => Message("Invalid prefix expression, not enough operands.")
    case InvalidToken(t) => Message("Invalid token '" + t + "' in prefix expression.")
    case TooManyOperands => Message("Invalid prefix expression, too many operands remaining.")
  }

  /** The message `postfix_to_infix` returns instead of an infix string. */
  function PostfixRebuildMessage(e: RebuildError): string {
    match e
    case NotEnoughOperands => Message("Invalid postfix expression, not enough operands.")
    case InvalidToken(t) => Message("Invalid token '" + t + "' in postfix expression.")
    case TooManyOperands => Message("Invalid postfix expression, too many operands remaining.")
  }

  /** `infix_to_postfix(s)` as the string it returns: the tokens joined by spaces. */
  function InfixToPostfixText(s: string): string {
    match InfixToPostfix(s)
    case Ok(ts) => Join(ts)
    case Err(e) => PostfixMessage(e)
  }

  /** `infix_to_prefix(s)` as the string it returns. */
  function InfixToPrefixText(s: string): string {
    match InfixToPrefix(s)
    case Ok(ts) => Join(ts)
    case Err(e) => PrefixMessage(e)
  }

  /** `prefix_to_infix(s)` as the string it returns. */
  function PrefixToInfixText(s: string): string {
    match PrefixToInfix(s)
    case Ok(v) => v
    case Err(e) => PrefixRebuildMessage(e)
  }

  /** `postfix_to_infix(s)` as the string it returns. */
  function PostfixToInfixText(s: string): string {
    match PostfixToInfix(s)
    case Ok(v) => v
    case Err(e) => PostfixRebuildMessage(e)
  }

  /** `evaluate_infix(s)`: the postfix string of `s`, evaluated. */
  function EvaluateInfix(rules: Rules, s: string): Result<Num, EvalError> {
    EvaluatePostfix(rules, InfixToPostfixText(s))
  }

  /** `evaluate_prefix(s)`: the infix string of `s`, evaluated. */
  function EvaluatePrefix(rules: Rules, s: string): Result<Num, EvalError> {
    EvaluateInfix(rules, PrefixToInfixText(s))
  }

  // ---------------------------------------------------------------------------------
  // Error messages reach the evaluator as text

  /** Every message starts with the word `Error:` and a space. */
  predicate IsMessage(m: string) {
    |m| >= 7 && m[..7] == "Error: "
  }

  lemma MessageIsMessage(text: string)
    ensures IsMessage(Message(text))
  {
    assert Message(text)[..7] == "Error: ";
  }

  lemma MessagesAreMessages(c: ConvertError, b: RebuildError)
    ensures IsMessage(PostfixMessage(c)) && IsMessage(PrefixMessage(c))
    ensures IsMessage(PrefixRebuildMessage(b)) && IsMessage(PostfixRebuildMessage(b))
  {
    match c {
    case MismatchedParentheses =>
      MessageIsMessage("Mismatched parentheses.");
      MessageIsMessage("Mismatched parentheses in prefix conversion.");
    case InvalidToken(t) =>
      MessageIsMessage("Invalid token '" + t + "' in expression.");
      MessageIsMessage("Invalid token '" + t + "' in prefix conversion.");
    }
    match b {
    case NotEnoughOperands =>
      MessageIsMessage("Invalid prefix expression, not enough operands.");
      MessageIsMessage("Invalid postfix expression, not enough operands.");
    case InvalidToken(t) =>
      MessageIsMessage("Invalid token '" + t + "' in prefix expression.");
      MessageIsMessage("Invalid token '" + t + "' in postfix expression.");
    case TooManyOperands =>
      MessageIsMessage("Invalid prefix expression, too many operands remaining.");
      MessageIsMessage("Invalid postfix expression, too many operands remaining.");
    }
  }

  /** `float("Error:")` fails: the word is neither a number nor `inf` or `nan`. */
  lemma ErrorWordIsNotFloat()
    ensures !IsFloatText("Error:")
  {
    var t := "Error:";
    assert StripRight(t) == t;
    assert t[0..] == t;
  }

  /** `evaluate_postfix` on a message reads `Error:` as an operator with an empty stack. */
  lemma {:induction false} EvaluateMessage(rules: Rules, m: string)
    requires IsMessage(m)
    ensures EvaluatePostfix(rules, m) == Err(EvalError.NotEnoughOperands)
  {
    var rest := m[6..];
    assert m == "Error:" + rest;
    assert rest[0] == ' ';
    SplitWordThenRest("Error:", rest);
    ErrorWordIsNotFloat();
    var ts := Split(m);
    assert ts[0] == "Error:";
    assert EvalStep(rules, [], "Error:") == Err(EvalError.NotEnoughOperands);
  }

  /** When `infix_to_postfix` refuses its input, `evaluate_infix` does not pass on the
      converter's message: it reports that the postfix string has too few operands. */
  lemma EvaluateInfixOfRefused(rules: Rules, s: string)
    requires InfixToPostfix(s).Err?
    ensures EvaluateInfix(rules, s) == Err(EvalError.NotEnoughOperands)
  {
    var c := InfixToPostfix(s).error;
    MessagesAreMessages(c, RebuildError.NotEnoughOperands);
    EvaluateMessage(rules, PostfixMessage(c));
  }

  /** The scan of a suffix only appends tokens. */
  lemma {:induction false} ScanRestKeeps(w: string, tokens: seq<string>, atStart: bool)
    ensures |ScanRest(w, tokens, atStart)| >= |tokens|
    ensures ScanRest(w, tokens, atStart)[..|tokens|] == tokens
    decreases |w|
  {
    if w == [] {
    } else if IsSpace(w[0]) {
      ScanRestKeeps(w[1..], tokens, false);
    } else if w[0] == '-' && (atStart || SignFollows(tokens)) {
      var n := RunLength(w[1..]);
      if n == 0 {
        ScanRestKeeps(w[1..], tokens + ["-"], false);
        assert (tokens + ["-"])[..|tokens|] == tokens;
      } else {
        ScanRestKeeps(w[1 + n..], tokens + [w[..1 + n]], false);
        assert (tokens + [w[..1 + n]])[..|tokens|] == tokens;
      }
    } else if IsOperandChar(w[0]) {
      var n := RunLength(w[1..]);
      ScanRestKeeps(w[1 + n..], tokens + [w[..1 + n]], false);
      assert (tokens + [w[..1 + n]])[..|tokens|] == tokens;
    } else {
      ScanRestKeeps(w[1..], tokens + [[w[0]]], false);
      assert (tokens + [[w[0]]])[..|tokens|] == tokens;
    }
  }

  /** The tokenizer splits a message into `Error`, `:` and the rest. */
  lemma {:induction false} TokenizeMessage(m: string)
    requires IsMessage(m)
    ensures |Tokenize(m)| >= 2 && Tokenize(m)[0] == "Error" && Tokenize(m)[1] == ":"
  {
    var x := m[6..];
    TokenizeAsScan(m);
    MessageSplit(m);
    ScanErrorColon(x);
    var r := ScanRest(x, ["Error", ":"], false);
    assert Tokenize(m) == r;
    ScanRestKeeps(x, ["Error", ":"], false);
    assert r[0] == r[..2][0] && r[1] == r[..2][1];
  }

  lemma TokenizeAsScan(s: string)
    ensures Tokenize(s) == ScanRest(s, [], true)
  {
    TokenizeFromRest(s, 0, []);
    assert s[0..] == s;
  }

  lemma MessageSplit(m: string)
    requires IsMessage(m)
    ensures m == "Error" + (":" + m[6..])
  {
    assert m[..7] == "Error: ";
    assert m == m[..5] + (m[5..6] + m[6..]);
  }

  /** The scan reads `Error` as one operand and `:` as a symbol of its own. */
  lemma ScanErrorColon(x: string)
    ensures ScanRest("Error" + (":" + x), [], true) == ScanRest(x, ["Error", ":"], false)
  {
    AlnumCharsEach("Error");
    assert IsPlainOperand("Error");
    assert !IsOperandChar((":" + x)[0]);
    ScanOperand("Error", ":" + x, [], true);
    assert [] + ["Error"] == ["Error"];
    assert !IsOperandChar(':') && !IsSpace(':');
    ScanSymbol(":", x, ["Error"]);
    assert ["Error"] + [":"] == ["Error", ":"];
  }

  /** `:` is no token the converters accept. */
  lemma ColonIsInvalid()
    ensures !IsValidToken(":")
  {
    SymbolNotFloatText(':');
    assert !AlnumChars(":");
    assert !AllSuperscript(":");
  }

  /** When `prefix_to_infix` refuses its input, `evaluate_prefix` hands the message to
      `infix_to_postfix`, which refuses the `:` in it, so the evaluator again reports
      too few operands. */
  lemma EvaluatePrefixOfRefused(rules: Rules, s: string)
    requires PrefixToInfix(s).Err?
    ensures EvaluatePrefix(rules, s) == Err(EvalError.NotEnoughOperands)
  {
    var m := PrefixRebuildMessage(PrefixToInfix(s).error);
    MessagesAreMessages(MismatchedParentheses, PrefixToInfix(s).error);
    assert PrefixToInfixText(s) == m;
    TokenizeMessage(m);
    ColonIsInvalid();
    ShuntOutcome(LeftToRight, Tokenize(m));
    assert !AllValid(Tokenize(m));
    EvaluateInfixOfRefused(rules, m);
  }

  // ---------------------------------------------------------------------------------
  // Well-formed input

  predicate Words(ts: seq<string>) {
    forall k :: 0 <= k < |ts| ==> IsWord(ts[k])
  }

  lemma WordsAppend(a: seq<string>, b: seq<string>)
    requires Words(a) && Words(b)
    ensures Words(a + b)
  {
    assert forall k :: 0 <= k < |a + b| ==> (a + b)[k] == if k < |a| then a[k] else b[k - |a|];
  }

  /** The tokens of a tree's prefix and postfix forms are words `split()` gives back. */
  lemma {:induction false} WrittenWords(e: Expr)
    requires Written(e)
    ensures Words(PrefixOf(e)) && Words(PostfixOf(e))
  {
    match e
    case Leaf(t) =>
      forall m | 0 <= m < |t| ensures !IsSpace(t[m]) {
        if IsOperandChar(t[m]) {
          OperandCharNotSpace(t[m]);
        }
      }
    case Node(op, l, r) =>
      WrittenWords(l);
      WrittenWords(r);
      assert Words([op]);
      WordsAppend([op], PrefixOf(l));
      WordsAppend([op] + PrefixOf(l), PrefixOf(r));
      WordsAppend(PostfixOf(l), PostfixOf(r));
      WordsAppend(PostfixOf(l) + PostfixOf(r), [op]);
  }

  /** `evaluate_infix` on the text of a standard reading evaluates the reading's tree. */
  lemma EvaluateReading(rules: Rules, x: Shape)
    requires Reads(LeftToRight, x) && Evaluable(Tree(x))
    ensures EvaluateInfix(rules, Infix(x)) == EvalTree(rules, Tree(x))
  {
    var e := Tree(x);
    ReadsWritten(LeftToRight, x);
    ConvertReading(x);
    WrittenWords(e);
    SplitJoin(PostfixOf(e));
    assert InfixToPostfixText(Infix(x)) == Join(PostfixOf(e));
    EvaluatePostfixOfTree(rules, Join(PostfixOf(e)), e);
  }

  /** The engine's evaluations agree on a tree with operand-token leaves (signed ones
      included), literal leaves and operators: its postfix string and both of its infix
      renderings evaluate to the tree's checked evaluation, and so does its prefix
      string when no leaf carries a sign, which `prefix_to_infix` would refuse. */
  lemma EvaluationsAgree(rules: Rules, e: Expr)
    requires Written(e) && Evaluable(e)
    ensures EvaluatePostfix(rules, Join(PostfixOf(e))) == EvalTree(rules, e)
    ensures EvaluateInfix(rules, FullParen(e)) == EvalTree(rules, e)
    ensures EvaluateInfix(rules, MinParen(e)) == EvalTree(rules, e)
    ensures Spelled(e) ==> EvaluatePrefix(rules, Join(PrefixOf(e))) == EvalTree(rules, e)
  {
    WrittenWords(e);
    SplitJoin(PostfixOf(e));
    SplitJoin(PrefixOf(e));
    EvaluatePostfixOfTree(rules, Join(PostfixOf(e)), e);
    FullShapeReads(e);
    EvaluateReading(rules, FullShape(e));
    MinShapeReads(e);
    EvaluateReading(rules, MinShape(e));
    if Spelled(e) {
      SpelledIsPlain(e);
      PrefixToInfixOfTree(Join(PrefixOf(e)), e);
      assert PrefixToInfixText(Join(PrefixOf(e))) == FullParen(e);
    }
  }

  /** `evaluate_prefix` on the prefix string of such a tree succeeds exactly when every
      leaf is an integer literal and every operation passes the rules, and then returns
      the tree's exact value. */
  lemma EvaluatePrefixMeaning(rules: Rules, e: Expr)
    requires Spelled(e) && Evaluable(e)
    ensures EvaluatePrefix(rules, Join(PrefixOf(e))).Ok? <==> Admissible(rules, e)
    ensures EvaluatePrefix(rules, Join(PrefixOf(e))).Ok? ==>
      EvaluatePrefix(rules, Join(PrefixOf(e))).value.value == Exact(e)
  {
    SpelledWritten(e);
    EvaluationsAgree(rules, e);
    EvalTreeMeaning(rules, e);
  }

  /** The converters' strings round-trip through the rebuilders: the prefix string of a
      bracketed rendering rebuilds to that rendering, the postfix string rebuilds to the
      minimal rendering, and the minimal rendering converts back to the same postfix
      string. */
  lemma PrefixTextRoundTrip(e: Expr)
    requires Spelled(e)
    ensures PrefixToInfixText(InfixToPrefixText(FullParen(e))) == FullParen(e)
    ensures PostfixToInfixText(InfixToPostfixText(FullParen(e))) == MinParen(e)
    ensures InfixToPostfixText(PostfixToInfixText(Join(PostfixOf(e)))) == Join(PostfixOf(e))
  {
    SpelledWritten(e);
    ConvertFullParen(e);
    ConvertMinParen(e);
    WrittenWords(e);
    SpelledIsPlain(e);
    SplitJoin(PrefixOf(e));
    SplitJoin(PostfixOf(e));
    PrefixToInfixOfTree(Join(PrefixOf(e)), e);
    PostfixToInfixOfTree(Join(PostfixOf(e)), e);
  }
}
