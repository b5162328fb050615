/** The two infix converters of the engine, `infix_to_postfix` and `infix_to_prefix`, as
    specification functions. Both run the same shunting-yard scan; they differ only in
    which operator of equal precedence leaves the stack first and in the prefix
    converter mirroring its input and reversing its output. */
module Shunting {
  import opened Text
  import opened Unicodes
  import opened FloatSyntax
  import opened Results
  import opened Tokenizer

  /** The keys of `_PRECEDENCE`: the six binary operators the converters accept.
      The multiplication sign is not among them. */
  predicate IsOperator(t: string) {
    |t| == 1 && (t[0] == '+' || t[0] == '-' || t[0] == '*' || t[0] == DivisionSign || t[0] == '/' || t[0] == '^')
  }

  /** `_PRECEDENCE[t]` for an operator: 1 for `+ -`, 2 for `* / ÷`, 3 for `^`. */
  function Prec(t: string): nat {
    if !IsOperator(t) then 0
    else if t[0] == '+' || t[0] == '-' then 1
    else if t[0] == '^' then 3
    else 2
  }

  predicate IsBracket(t: string) { t == "(" || t == ")" }

  /** Every character a superscript digit; true of the empty string. */
  predicate AllSuperscript(t: string)
    decreases |t|
  {
    t == [] || (IsSuperscriptDigit(t[0]) && AllSuperscript(t[1..]))
  }

  lemma {:induction false} AllSuperscriptEach(t: string)
    ensures AllSuperscript(t) <==> forall i :: 0 <= i < |t| ==> IsSuperscriptDigit(t[i])
    decreases |t|
  {
    if t != [] {
      AllSuperscriptEach(t[1..]);
      assert forall i :: 1 <= i < |t| ==> t[i] == t[1..][i - 1];
    }
  }

  /** The operand test of the two rebuilding converters (`prefix_to_infix`, `postfix_to_infix`). */
  predicate IsPlainOperand(t: string) {
    IsAlnum(t) || AllSuperscript(t)
  }

  /** `is_numeric`: alphanumeric, all superscript digits, or text `float()` accepts. */
  predicate IsNumeric(t: string) {
    IsPlainOperand(t) || IsFloatText(t)
  }

  /** A token the converters accept. */
  predicate IsValidToken(t: string) {
    IsNumeric(t) || IsBracket(t) || IsOperator(t)
  }

  /** The only precedence ties: `^` with `^`, and within the additive and the
      multiplicative operators. */
  lemma PrecedenceTies(a: string, b: string)
    requires IsOperator(a) && IsOperator(b)
    ensures Prec(a) >= 1
    ensures Prec(a) == 3 <==> a == "^"
  {
  }

  /** Operators and brackets are never operands, so the first branch of the scan
      cannot swallow them. */
  lemma SymbolsAreNotNumeric(t: string)
    requires IsOperator(t) || IsBracket(t)
    ensures !IsNumeric(t)
  {
    assert |t| == 1 && !FloatSyntax.IsDigit(t[0]) && !IsAlnumChar(t[0]) && !IsSuperscriptDigit(t[0]);
    assert t == [t[0]];
    SymbolNotFloatText(t[0]);
  }

  // ---------------------------------------------------------------------------------
  // Sequences helpers

  function Reverse<T>(s: seq<T>): (r: seq<T>)
    ensures |r| == |s|
    ensures forall k :: 0 <= k < |s| ==> r[k] == s[|s| - 1 - k]
    decreases |s|
  {
    if s == [] then [] else Reverse(s[1..]) + [s[0]]
  }

  /** The operand tokens of a token list, in order. */
  function Operands(ts: seq<string>): seq<string>
    decreases |ts|
  {
    if ts == [] then []
    else Operands(ts[..|ts| - 1]) + (if IsNumeric(ts[|ts| - 1]) then [ts[|ts| - 1]] else [])
  }

  /** A token list without its brackets. */
  function Unbracketed(ts: seq<string>): seq<string>
    decreases |ts|
  {
    if ts == [] then []
    else Unbracketed(ts[..|ts| - 1]) + (if IsBracket(ts[|ts| - 1]) then [] else [ts[|ts| - 1]])
  }

  /** Open minus closed brackets: the nesting depth after the tokens. */
  function Depth(ts: seq<string>): int
    decreases |ts|
  {
    if ts == [] then 0
    else Depth(ts[..|ts| - 1]) + (if ts[|ts| - 1] == "(" then 1 else if ts[|ts| - 1] == ")" then -1 else 0)
  }

  /** Every closing bracket has an opening one before it, and every opening one is closed. */
  predicate Balanced(ts: seq<string>) {
    Depth(ts) == 0 && forall j :: 0 < j <= |ts| ==> Depth(ts[..j]) >= 0
  }

  lemma {:induction false} OperandsAppend(a: seq<string>, b: seq<string>)
    ensures Operands(a + b) == Operands(a) + Operands(b)
    decreases |b|
  {
    if b != [] {
      var b' := b[..|b| - 1];
      assert (a + b)[..|a + b| - 1] == a + b';
      OperandsAppend(a, b');
    } else {
      assert a + b == a;
    }
  }

  lemma {:induction false} UnbracketedAppend(a: seq<string>, b: seq<string>)
    ensures Unbracketed(a + b) == Unbracketed(a) + Unbracketed(b)
    decreases |b|
  {
    if b != [] {
      var b' := b[..|b| - 1];
      assert (a + b)[..|a + b| - 1] == a + b';
      UnbracketedAppend(a, b');
    } else {
      assert a + b == a;
    }
  }

  lemma {:induction false} OperandsReverse(s: seq<string>)
    ensures Operands(Reverse(s)) == Reverse(Operands(s))
    decreases |s|
  {
    if s != [] {
      var s' := s[..|s| - 1];
      var x := s[|s| - 1];
      var xs: seq<string> := if IsNumeric(x) then [x] else [];
      assert s == s' + [x];
      assert Operands(s) == Operands(s') + xs;
      ReverseAppend(s', [x]);
      assert Reverse([x]) == [x];
      OperandsAppend([x], Reverse(s'));
      OperandsReverse(s');
      assert [x][..0] == [];
      assert Operands([x]) == xs;
      ReverseAppend(Operands(s'), xs);
      assert Reverse(xs) == xs;
    }
  }

  /** Moving the top of `s[..n]` to the output extends the reversed suffix. */
  lemma MoveTop(s: seq<string>, n: nat, output0: seq<string>, output: seq<string>)
    requires 0 < n <= |s| && output == output0 + Reverse(s[n..])
    ensures output + [s[n - 1]] == output0 + Reverse(s[n - 1..])
    ensures s[..n][..n - 1] == s[..n - 1]
  {
    assert s[n - 1..][1..] == s[n..];
  }

  lemma {:induction false} ReverseAppend<T>(a: seq<T>, b: seq<T>)
    ensures Reverse(a + b) == Reverse(b) + Reverse(a)
  {
    assert forall k :: 0 <= k < |a| + |b| ==> Reverse(a + b)[k] == (Reverse(b) + Reverse(a))[k];
  }

  lemma ReverseReverse<T>(s: seq<T>)
    ensures Reverse(Reverse(s)) == s
  {
  }

  lemma ReverseMultiset<T>(s: seq<T>)
    ensures multiset(Reverse(s)) == multiset(s)
    decreases |s|
  {
    if s != [] {
      ReverseMultiset(s[1..]);
      assert s == [s[0]] + s[1..];
    }
  }

  lemma {:induction false} DepthAppend(a: seq<string>, b: seq<string>)
    ensures Depth(a + b) == Depth(a) + Depth(b)
    decreases |b|
  {
    if b == [] {
      assert a + b == a;
    } else {
      var b' := b[..|b| - 1];
      assert (a + b)[..|a + b| - 1] == a + b';
      DepthAppend(a, b');
    }
  }

  lemma {:induction false} DepthNoBrackets(s: seq<string>)
    requires forall k :: 0 <= k < |s| ==> !IsBracket(s[k])
    ensures Depth(s) == 0
    decreases |s|
  {
    if s != [] {
      DepthNoBrackets(s[..|s| - 1]);
    }
  }

  // ---------------------------------------------------------------------------------
  // The scan

  /** Which of two operators of equal precedence leaves the stack first:
      the postfix converter reads left to right and keeps `^` right-associative; the
      prefix converter reads the mirrored input and so pops on a tie only for `^`. */
  datatype Direction = LeftToRight | RightToLeft

  datatype ConvertError = MismatchedParentheses | InvalidToken(token: string)

  datatype ShuntState = ShuntState(output: seq<string>, stack: seq<string>)

  /** The stacked operator `top` is moved to the output before `cur` is pushed. */
  predicate Yields(dir: Direction, top: string, cur: string) {
    && top != "("
    && (Prec(top) > Prec(cur)
        || (Prec(top) == Prec(cur) && (if dir == LeftToRight then cur != "^" else cur == "^")))
  }

  /** How many stack entries stay when `cur` arrives: the operators above them all
      yield to `cur`, and the entry just below them does not. */
  function Kept(dir: Direction, s: seq<string>, cur: string): (k: nat)
    ensures k <= |s|
    ensures forall m :: k <= m < |s| ==> Yields(dir, s[m], cur)
    ensures k == 0 || !Yields(dir, s[k - 1], cur)
    decreases |s|
  {
    if |s| > 0 && Yields(dir, s[|s| - 1], cur) then Kept(dir, s[..|s| - 1], cur) else |s|
  }

  /** The inner `while` of the operator branch: the yielding operators go to the
      output, the last stacked first. */
  function PopYielding(dir: Direction, st: ShuntState, cur: string): ShuntState {
    var k := Kept(dir, st.stack, cur);
    ShuntState(st.output + Reverse(st.stack[k..]), st.stack[..k])
  }

  /** The index of the last `(` on the stack, or -1. */
  function LastOpen(s: seq<string>): (k: int)
    ensures -1 <= k < |s|
    ensures k >= 0 ==> s[k] == "("
    ensures forall m :: k < m < |s| ==> s[m] != "("
    decreases |s|
  {
    if |s| == 0 then -1 else if s[|s| - 1] == "(" then |s| - 1 else LastOpen(s[..|s| - 1])
  }

  /** The `)` branch: the operators above the nearest `(` go to the output and the `(`
      is dropped; with no `(` on the stack the brackets are mismatched. */
  function PopToOpen(st: ShuntState): Result<ShuntState, ConvertError> {
    var k := LastOpen(st.stack);
    if k < 0 then Err(MismatchedParentheses)
    else Ok(ShuntState(st.output + Reverse(st.stack[k + 1..]), st.stack[..k]))
  }

  /** One token of the scan. */
  function ShuntToken(dir: Direction, st: ShuntState, t: string): Result<ShuntState, ConvertError> {
    if IsNumeric(t) then Ok(ShuntState(st.output + [t], st.stack))
    else if t == "(" then Ok(ShuntState(st.output, st.stack + ["("]))
    else if t == ")" then PopToOpen(st)
    else if IsOperator(t) then
      var r := PopYielding(dir, st, t);
      Ok(ShuntState(r.output, r.stack + [t]))
    else Err(InvalidToken(t))
  }

  /** The scan of `tokens[i..]` from state `st`; the first failing token decides the error. */
  function ShuntFrom(dir: Direction, tokens: seq<string>, i: nat, st: ShuntState): Result<ShuntState, ConvertError>
    requires i <= |tokens|
    decreases |tokens| - i
  {
    if i == |tokens| then Ok(st)
    else match ShuntToken(dir, st, tokens[i])
      case Err(e) => Err(e)
      case Ok(st') => ShuntFrom(dir, tokens, i + 1, st')
  }

  /** The final `while`: the rest of the stack goes to the output, the last stacked
      first; a `(` left over means the brackets are mismatched. */
  function Drain(st: ShuntState): Result<seq<string>, ConvertError> {
    if "(" in st.stack then Err(MismatchedParentheses) else Ok(st.output + Reverse(st.stack))
  }

  /** The whole scan over a token list. */
  function Shunt(dir: Direction, tokens: seq<string>): Result<seq<string>, ConvertError> {
    match ShuntFrom(dir, tokens, 0, ShuntState([], []))
    case Err(e) => Err(e)
    case Ok(st) => Drain(st)
  }

  /** Brackets swapped: the prefix converter's treatment of each token. */
  function SwapBracket(t: string): string {
    if t == "(" then ")" else if t == ")" then "(" else t
  }

  /** The prefix converter's `reversed_tokens`: reversed, with brackets swapped. */
  function Mirror(ts: seq<string>): (r: seq<string>)
    ensures |r| == |ts|
    ensures forall k :: 0 <= k < |ts| ==> r[k] == SwapBracket(ts[|ts| - 1 - k])
  {
    seq(|ts|, k requires 0 <= k < |ts| => SwapBracket(ts[|ts| - 1 - k]))
  }

  /** `infix_to_postfix(s)`, as tokens (the source joins them with single spaces). */
  function InfixToPostfix(s: string): Result<seq<string>, ConvertError> {
    Shunt(LeftToRight, Tokenize(s))
  }

  /** `infix_to_prefix(s)`, as tokens: the scan of the mirrored tokens, reversed. */
  function InfixToPrefix(s: string): Result<seq<string>, ConvertError> {
    ShuntPrefix(Tokenize(s))
  }

  // ---------------------------------------------------------------------------------
  // What the scan keeps

  /** What the scan of `done` has produced so far: operands in order on the output,
      operators moved between stack and output, one `(` on the stack per open bracket. */
  predicate Produced(done: seq<string>, st: ShuntState) {
    && (forall k :: 0 <= k < |st.stack| ==> st.stack[k] == "(" || IsOperator(st.stack[k]))
    && Operands(st.output) == Operands(done)
    && multiset(st.output) + multiset(Unbracketed(st.stack)) == multiset(Unbracketed(done))
    && Depth(st.stack) == Depth(done)
  }

  lemma {:induction false} OperatorsNotNumeric(s: seq<string>)
    requires forall k :: 0 <= k < |s| ==> IsOperator(s[k])
    ensures Operands(s) == [] && Unbracketed(s) == s && Depth(s) == 0
    decreases |s|
  {
    if s != [] {
      var s', x := s[..|s| - 1], s[|s| - 1];
      assert forall k :: 0 <= k < |s'| ==> IsOperator(s'[k]) by {
        forall k | 0 <= k < |s'| ensures IsOperator(s'[k]) {
          assert s'[k] == s[k];
        }
      }
      OperatorsNotNumeric(s');
      OperatorKind(x);
      assert s == s' + [x];
    }
  }

  /** An operator is neither an operand nor a bracket. */
  lemma OperatorKind(t: string)
    requires IsOperator(t)
    ensures !IsNumeric(t) && !IsBracket(t)
  {
    SymbolsAreNotNumeric(t);
    assert "("[0] == '(' && ")"[0] == ')';
  }

  lemma MoveKeepsOperands(output: seq<string>, b: seq<string>)
    requires forall k :: 0 <= k < |b| ==> IsOperator(b[k])
    ensures Operands(output + Reverse(b)) == Operands(output)
  {
    var rb := Reverse(b);
    assert forall k :: 0 <= k < |rb| ==> IsOperator(rb[k]);
    OperatorsNotNumeric(rb);
    OperandsAppend(output, rb);
  }

  lemma MoveKeepsMultiset(output: seq<string>, a: seq<string>, b: seq<string>)
    requires forall k :: 0 <= k < |b| ==> IsOperator(b[k])
    ensures multiset(output + Reverse(b)) + multiset(Unbracketed(a))
         == multiset(output) + multiset(Unbracketed(a + b))
  {
    OperatorsNotNumeric(b);
    UnbracketedAppend(a, b);
    ReverseMultiset(b);
  }

  lemma MoveKeepsDepth(a: seq<string>, b: seq<string>)
    requires forall k :: 0 <= k < |b| ==> IsOperator(b[k])
    ensures Depth(a) == Depth(a + b)
  {
    OperatorsNotNumeric(b);
    DepthAppend(a, b);
  }

  /** Moving the operators above index `k` from the stack to the output, the last
      stacked first, keeps what has been produced. */
  lemma MoveKeepsProduced(done: seq<string>, output: seq<string>, stack: seq<string>, k: nat)
    requires Produced(done, ShuntState(output, stack))
    requires k <= |stack| && forall m :: k <= m < |stack| ==> IsOperator(stack[m])
    ensures Produced(done, ShuntState(output + Reverse(stack[k..]), stack[..k]))
  {
    var a, b := stack[..k], stack[k..];
    assert stack == a + b;
    assert forall m :: 0 <= m < |b| ==> IsOperator(b[m]) by {
      forall m | 0 <= m < |b| ensures IsOperator(b[m]) {
        assert b[m] == stack[k + m];
      }
    }
    assert forall m :: 0 <= m < |a| ==> a[m] == stack[m];
    MoveKeepsOperands(output, b);
    MoveKeepsMultiset(output, a, b);
    MoveKeepsDepth(a, b);
  }

  lemma ProducedSnoc(done: seq<string>, t: string)
    ensures Operands(done + [t]) == Operands(done) + (if IsNumeric(t) then [t] else [])
    ensures Unbracketed(done + [t]) == Unbracketed(done) + (if IsBracket(t) then [] else [t])
    ensures Depth(done + [t]) == Depth(done) + (if t == "(" then 1 else if t == ")" then -1 else 0)
  {
    assert (done + [t])[..|done|] == done;
  }

  lemma OperandStep(done: seq<string>, st: ShuntState, t: string)
    requires Produced(done, st) && IsNumeric(t)
    ensures Depth(done + [t]) >= 0
    ensures Produced(done + [t], ShuntState(st.output + [t], st.stack))
  {
    ProducedSnoc(done, t);
    OperandsAppend(st.output, [t]);
    assert [t][..0] == [];
    assert Operands([t]) == [t];
    assert !IsBracket(t) by {
      if IsBracket(t) { SymbolsAreNotNumeric(t); }
    }
    assert multiset(st.output + [t]) == multiset(st.output) + multiset{t};
    assert multiset(Unbracketed(done + [t])) == multiset(Unbracketed(done)) + multiset{t};
    DepthNonNegative(st.stack);
  }

  lemma OpenStep(done: seq<string>, st: ShuntState)
    requires Produced(done, st)
    ensures Depth(done + ["("]) >= 0
    ensures Produced(done + ["("], ShuntState(st.output, st.stack + ["("]))
  {
    OpenSnoc(done);
    OpenSnoc(st.stack);
    StackSnoc(st.stack, "(");
    DepthNonNegative(st.stack);
  }

  /** A `(` added after `ts` is no operand, is dropped by `Unbracketed` and opens one level. */
  lemma OpenSnoc(ts: seq<string>)
    ensures Operands(ts + ["("]) == Operands(ts)
    ensures Unbracketed(ts + ["("]) == Unbracketed(ts)
    ensures Depth(ts + ["("]) == Depth(ts) + 1
  {
    SymbolsAreNotNumeric("(");
    ProducedSnoc(ts, "(");
  }

  lemma DropOpen(done: seq<string>, output: seq<string>, stack: seq<string>)
    requires Produced(done, ShuntState(output, stack))
    requires |stack| > 0 && stack[|stack| - 1] == "("
    ensures Produced(done + [")"], ShuntState(output, stack[..|stack| - 1]))
  {
    var a := stack[..|stack| - 1];
    assert stack == a + ["("];
    CloseSnoc(done);
    OpenSnoc(a);
    StackPrefix(stack, |stack| - 1);
  }

  /** A `)` added after `ts` is no operand, is dropped by `Unbracketed` and closes one level. */
  lemma CloseSnoc(ts: seq<string>)
    ensures Operands(ts + [")"]) == Operands(ts)
    ensures Unbracketed(ts + [")"]) == Unbracketed(ts)
    ensures Depth(ts + [")"]) == Depth(ts) - 1
  {
    SymbolsAreNotNumeric(")");
    ProducedSnoc(ts, ")");
  }

  /** A prefix of a stack of brackets and operators is one too. */
  lemma StackPrefix(s: seq<string>, n: nat)
    requires n <= |s| && forall k :: 0 <= k < |s| ==> s[k] == "(" || IsOperator(s[k])
    ensures forall k :: 0 <= k < |s[..n]| ==> s[..n][k] == "(" || IsOperator(s[..n][k])
  {
  }

  lemma PushOperator(done: seq<string>, output: seq<string>, a: seq<string>, t: string)
    requires Produced(done, ShuntState(output, a)) && IsOperator(t)
    ensures Produced(done + [t], ShuntState(output, a + [t]))
  {
    OperatorSnoc(done, t);
    OperatorSnoc(a, t);
    StackSnoc(a, t);
    var ua := Unbracketed(a);
    var ud := Unbracketed(done);
    assert multiset(ua + [t]) == multiset(ua) + multiset{t};
    assert multiset(ud + [t]) == multiset(ud) + multiset{t};
  }

  /** An operator added after `ts` is no operand, is kept by `Unbracketed` and leaves the depth. */
  lemma OperatorSnoc(ts: seq<string>, t: string)
    requires IsOperator(t)
    ensures Operands(ts + [t]) == Operands(ts)
    ensures Unbracketed(ts + [t]) == Unbracketed(ts) + [t]
    ensures Depth(ts + [t]) == Depth(ts)
  {
    SymbolsAreNotNumeric(t);
    ProducedSnoc(ts, t);
  }

  /** A stack of brackets and operators stays one when an operator or `(` is pushed. */
  lemma StackSnoc(a: seq<string>, t: string)
    requires forall k :: 0 <= k < |a| ==> a[k] == "(" || IsOperator(a[k])
    requires t == "(" || IsOperator(t)
    ensures forall k :: 0 <= k < |a + [t]| ==> (a + [t])[k] == "(" || IsOperator((a + [t])[k])
  {
    forall k | 0 <= k < |a + [t]| ensures (a + [t])[k] == "(" || IsOperator((a + [t])[k]) {
      if k < |a| { assert (a + [t])[k] == a[k]; }
    }
  }

  lemma CloseStepOk(done: seq<string>, st: ShuntState)
    requires Produced(done, st)
    ensures PopToOpen(st).Ok? <==> Depth(done + [")"]) >= 0
  {
    ProducedSnoc(done, ")");
    DepthNonNegative(st.stack);
  }

  lemma CloseStep(done: seq<string>, st: ShuntState)
    requires Produced(done, st)
    ensures PopToOpen(st).Ok? <==> Depth(done + [")"]) >= 0
    ensures PopToOpen(st).Ok? ==> Produced(done + [")"], PopToOpen(st).value)
  {
    CloseStepOk(done, st);
    var k := LastOpen(st.stack);
    if k >= 0 {
      CloseAt(done, st.output, st.stack, k);
    }
  }

  /** Popping to the nearest `(` at `k` and dropping it keeps what has been produced. */
  lemma CloseAt(done: seq<string>, output: seq<string>, s: seq<string>, k: int)
    requires Produced(done, ShuntState(output, s)) && k == LastOpen(s) && k >= 0
    ensures Produced(done + [")"], ShuntState(output + Reverse(s[k + 1..]), s[..k]))
  {
    AboveOpen(s, k);
    MoveKeepsProduced(done, output, s, k + 1);
    var below := s[..k + 1];
    assert below[..|below| - 1] == s[..k];
    DropOpen(done, output + Reverse(s[k + 1..]), below);
  }

  /** Above the nearest `(` a stack of brackets and operators holds operators only. */
  lemma AboveOpen(s: seq<string>, k: int)
    requires forall m :: 0 <= m < |s| ==> s[m] == "(" || IsOperator(s[m])
    requires k == LastOpen(s) && k >= 0
    ensures forall m :: k + 1 <= m < |s| ==> IsOperator(s[m])
    ensures s[..k + 1][k] == "("
  {
  }

  lemma OperatorStep(dir: Direction, done: seq<string>, st: ShuntState, t: string)
    requires Produced(done, st) && IsOperator(t)
    ensures Depth(done + [t]) >= 0
    ensures
      var r := PopYielding(dir, st, t);
      Produced(done + [t], ShuntState(r.output, r.stack + [t]))
  {
    var s := st.stack;
    var k := Kept(dir, s, t);
    assert forall m :: k <= m < |s| ==> IsOperator(s[m]) by {
      forall m | k <= m < |s| ensures IsOperator(s[m]) {
        assert Yields(dir, s[m], t);
      }
    }
    MoveKeepsProduced(done, st.output, s, k);
    PushOperator(done, st.output + Reverse(s[k..]), s[..k], t);
    DepthNonNegative(st.stack);
    SymbolsAreNotNumeric(t);
    ProducedSnoc(done, t);
  }

  /** One step of the scan: it succeeds exactly on a valid token that does not close
      more brackets than are open, and then keeps what has been produced. */
  lemma ShuntTokenProduces(dir: Direction, done: seq<string>, st: ShuntState, t: string)
    requires Produced(done, st)
    ensures ShuntToken(dir, st, t).Ok? <==> IsValidToken(t) && Depth(done + [t]) >= 0
    ensures ShuntToken(dir, st, t).Ok? ==> Produced(done + [t], ShuntToken(dir, st, t).value)
  {
    if IsNumeric(t) {
      OperandStep(done, st, t);
    } else if t == "(" {
      OpenStep(done, st);
    } else if t == ")" {
      CloseStep(done, st);
    } else if IsOperator(t) {
      OperatorStep(dir, done, st, t);
    }
  }

  /** A stack of `(` and operators never has negative depth. */
  lemma {:induction false} DepthNonNegative(s: seq<string>)
    requires forall k :: 0 <= k < |s| ==> s[k] == "(" || IsOperator(s[k])
    ensures Depth(s) >= 0
    ensures Depth(s) == 0 <==> "(" !in s
    decreases |s|
  {
    if s != [] {
      var s' := s[..|s| - 1];
      DepthNonNegative(s');
      assert s == s' + [s[|s| - 1]];
      assert s[|s| - 1] != ")";
    }
  }

  lemma {:induction false} UnbracketedMembers(ts: seq<string>)
    ensures forall x :: x in Unbracketed(ts) ==> x in ts && !IsBracket(x)
    decreases |ts|
  {
    if ts != [] {
      var ts' := ts[..|ts| - 1];
      UnbracketedMembers(ts');
      assert ts == ts' + [ts[|ts| - 1]];
    }
  }

  lemma OutputSymbols(out: seq<string>, tokens: seq<string>)
    requires forall j :: 0 <= j < |tokens| ==> IsValidToken(tokens[j])
    requires multiset(out) == multiset(Unbracketed(tokens))
    ensures forall k :: 0 <= k < |out| ==> IsNumeric(out[k]) || IsOperator(out[k])
  {
    UnbracketedMembers(tokens);
    forall k | 0 <= k < |out| ensures IsNumeric(out[k]) || IsOperator(out[k]) {
      var x := out[k];
      assert x in multiset(out);
      assert x in Unbracketed(tokens);
      assert x in tokens && !IsBracket(x);
      var j :| 0 <= j < |tokens| && tokens[j] == x;
      assert IsValidToken(tokens[j]);
    }
  }

  /** The token at `j` is valid and closes no more brackets than are open before it. */
  predicate TokenFine(tokens: seq<string>, j: nat)
    requires j < |tokens|
  {
    IsValidToken(tokens[j]) && Depth(tokens[..j + 1]) >= 0
  }

  /** Every token from index `i` on is fine. */
  predicate ScanFine(tokens: seq<string>, i: nat) {
    forall j :: i <= j < |tokens| ==> TokenFine(tokens, j)
  }

  lemma ScanFineStep(tokens: seq<string>, i: nat)
    requires i < |tokens|
    ensures ScanFine(tokens, i) <==> TokenFine(tokens, i) && ScanFine(tokens, i + 1)
  {
    if TokenFine(tokens, i) && ScanFine(tokens, i + 1) {
      forall j | i <= j < |tokens| ensures TokenFine(tokens, j) {
        if j > i {
          assert TokenFine(tokens, j);
        }
      }
    }
  }

  /** The scan from index `i` fails only on an invalid token or a `)` with nothing open,
      and otherwise ends in a state that has produced the whole list. */
  lemma {:induction false} ShuntFromOutcome(dir: Direction, tokens: seq<string>, i: nat, st: ShuntState)
    requires i <= |tokens| && Produced(tokens[..i], st)
    ensures ShuntFrom(dir, tokens, i, st).Ok? <==> ScanFine(tokens, i)
    ensures ShuntFrom(dir, tokens, i, st).Ok? ==> Produced(tokens, ShuntFrom(dir, tokens, i, st).value)
    ensures
      var r := ShuntFrom(dir, tokens, i, st);
      r.Err? && r.error.InvalidToken? ==> r.error.token in tokens && !IsValidToken(r.error.token)
    decreases |tokens| - i
  {
    if i == |tokens| {
      assert tokens[..i] == tokens;
    } else {
      ScanTokenStep(dir, tokens, i, st);
      ScanFineStep(tokens, i);
      var r := ShuntToken(dir, st, tokens[i]);
      if r.Ok? {
        ShuntFromOutcome(dir, tokens, i + 1, r.value);
      }
    }
  }

  /** The first token of the scan from `i`: how it ends the scan or hands it on. */
  lemma ScanTokenStep(dir: Direction, tokens: seq<string>, i: nat, st: ShuntState)
    requires i < |tokens| && Produced(tokens[..i], st)
    ensures
      var r := ShuntToken(dir, st, tokens[i]);
      && (r.Ok? <==> TokenFine(tokens, i))
      && (r.Ok? ==> Produced(tokens[..i + 1], r.value) && ShuntFrom(dir, tokens, i, st) == ShuntFrom(dir, tokens, i + 1, r.value))
      && (r.Err? ==> ShuntFrom(dir, tokens, i, st) == Err(r.error))
      && (r.Err? && r.error.InvalidToken? ==> r.error.token in tokens && !IsValidToken(r.error.token))
  {
    ScanTokenKeeps(dir, tokens, i, st);
    ScanTokenHandsOn(dir, tokens, i, st);
  }

  lemma ScanTokenKeeps(dir: Direction, tokens: seq<string>, i: nat, st: ShuntState)
    requires i < |tokens| && Produced(tokens[..i], st)
    ensures
      var r := ShuntToken(dir, st, tokens[i]);
      && (r.Ok? <==> TokenFine(tokens, i))
      && (r.Ok? ==> Produced(tokens[..i + 1], r.value))
  {
    var t := tokens[i];
    assert tokens[..i] + [t] == tokens[..i + 1];
    ShuntTokenProduces(dir, tokens[..i], st, t);
  }

  lemma ScanTokenHandsOn(dir: Direction, tokens: seq<string>, i: nat, st: ShuntState)
    requires i < |tokens|
    ensures
      var r := ShuntToken(dir, st, tokens[i]);
      && (r.Ok? ==> ShuntFrom(dir, tokens, i, st) == ShuntFrom(dir, tokens, i + 1, r.value))
      && (r.Err? ==> ShuntFrom(dir, tokens, i, st) == Err(r.error))
      && (r.Err? && r.error.InvalidToken? ==> r.error.token in tokens && !IsValidToken(r.error.token))
  {
    var r := ShuntToken(dir, st, tokens[i]);
    if r.Err? && r.error.InvalidToken? {
      assert r.error.token == tokens[i];
    }
  }

  /** Every token is one the converters accept. */
  predicate AllValid(tokens: seq<string>) {
    forall j :: 0 <= j < |tokens| ==> IsValidToken(tokens[j])
  }

  lemma ScanFineBalanced(tokens: seq<string>)
    ensures ScanFine(tokens, 0) ==> AllValid(tokens)
    ensures ScanFine(tokens, 0) && Depth(tokens) == 0 <==> AllValid(tokens) && Balanced(tokens)
  {
    if ScanFine(tokens, 0) {
      forall j | 0 < j <= |tokens| ensures Depth(tokens[..j]) >= 0 {
        assert TokenFine(tokens, j - 1);
      }
      forall j | 0 <= j < |tokens| ensures IsValidToken(tokens[j]) {
        assert TokenFine(tokens, j);
      }
    }
    if AllValid(tokens) && Balanced(tokens) {
      forall j | 0 <= j < |tokens| ensures TokenFine(tokens, j) {
        assert 0 < j + 1 <= |tokens|;
      }
    }
  }

  /** A stack of `(` and operators with no `(` holds only operators. */
  lemma NoOpenAllOperators(s: seq<string>)
    requires forall k :: 0 <= k < |s| ==> s[k] == "(" || IsOperator(s[k])
    requires "(" !in s
    ensures forall m :: 0 <= m < |s| ==> IsOperator(s[m])
  {
    forall m | 0 <= m < |s| ensures IsOperator(s[m]) {
      assert s[m] in s;
    }
  }

  /** The final drain succeeds exactly when every bracket was closed, and then the
      output holds the operands in order and every operator once. */
  lemma DrainOutcome(tokens: seq<string>, st: ShuntState)
    requires AllValid(tokens) && Produced(tokens, st)
    ensures Drain(st).Ok? <==> Depth(tokens) == 0
    ensures Drain(st).Ok? ==>
      var out := Drain(st).value;
      && Operands(out) == Operands(tokens)
      && multiset(out) == multiset(Unbracketed(tokens))
      && (forall k :: 0 <= k < |out| ==> IsNumeric(out[k]) || IsOperator(out[k]))
  {
    DepthNonNegative(st.stack);
    if Depth(tokens) == 0 {
      var out := st.output + Reverse(st.stack);
      NoOpenAllOperators(st.stack);
      MoveKeepsOperands(st.output, st.stack);
      MoveKeepsMultiset(st.output, [], st.stack);
      assert [] + st.stack == st.stack;
      OutputSymbols(out, tokens);
    }
  }

  /** The scan succeeds exactly on valid, balanced tokens; its output then holds the
      operands in their input order and every operator once, and no bracket. An
      invalid-token error names a token of the input that is not valid. */
  lemma ShuntOutcome(dir: Direction, tokens: seq<string>)
    ensures Shunt(dir, tokens).Ok? <==> AllValid(tokens) && Balanced(tokens)
    ensures Shunt(dir, tokens).Ok? ==>
      var out := Shunt(dir, tokens).value;
      && Operands(out) == Operands(tokens)
      && multiset(out) == multiset(Unbracketed(tokens))
      && (forall k :: 0 <= k < |out| ==> IsNumeric(out[k]) || IsOperator(out[k]))
    ensures Shunt(dir, tokens).Err? && Shunt(dir, tokens).error.InvalidToken? ==>
      Shunt(dir, tokens).error.token in tokens && !IsValidToken(Shunt(dir, tokens).error.token)
  {
    var st0 := ShuntState([], []);
    assert tokens[..0] == [];
    ShuntFromOutcome(dir, tokens, 0, st0);
    ScanFineBalanced(tokens);
    var r := ShuntFrom(dir, tokens, 0, st0);
    if r.Ok? {
      assert AllValid(tokens);
      DrainOutcome(tokens, r.value);
    }
  }

  // ---------------------------------------------------------------------------------
  // The prefix converter's mirrored input

  lemma MirrorSnoc(ts: seq<string>, x: string)
    ensures Mirror(ts + [x]) == [SwapBracket(x)] + Mirror(ts)
  {
    var l, r := Mirror(ts + [x]), [SwapBracket(x)] + Mirror(ts);
    assert forall k :: 0 <= k < |l| ==> l[k] == r[k];
  }

  lemma MirrorAppend(a: seq<string>, b: seq<string>)
    ensures Mirror(a + b) == Mirror(b) + Mirror(a)
  {
    var l, r := Mirror(a + b), Mirror(b) + Mirror(a);
    assert forall k :: 0 <= k < |l| ==> l[k] == r[k];
  }

  lemma MirrorMirror(ts: seq<string>)
    ensures Mirror(Mirror(ts)) == ts
  {
  }

  /** Swapping a bracket keeps a token's kind apart from the bracket's direction. */
  lemma SwapBracketKind(t: string)
    ensures IsNumeric(SwapBracket(t)) <==> IsNumeric(t)
    ensures IsBracket(SwapBracket(t)) <==> IsBracket(t)
    ensures IsValidToken(SwapBracket(t)) <==> IsValidToken(t)
    ensures !IsBracket(t) ==> SwapBracket(t) == t
  {
    if IsBracket(t) {
      SymbolsAreNotNumeric(t);
      SymbolsAreNotNumeric(SwapBracket(t));
    }
  }

  /** The contribution of one mirrored token. */
  lemma MirrorOne(x: string)
    ensures Operands([SwapBracket(x)]) == (if IsNumeric(x) then [x] else [])
    ensures Unbracketed([SwapBracket(x)]) == (if IsBracket(x) then [] else [x])
    ensures Depth([SwapBracket(x)]) == (if x == "(" then -1 else if x == ")" then 1 else 0)
  {
    var y := SwapBracket(x);
    SwapBracketKind(x);
    assert [y][..0] == [];
  }

  lemma {:induction false} MirrorOperands(ts: seq<string>)
    ensures Operands(Mirror(ts)) == Reverse(Operands(ts))
    decreases |ts|
  {
    if ts == [] {
      assert Mirror(ts) == [];
    } else {
      var ts', x := ts[..|ts| - 1], ts[|ts| - 1];
      assert ts == ts' + [x];
      MirrorOperands(ts');
      MirrorSnoc(ts', x);
      MirrorOne(x);
      var os: seq<string> := if IsNumeric(x) then [x] else [];
      OperandsAppend([SwapBracket(x)], Mirror(ts'));
      ReverseAppend(Operands(ts'), os);
      assert Reverse(os) == os;
    }
  }

  lemma {:induction false} MirrorUnbracketed(ts: seq<string>)
    ensures Unbracketed(Mirror(ts)) == Reverse(Unbracketed(ts))
    decreases |ts|
  {
    if ts == [] {
      assert Mirror(ts) == [];
    } else {
      var ts', x := ts[..|ts| - 1], ts[|ts| - 1];
      assert ts == ts' + [x];
      MirrorUnbracketed(ts');
      MirrorSnoc(ts', x);
      MirrorOne(x);
      var us: seq<string> := if IsBracket(x) then [] else [x];
      UnbracketedAppend([SwapBracket(x)], Mirror(ts'));
      ReverseAppend(Unbracketed(ts'), us);
      assert Reverse(us) == us;
    }
  }

  lemma {:induction false} MirrorDepth(ts: seq<string>)
    ensures Depth(Mirror(ts)) == -Depth(ts)
    decreases |ts|
  {
    if ts == [] {
      assert Mirror(ts) == [];
    } else {
      var ts', x := ts[..|ts| - 1], ts[|ts| - 1];
      assert ts == ts' + [x];
      MirrorDepth(ts');
      MirrorSnoc(ts', x);
      MirrorOne(x);
      DepthAppend([SwapBracket(x)], Mirror(ts'));
    }
  }

  lemma MirrorValid(ts: seq<string>)
    ensures AllValid(Mirror(ts)) <==> AllValid(ts)
  {
    forall k | 0 <= k < |ts| ensures IsValidToken(Mirror(ts)[|ts| - 1 - k]) <==> IsValidToken(ts[k]) {
      SwapBracketKind(ts[k]);
    }
    if AllValid(Mirror(ts)) {
      forall k | 0 <= k < |ts| ensures IsValidToken(ts[k]) {
        assert IsValidToken(Mirror(ts)[|ts| - 1 - k]);
      }
    }
  }

  lemma MirrorBalancedOneWay(ts: seq<string>)
    requires Balanced(ts)
    ensures Balanced(Mirror(ts))
  {
    var n := |ts|;
    MirrorDepth(ts);
    forall j | 0 < j <= n ensures Depth(Mirror(ts)[..j]) >= 0 {
      assert ts == ts[..n - j] + ts[n - j..];
      MirrorAppend(ts[..n - j], ts[n - j..]);
      assert Mirror(ts)[..j] == Mirror(ts[n - j..]);
      MirrorDepth(ts[n - j..]);
      DepthAppend(ts[..n - j], ts[n - j..]);
      if n - j > 0 {
        assert Depth(ts[..n - j]) >= 0;
      } else {
        assert ts[..n - j] == [];
      }
    }
  }

  lemma MirrorBalanced(ts: seq<string>)
    ensures Balanced(Mirror(ts)) <==> Balanced(ts)
  {
    if Balanced(ts) {
      MirrorBalancedOneWay(ts);
    }
    if Balanced(Mirror(ts)) {
      MirrorBalancedOneWay(Mirror(ts));
      MirrorMirror(ts);
    }
  }

  /** The scan of the mirrored tokens, reversed, as `infix_to_prefix` does it. */
  function ShuntPrefix(ts: seq<string>): Result<seq<string>, ConvertError> {
    match Shunt(RightToLeft, Mirror(ts))
    case Err(e) => Err(e)
    case Ok(out) => Ok(Reverse(out))
  }

  lemma ShuntPrefixOutcome(ts: seq<string>)
    ensures ShuntPrefix(ts).Ok? <==> AllValid(ts) && Balanced(ts)
    ensures ShuntPrefix(ts).Ok? ==>
      var pre := ShuntPrefix(ts).value;
      && Operands(pre) == Operands(ts)
      && multiset(pre) == multiset(Unbracketed(ts))
      && (forall k :: 0 <= k < |pre| ==> IsNumeric(pre[k]) || IsOperator(pre[k]))
    ensures ShuntPrefix(ts).Err? && ShuntPrefix(ts).error.InvalidToken? ==>
      ShuntPrefix(ts).error.token in ts && !IsValidToken(ShuntPrefix(ts).error.token)
  {
    var ms := Mirror(ts);
    ShuntOutcome(RightToLeft, ms);
    MirrorValid(ts);
    MirrorBalanced(ts);
    var r := Shunt(RightToLeft, ms);
    if r.Ok? {
      PrefixOfMirror(ts, r.value);
    } else if r.error.InvalidToken? {
      MirrorHolds(ts, r.error.token);
    }
  }

  /** Reversing the right-to-left scan of the mirrored tokens keeps the operands in
      input order and every operator, and drops the brackets. */
  lemma PrefixOfMirror(ts: seq<string>, out: seq<string>)
    requires Operands(out) == Operands(Mirror(ts))
    requires multiset(out) == multiset(Unbracketed(Mirror(ts)))
    requires forall k :: 0 <= k < |out| ==> IsNumeric(out[k]) || IsOperator(out[k])
    ensures Operands(Reverse(out)) == Operands(ts)
    ensures multiset(Reverse(out)) == multiset(Unbracketed(ts))
    ensures forall k :: 0 <= k < |Reverse(out)| ==> IsNumeric(Reverse(out)[k]) || IsOperator(Reverse(out)[k])
  {
    ReversedOperands(ts, out);
    ReversedMultiset(ts, out);
    ReversedKinds(out);
  }

  lemma ReversedOperands(ts: seq<string>, out: seq<string>)
    requires Operands(out) == Operands(Mirror(ts))
    ensures Operands(Reverse(out)) == Operands(ts)
  {
    MirrorOperands(ts);
    OperandsReverse(out);
    ReverseReverse(Operands(ts));
  }

  lemma ReversedMultiset(ts: seq<string>, out: seq<string>)
    requires multiset(out) == multiset(Unbracketed(Mirror(ts)))
    ensures multiset(Reverse(out)) == multiset(Unbracketed(ts))
  {
    MirrorUnbracketed(ts);
    ReverseMultiset(out);
    ReverseMultiset(Unbracketed(ts));
  }

  lemma ReversedKinds(out: seq<string>)
    requires forall k :: 0 <= k < |out| ==> IsNumeric(out[k]) || IsOperator(out[k])
    ensures forall k :: 0 <= k < |Reverse(out)| ==> IsNumeric(Reverse(out)[k]) || IsOperator(Reverse(out)[k])
  {
    var pre := Reverse(out);
    assert forall k :: 0 <= k < |pre| ==> pre[k] == out[|out| - 1 - k];
  }

  /** An invalid token of the mirrored tokens is an invalid token of the input. */
  lemma MirrorHolds(ts: seq<string>, t: string)
    requires t in Mirror(ts) && !IsValidToken(t)
    ensures t in ts
  {
    var ms := Mirror(ts);
    var k :| 0 <= k < |ms| && ms[k] == t;
    SwapBracketKind(ts[|ts| - 1 - k]);
    assert ms[k] == SwapBracket(ts[|ts| - 1 - k]);
  }

  /** `infix_to_postfix` and `infix_to_prefix` accept the same inputs: valid tokens with
      balanced brackets. Both outputs keep the operands in their input order and hold
      every operator once and no bracket; an invalid-token error names an input token. */
  lemma InfixConvertersAgree(s: string)
    ensures InfixToPostfix(s).Ok? <==> AllValid(Tokenize(s)) && Balanced(Tokenize(s))
    ensures InfixToPrefix(s).Ok? <==> InfixToPostfix(s).Ok?
    ensures InfixToPostfix(s).Ok? ==>
      var post, pre := InfixToPostfix(s).value, InfixToPrefix(s).value;
      && Operands(post) == Operands(Tokenize(s)) && Operands(pre) == Operands(Tokenize(s))
      && multiset(post) == multiset(pre) == multiset(Unbracketed(Tokenize(s)))
      && (forall k :: 0 <= k < |post| ==> IsNumeric(post[k]) || IsOperator(post[k]))
      && (forall k :: 0 <= k < |pre| ==> IsNumeric(pre[k]) || IsOperator(pre[k]))
    ensures InfixToPostfix(s).Err? && InfixToPostfix(s).error.InvalidToken? ==>
      InfixToPostfix(s).error.token in Tokenize(s) && !IsValidToken(InfixToPostfix(s).error.token)
    ensures InfixToPrefix(s).Err? && InfixToPrefix(s).error.InvalidToken? ==>
      InfixToPrefix(s).error.token in Tokenize(s) && !IsValidToken(InfixToPrefix(s).error.token)
    ensures AllValid(Tokenize(s)) && !Balanced(Tokenize(s)) ==>
      InfixToPostfix(s) == Err(MismatchedParentheses) && InfixToPrefix(s) == Err(MismatchedParentheses)
  {
    var ts := Tokenize(s);
    ShuntOutcome(LeftToRight, ts);
    ShuntPrefixOutcome(ts);
  }

  // ---------------------------------------------------------------------------------
  // Single steps, for working out concrete scans

  lemma ShuntFromStep(dir: Direction, tokens: seq<string>, i: nat, st: ShuntState, st': ShuntState)
    requires i < |tokens| && ShuntToken(dir, st, tokens[i]) == Ok(st')
    ensures ShuntFrom(dir, tokens, i, st) == ShuntFrom(dir, tokens, i + 1, st')
  {
  }

  lemma ShuntOperandStep(dir: Direction, st: ShuntState, t: string)
    requires IsNumeric(t)
    ensures ShuntToken(dir, st, t) == Ok(ShuntState(st.output + [t], st.stack))
  {
  }

  /** An operator that nothing on the stack yields to is pushed. */
  lemma ShuntPushStep(dir: Direction, st: ShuntState, t: string)
    requires IsOperator(t) && (|st.stack| == 0 || !Yields(dir, st.stack[|st.stack| - 1], t))
    ensures ShuntToken(dir, st, t) == Ok(ShuntState(st.output, st.stack + [t]))
  {
    SymbolsAreNotNumeric(t);
    assert t != "(" && t != ")" by {
      assert "("[0] == '(' && ")"[0] == ')';
    }
    var s := st.stack;
    assert Kept(dir, s, t) == |s|;
    assert s[..|s|] == s && s[|s|..] == [];
    assert Reverse(s[|s|..]) == [];
    assert st.output + [] == st.output;
  }

  /** An operator to which only the top of the stack yields moves that top to the output. */
  lemma ShuntPopOneStep(dir: Direction, st: ShuntState, t: string)
    requires IsOperator(t) && |st.stack| > 0
    requires Yields(dir, st.stack[|st.stack| - 1], t)
    requires |st.stack| == 1 || !Yields(dir, st.stack[|st.stack| - 2], t)
    ensures
      var n := |st.stack|;
      ShuntToken(dir, st, t) == Ok(ShuntState(st.output + [st.stack[n - 1]], st.stack[..n - 1] + [t]))
  {
    OperatorKind(t);
    var s := st.stack;
    var n := |s|;
    KeptAllButTop(dir, s, t);
    assert s[n - 1..] == [s[n - 1]];
    assert Reverse(s[n - 1..]) == [s[n - 1]];
  }

  lemma KeptAllButTop(dir: Direction, s: seq<string>, t: string)
    requires |s| > 0 && Yields(dir, s[|s| - 1], t)
    requires |s| == 1 || !Yields(dir, s[|s| - 2], t)
    ensures Kept(dir, s, t) == |s| - 1
  {
    var s' := s[..|s| - 1];
    assert |s'| == 0 || s'[|s'| - 1] == s[|s| - 2];
  }

  /** The drain after the last token. */
  lemma ShuntEnd(dir: Direction, tokens: seq<string>, st: ShuntState)
    requires ShuntFrom(dir, tokens, 0, ShuntState([], [])) == Ok(st) && "(" !in st.stack
    ensures Shunt(dir, tokens) == Ok(st.output + Reverse(st.stack))
  {
  }

  lemma ShuntChainStart(dir: Direction, a: string, o1: string, b: string, o2: string, c: string)
    requires IsNumeric(a) && IsNumeric(b) && IsOperator(o1)
    ensures ShuntFrom(dir, [a, o1, b, o2, c], 0, ShuntState([], [])) ==
            ShuntFrom(dir, [a, o1, b, o2, c], 3, ShuntState([a, b], [o1]))
  {
    var ts := [a, o1, b, o2, c];
    var s0, s1, s2, s3 := ShuntState([], []), ShuntState([a], []), ShuntState([a], [o1]), ShuntState([a, b], [o1]);
    ShuntOperandStep(dir, s0, a);
    assert [] + [a] == [a];
    ShuntFromStep(dir, ts, 0, s0, s1);
    ShuntPushStep(dir, s1, o1);
    assert [] + [o1] == [o1];
    ShuntFromStep(dir, ts, 1, s1, s2);
    ShuntOperandStep(dir, s2, b);
    assert [a] + [b] == [a, b];
    ShuntFromStep(dir, ts, 2, s2, s3);
  }

  lemma ShuntChainPop(dir: Direction, a: string, o1: string, b: string, o2: string, c: string)
    requires IsNumeric(c) && IsOperator(o1) && IsOperator(o2) && Yields(dir, o1, o2)
    ensures ShuntFrom(dir, [a, o1, b, o2, c], 3, ShuntState([a, b], [o1])) ==
            Ok(ShuntState([a, b, o1, c], [o2]))
  {
    var ts := [a, o1, b, o2, c];
    var s3, s4, s5 := ShuntState([a, b], [o1]), ShuntState([a, b, o1], [o2]), ShuntState([a, b, o1, c], [o2]);
    ShuntPopOneStep(dir, s3, o2);
    assert [o1][..0] + [o2] == [o2];
    assert [a, b] + [o1] == [a, b, o1];
    ShuntFromStep(dir, ts, 3, s3, s4);
    ShuntOperandStep(dir, s4, c);
    assert [a, b, o1] + [c] == [a, b, o1, c];
    ShuntFromStep(dir, ts, 4, s4, s5);
  }

  lemma ShuntChainPush(dir: Direction, a: string, o1: string, b: string, o2: string, c: string)
    requires IsNumeric(c) && IsOperator(o1) && IsOperator(o2) && !Yields(dir, o1, o2)
    ensures ShuntFrom(dir, [a, o1, b, o2, c], 3, ShuntState([a, b], [o1])) ==
            Ok(ShuntState([a, b, c], [o1, o2]))
  {
    var ts := [a, o1, b, o2, c];
    var s3, s4, s5 := ShuntState([a, b], [o1]), ShuntState([a, b], [o1, o2]), ShuntState([a, b, c], [o1, o2]);
    ShuntPushStep(dir, s3, o2);
    assert [o1] + [o2] == [o1, o2];
    ShuntFromStep(dir, ts, 3, s3, s4);
    ShuntOperandStep(dir, s4, c);
    assert [a, b] + [c] == [a, b, c];
    ShuntFromStep(dir, ts, 4, s4, s5);
  }

  /** Two operators between three operands: the first operator is applied first exactly
      when it yields to the second, that is, when it binds tighter or they tie and the
      scan direction groups to the left. */
  lemma ShuntChain(dir: Direction, a: string, o1: string, b: string, o2: string, c: string)
    requires IsNumeric(a) && IsNumeric(b) && IsNumeric(c) && IsOperator(o1) && IsOperator(o2)
    ensures Shunt(dir, [a, o1, b, o2, c]) ==
      if Yields(dir, o1, o2) then Ok([a, b, o1, c, o2]) else Ok([a, b, c, o2, o1])
  {
    if Yields(dir, o1, o2) {
      ShuntChainPopped(dir, a, o1, b, o2, c);
    } else {
      ShuntChainStacked(dir, a, o1, b, o2, c);
    }
  }

  lemma OperatorIsNotOpen(t: string)
    requires IsOperator(t)
    ensures t != "("
  {
    assert "("[0] == '(';
  }

  lemma ShuntChainPopped(dir: Direction, a: string, o1: string, b: string, o2: string, c: string)
    requires IsNumeric(a) && IsNumeric(b) && IsNumeric(c) && IsOperator(o1) && IsOperator(o2)
    requires Yields(dir, o1, o2)
    ensures Shunt(dir, [a, o1, b, o2, c]) == Ok([a, b, o1, c, o2])
  {
    ShuntChainStart(dir, a, o1, b, o2, c);
    ShuntChainPop(dir, a, o1, b, o2, c);
    OperatorIsNotOpen(o2);
    assert "(" !in [o2];
    ShuntEnd(dir, [a, o1, b, o2, c], ShuntState([a, b, o1, c], [o2]));
    assert Reverse([o2]) == [o2];
    assert [a, b, o1, c] + [o2] == [a, b, o1, c, o2];
  }

  lemma ShuntChainStacked(dir: Direction, a: string, o1: string, b: string, o2: string, c: string)
    requires IsNumeric(a) && IsNumeric(b) && IsNumeric(c) && IsOperator(o1) && IsOperator(o2)
    requires !Yields(dir, o1, o2)
    ensures Shunt(dir, [a, o1, b, o2, c]) == Ok([a, b, c, o2, o1])
  {
    ShuntChainStart(dir, a, o1, b, o2, c);
    ShuntChainPush(dir, a, o1, b, o2, c);
    OperatorIsNotOpen(o1);
    OperatorIsNotOpen(o2);
    assert "(" !in [o1, o2];
    ShuntEnd(dir, [a, o1, b, o2, c], ShuntState([a, b, c], [o1, o2]));
    assert Reverse([o1, o2]) == [o2, o1];
    assert [a, b, c] + [o2, o1] == [a, b, c, o2, o1];
  }

  /** The prefix converter on the same shape: the first operator is the outer one exactly
      when the second does not yield to it in the mirrored scan. */
  lemma ShuntPrefixChain(a: string, o1: string, b: string, o2: string, c: string)
    requires IsNumeric(a) && IsNumeric(b) && IsNumeric(c) && IsOperator(o1) && IsOperator(o2)
    ensures ShuntPrefix([a, o1, b, o2, c]) ==
      if Yields(RightToLeft, o2, o1) then Ok([o1, a, o2, b, c]) else Ok([o2, o1, a, b, c])
  {
    MirrorChain(a, o1, b, o2, c);
    ShuntChain(RightToLeft, c, o2, b, o1, a);
    if Yields(RightToLeft, o2, o1) {
      ReverseFive(c, b, o2, a, o1);
    } else {
      ReverseFive(c, b, a, o1, o2);
    }
  }

  lemma MirrorChain(a: string, o1: string, b: string, o2: string, c: string)
    requires IsNumeric(a) && IsNumeric(b) && IsNumeric(c) && IsOperator(o1) && IsOperator(o2)
    ensures Mirror([a, o1, b, o2, c]) == [c, o2, b, o1, a]
  {
    SwapKeeps(a);
    SwapKeeps(o1);
    SwapKeeps(b);
    SwapKeeps(o2);
    SwapKeeps(c);
    var r := Mirror([a, o1, b, o2, c]);
    assert r[0] == c && r[1] == o2 && r[2] == b && r[3] == o1 && r[4] == a;
  }

  /** Operands and operators are no brackets, so the mirror keeps them as they are. */
  lemma SwapKeeps(t: string)
    requires IsNumeric(t) || IsOperator(t)
    ensures SwapBracket(t) == t
  {
    if IsBracket(t) {
      SymbolsAreNotNumeric(t);
    }
  }

  lemma ReverseFive<T>(x1: T, x2: T, x3: T, x4: T, x5: T)
    ensures Reverse([x1, x2, x3, x4, x5]) == [x5, x4, x3, x2, x1]
  {
  }
}
