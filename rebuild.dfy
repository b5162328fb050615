/** The two converters that rebuild an infix string, `prefix_to_infix` and
    `postfix_to_infix`, as the string-stack scans the engine performs, and their
    meaning: each parses its input into the one expression tree it spells and renders
    that tree, the first with every operation bracketed, the second with the fewest
    brackets its precedence rules call for. */
module Rebuild {
  import opened Results
  import opened Text
  import opened Shunting
  import opened ExprTree

  // ---------------------------------------------------------------------------------
  // Renderings of a tree

  /** `prefix_to_infix`'s rendering: every operation in brackets, operands spaced. */
  function FullParen(e: Expr): string {
    match e
    case Leaf(t) => t
    case Node(op, l, r) => "(" + FullParen(l) + " " + op + " " + FullParen(r) + ")"
  }

  /** The precedence `postfix_to_infix` records with a rendered part: 4 for an operand,
      the operator's own for an operation. */
  function PrecOf(e: Expr): nat {
    match e
    case Leaf(_) => 4
    case Node(op, _, _) => Prec(op)
  }

  /** The left operand is bracketed when it binds more loosely than `op`, or as tightly
      and `op` is the right-associative `^`. */
  predicate LeftNeedsBrackets(p: nat, op: string) {
    p < Prec(op) || (p == Prec(op) && op == "^")
  }

  /** The right operand is bracketed when it binds more loosely than `op`, or as tightly
      and `op` groups to the left. */
  predicate RightNeedsBrackets(p: nat, op: string) {
    p < Prec(op) || (p == Prec(op) && op != "^")
  }

  function Wrap(text: string, needs: bool): string {
    if needs then "(" + text + ")" else text
  }

  /** `postfix_to_infix`'s rendering: brackets only where the precedence rules ask. */
  function MinParen(e: Expr): string {
    match e
    case Leaf(t) => t
    case Node(op, l, r) =>
      Wrap(MinParen(l), LeftNeedsBrackets(PrecOf(l), op)) + " " + op + " "
      + Wrap(MinParen(r), RightNeedsBrackets(PrecOf(r), op))
  }

  // ---------------------------------------------------------------------------------
  // `prefix_to_infix`

  /** One token of the reversed input on the stack of rendered parts: an operand is
      pushed as it is; an operator takes the top part as its left operand and the one
      below as its right one. */
  function PrefixInfixStep(stack: seq<string>, t: string): Result<seq<string>, RebuildError> {
    if IsPlainOperand(t) then Ok(stack + [t])
    else if IsOperator(t) then
      if |stack| < 2 then Err(NotEnoughOperands)
      else Ok(stack[..|stack| - 2] + ["(" + stack[|stack| - 1] + " " + t + " " + stack[|stack| - 2] + ")"])
    else Err(RebuildError.InvalidToken(t))
  }

  function PrefixInfixScan(rts: seq<string>, stack: seq<string>): Result<seq<string>, RebuildError>
    decreases |rts|
  {
    if rts == [] then Ok(stack)
    else match PrefixInfixStep(stack, rts[0])
      case Err(e) => Err(e)
      case Ok(stack') => PrefixInfixScan(rts[1..], stack')
  }

  /** `prefix_to_infix(s)`: the tokens of `s` read backwards; exactly one part must be
      left, and it is returned with its outer brackets. */
  function PrefixToInfix(s: string): Result<string, RebuildError> {
    match PrefixInfixScan(Reverse(Split(s)), [])
    case Err(e) => Err(e)
    case Ok(stack) => if |stack| != 1 then Err(TooManyOperands) else Ok(stack[0])
  }

  function FullParenAll(trees: seq<Expr>): (r: seq<string>)
    ensures |r| == |trees|
    ensures forall k :: 0 <= k < |trees| ==> r[k] == FullParen(trees[k])
  {
    seq(|trees|, k requires 0 <= k < |trees| => FullParen(trees[k]))
  }

  lemma PrefixInfixStepTracks(stack: seq<Expr>, t: string)
    ensures var r := PrefixTreeStep(stack, t);
      PrefixInfixStep(FullParenAll(stack), t)
        == if r.Ok? then Ok(FullParenAll(r.value)) else Err(r.error)
  {
    var r := PrefixTreeStep(stack, t);
    var ss := FullParenAll(stack);
    if IsPlainOperand(t) {
      assert FullParenAll(stack + [Leaf(t)]) == ss + [t];
    } else if IsOperator(t) && |stack| >= 2 {
      var n := |stack|;
      assert ss[..n - 2] == FullParenAll(stack[..n - 2]);
      assert FullParenAll(r.value) == ss[..n - 2] + ["(" + ss[n - 1] + " " + t + " " + ss[n - 2] + ")"];
    }
  }

  /** The string scan keeps, part for part, the bracketed renderings of the trees the
      tree parse builds, and fails exactly where it fails. */
  lemma {:induction false} PrefixInfixScanTracks(rts: seq<string>, stack: seq<Expr>)
    ensures var r := PrefixTrees(rts, stack);
      PrefixInfixScan(rts, FullParenAll(stack)) == if r.Ok? then Ok(FullParenAll(r.value)) else Err(r.error)
    decreases |rts|
  {
    if rts != [] {
      PrefixInfixStepTracks(stack, rts[0]);
      var r := PrefixTreeStep(stack, rts[0]);
      if r.Ok? {
        PrefixInfixScanTracks(rts[1..], r.value);
      }
    }
  }

  /** `prefix_to_infix` succeeds exactly when its tokens are the prefix form of a tree
      with plain operands and operators, and then returns that tree fully bracketed;
      otherwise it fails as the tree parse does. */
  lemma PrefixToInfixMeaning(s: string)
    ensures PrefixToInfix(s).Ok? <==> ParsePrefix(Split(s)).Ok?
    ensures PrefixToInfix(s).Err? ==> PrefixToInfix(s).error == ParsePrefix(Split(s)).error
    ensures PrefixToInfix(s).Ok? ==>
      var e := ParsePrefix(Split(s)).value;
      Plain(e) && Split(s) == PrefixOf(e) && PrefixToInfix(s).value == FullParen(e)
  {
    var rts := Reverse(Split(s));
    assert FullParenAll([]) == [];
    PrefixInfixScanTracks(rts, []);
    var r := ParsePrefix(Split(s));
    if r.Ok? {
      ParsePrefixExactly(Split(s), r.value);
    }
  }

  /** The prefix form of a tree with plain operands converts to that tree, bracketed. */
  lemma PrefixToInfixOfTree(s: string, e: Expr)
    requires Plain(e) && Split(s) == PrefixOf(e)
    ensures PrefixToInfix(s) == Ok(FullParen(e))
  {
    ParsePrefixExactly(Split(s), e);
    PrefixToInfixMeaning(s);
  }

  // ---------------------------------------------------------------------------------
  // `postfix_to_infix`

  /** A rendered part on `postfix_to_infix`'s stack with the precedence it binds at. */
  datatype Part = Part(text: string, prec: nat)

  /** One token: an operand is pushed at precedence 4; an operator pops its right
      operand, then its left one, brackets each as the rules ask and pushes the result
      at its own precedence. */
  function PostfixInfixStep(stack: seq<Part>, t: string): Result<seq<Part>, RebuildError> {
    if IsPlainOperand(t) then Ok(stack + [Part(t, 4)])
    else if IsOperator(t) then
      if |stack| < 2 then Err(NotEnoughOperands)
      else
        var right, left := stack[|stack| - 1], stack[|stack| - 2];
        var text := Wrap(left.text, LeftNeedsBrackets(left.prec, t)) + " " + t + " "
          + Wrap(right.text, RightNeedsBrackets(right.prec, t));
        Ok(stack[..|stack| - 2] + [Part(text, Prec(t))])
    else Err(RebuildError.InvalidToken(t))
  }

  function PostfixInfixScan(ts: seq<string>, stack: seq<Part>): Result<seq<Part>, RebuildError>
    decreases |ts|
  {
    if ts == [] then Ok(stack)
    else match PostfixInfixStep(stack, ts[0])
      case Err(e) => Err(e)
      case Ok(stack') => PostfixInfixScan(ts[1..], stack')
  }

  /** `postfix_to_infix(s)`: exactly one part must be left; its text is returned. */
  function PostfixToInfix(s: string): Result<string, RebuildError> {
    match PostfixInfixScan(Split(s), [])
    case Err(e) => Err(e)
    case Ok(stack) => if |stack| != 1 then Err(TooManyOperands) else Ok(stack[0].text)
  }

  function MinPart(e: Expr): Part {
    Part(MinParen(e), PrecOf(e))
  }

  function MinPartAll(trees: seq<Expr>): (r: seq<Part>)
    ensures |r| == |trees|
    ensures forall k :: 0 <= k < |trees| ==> r[k] == MinPart(trees[k])
  {
    seq(|trees|, k requires 0 <= k < |trees| => MinPart(trees[k]))
  }

  lemma PostfixInfixStepTracks(stack: seq<Expr>, t: string)
    ensures var r := PostfixTreeStep(stack, t);
      PostfixInfixStep(MinPartAll(stack), t)
        == if r.Ok? then Ok(MinPartAll(r.value)) else Err(r.error)
  {
    var r := PostfixTreeStep(stack, t);
    var ps := MinPartAll(stack);
    if IsPlainOperand(t) {
      assert MinPart(Leaf(t)) == Part(t, 4);
      assert MinPartAll(stack + [Leaf(t)]) == ps + [Part(t, 4)];
    } else if IsOperator(t) && |stack| >= 2 {
      var n := |stack|;
      assert ps[..n - 2] == MinPartAll(stack[..n - 2]);
      var node := Node(t, stack[n - 2], stack[n - 1]);
      assert MinPartAll(r.value) == ps[..n - 2] + [MinPart(node)];
    }
  }

  lemma {:induction false} PostfixInfixScanTracks(ts: seq<string>, stack: seq<Expr>)
    ensures var r := PostfixTrees(ts, stack);
      PostfixInfixScan(ts, MinPartAll(stack)) == if r.Ok? then Ok(MinPartAll(r.value)) else Err(r.error)
    decreases |ts|
  {
    if ts != [] {
      PostfixInfixStepTracks(stack, ts[0]);
      var r := PostfixTreeStep(stack, ts[0]);
      if r.Ok? {
        PostfixInfixScanTracks(ts[1..], r.value);
      }
    }
  }

  /** `postfix_to_infix` succeeds exactly when its tokens are the postfix form of a tree
      with plain operands and operators, and then returns that tree with minimal
      brackets; otherwise it fails as the tree parse does. */
  lemma PostfixToInfixMeaning(s: string)
    ensures PostfixToInfix(s).Ok? <==> ParsePostfix(Split(s)).Ok?
    ensures PostfixToInfix(s).Err? ==> PostfixToInfix(s).error == ParsePostfix(Split(s)).error
    ensures PostfixToInfix(s).Ok? ==>
      var e := ParsePostfix(Split(s)).value;
      Plain(e) && Split(s) == PostfixOf(e) && PostfixToInfix(s).value == MinParen(e)
  {
    assert MinPartAll([]) == [];
    PostfixInfixScanTracks(Split(s), []);
    var r := ParsePostfix(Split(s));
    if r.Ok? {
      ParsePostfixExactly(Split(s), r.value);
    }
  }

  /** The postfix form of a tree with plain operands converts to that tree with minimal
      brackets. */
  lemma PostfixToInfixOfTree(s: string, e: Expr)
    requires Plain(e) && Split(s) == PostfixOf(e)
    ensures PostfixToInfix(s) == Ok(MinParen(e))
  {
    ParsePostfixExactly(Split(s), e);
    PostfixToInfixMeaning(s);
  }
}
