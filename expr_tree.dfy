/** Binary expression trees: the structure that the engine's postfix and prefix strings
    spell out, and the stack-based parse both rebuilding converters perform. */
module ExprTree {
  import opened Results
  import opened Shunting

  datatype Expr = Leaf(text: string) | Node(op: string, left: Expr, right: Expr)

  /** Operands the rebuilding converters accept at the leaves, operators at the nodes. */
  predicate Plain(e: Expr) {
    match e
    case Leaf(t) => IsPlainOperand(t)
    case Node(op, l, r) => IsOperator(op) && Plain(l) && Plain(r)
  }

  function PostfixOf(e: Expr): seq<string> {
    match e
    case Leaf(t) => [t]
    case Node(op, l, r) => PostfixOf(l) + PostfixOf(r) + [op]
  }

  function PrefixOf(e: Expr): seq<string> {
    match e
    case Leaf(t) => [t]
    case Node(op, l, r) => [op] + PrefixOf(l) + PrefixOf(r)
  }

  /** The postfix forms of a stack of trees, bottom first. */
  function PostfixOfAll(trees: seq<Expr>): seq<string>
    decreases |trees|
  {
    if trees == [] then [] else PostfixOfAll(trees[..|trees| - 1]) + PostfixOf(trees[|trees| - 1])
  }

  /** The prefix forms of a stack of trees, top first: the order in which the prefix
      converter, reading its input backwards, has consumed them. */
  function PrefixOfAll(trees: seq<Expr>): seq<string>
    decreases |trees|
  {
    if trees == [] then [] else PrefixOf(trees[|trees| - 1]) + PrefixOfAll(trees[..|trees| - 1])
  }

  predicate AllPlain(trees: seq<Expr>) {
    forall k :: 0 <= k < |trees| ==> Plain(trees[k])
  }

  datatype RebuildError = NotEnoughOperands | InvalidToken(token: string) | TooManyOperands

  // ---------------------------------------------------------------------------------
  // The parse of a postfix token list

  /** One token: an operand is pushed; an operator pops its right operand, then its left,
      and pushes their tree. */
  function PostfixTreeStep(stack: seq<Expr>, t: string): Result<seq<Expr>, RebuildError> {
    if IsPlainOperand(t) then Ok(stack + [Leaf(t)])
    else if IsOperator(t) then
      if |stack| < 2 then Err(NotEnoughOperands)
      else Ok(stack[..|stack| - 2] + [Node(t, stack[|stack| - 2], stack[|stack| - 1])])
    else Err(RebuildError.InvalidToken(t))
  }

  function PostfixTrees(ts: seq<string>, stack: seq<Expr>): Result<seq<Expr>, RebuildError>
    decreases |ts|
  {
    if ts == [] then Ok(stack)
    else match PostfixTreeStep(stack, ts[0])
      case Err(e) => Err(e)
      case Ok(stack') => PostfixTrees(ts[1..], stack')
  }

  function ParsePostfix(ts: seq<string>): Result<Expr, RebuildError> {
    match PostfixTrees(ts, [])
    case Err(e) => Err(e)
    case Ok(stack) => if |stack| != 1 then Err(TooManyOperands) else Ok(stack[0])
  }

  /** Reading the postfix form of a tree pushes exactly that tree. */
  lemma {:induction false} PostfixTreesOf(e: Expr, rest: seq<string>, stack: seq<Expr>)
    requires Plain(e)
    ensures PostfixTrees(PostfixOf(e) + rest, stack) == PostfixTrees(rest, stack + [e])
  {
    match e
    case Leaf(t) =>
      assert ([t] + rest)[0] == t && ([t] + rest)[1..] == rest;
    case Node(op, l, r) =>
      assert PostfixOf(e) + rest == PostfixOf(l) + (PostfixOf(r) + ([op] + rest));
      PostfixTreesOf(l, PostfixOf(r) + ([op] + rest), stack);
      PostfixTreesOf(r, [op] + rest, stack + [l]);
      PostfixOperatorStep(op, l, r, rest, stack);
  }

  /** An operator with two trees on top of the stack combines them. */
  lemma PostfixOperatorStep(op: string, l: Expr, r: Expr, rest: seq<string>, stack: seq<Expr>)
    requires IsOperator(op)
    ensures PostfixTrees([op] + rest, stack + [l] + [r]) == PostfixTrees(rest, stack + [Node(op, l, r)])
  {
    var s2 := stack + [l] + [r];
    assert s2[..|s2| - 2] == stack && s2[|s2| - 2] == l && s2[|s2| - 1] == r;
    assert ([op] + rest)[0] == op && ([op] + rest)[1..] == rest;
  }

  /** One step of the scan keeps the stack plain and extends what it has read by the token. */
  lemma PostfixTreeStepSound(stack: seq<Expr>, t: string)
    requires AllPlain(stack) && PostfixTreeStep(stack, t).Ok?
    ensures AllPlain(PostfixTreeStep(stack, t).value)
    ensures PostfixOfAll(PostfixTreeStep(stack, t).value) == PostfixOfAll(stack) + [t]
  {
    var stack' := PostfixTreeStep(stack, t).value;
    if IsPlainOperand(t) {
      assert stack'[..|stack'| - 1] == stack;
    } else {
      var n := |stack|;
      var a, b, below := stack[n - 2], stack[n - 1], stack[..n - 2];
      assert stack[..n - 1] == below + [a];
      assert (below + [a])[..n - 2] == below;
      assert stack'[..|stack'| - 1] == below;
      assert PostfixOfAll(stack) == PostfixOfAll(below) + PostfixOf(a) + PostfixOf(b);
      assert Plain(a) && Plain(b);
    }
  }

  /** What a successful scan has read: the postfix forms of the trees it holds. */
  lemma {:induction false} PostfixTreesSound(ts: seq<string>, stack: seq<Expr>)
    requires AllPlain(stack) && PostfixTrees(ts, stack).Ok?
    ensures AllPlain(PostfixTrees(ts, stack).value)
    ensures PostfixOfAll(PostfixTrees(ts, stack).value) == PostfixOfAll(stack) + ts
    decreases |ts|
  {
    if ts == [] {
      assert PostfixOfAll(stack) + ts == PostfixOfAll(stack);
    } else {
      var t := ts[0];
      var stack' := PostfixTreeStep(stack, t).value;
      assert PostfixTrees(ts, stack) == PostfixTrees(ts[1..], stack');
      PostfixTreeStepSound(stack, t);
      PostfixTreesSound(ts[1..], stack');
      SnocThenRest(PostfixOfAll(stack), ts);
    }
  }

  lemma SnocThenRest(a: seq<string>, ts: seq<string>)
    requires ts != []
    ensures (a + [ts[0]]) + ts[1..] == a + ts
  {
    assert ts == [ts[0]] + ts[1..];
  }

  /** The postfix parse succeeds exactly on the postfix forms of trees with plain operands
      and operators, and then gives back that tree. */
  lemma ParsePostfixExactly(ts: seq<string>, e: Expr)
    ensures ParsePostfix(ts) == Ok(e) <==> Plain(e) && ts == PostfixOf(e)
  {
    if Plain(e) && ts == PostfixOf(e) {
      PostfixTreesOf(e, [], []);
      assert ts + [] == ts;
      assert [] + [e] == [e];
    }
    if ParsePostfix(ts) == Ok(e) {
      PostfixTreesSound(ts, []);
      var st := PostfixTrees(ts, []).value;
      assert st == [e];
      assert st[..0] == [];
      assert PostfixOfAll(st) == [] + PostfixOf(e);
      assert PostfixOfAll([]) + ts == ts;
      assert Plain(st[0]);
    }
  }

  // ---------------------------------------------------------------------------------
  // The parse of a prefix token list, read backwards

  /** One token of the reversed input: an operand is pushed; an operator pops its left
      operand first, then its right one, and pushes their tree. */
  function PrefixTreeStep(stack: seq<Expr>, t: string): Result<seq<Expr>, RebuildError> {
    if IsPlainOperand(t) then Ok(stack + [Leaf(t)])
    else if IsOperator(t) then
      if |stack| < 2 then Err(NotEnoughOperands)
      else Ok(stack[..|stack| - 2] + [Node(t, stack[|stack| - 1], stack[|stack| - 2])])
    else Err(RebuildError.InvalidToken(t))
  }

  /** The scan of the reversed tokens `rts`. */
  function PrefixTrees(rts: seq<string>, stack: seq<Expr>): Result<seq<Expr>, RebuildError>
    decreases |rts|
  {
    if rts == [] then Ok(stack)
    else match PrefixTreeStep(stack, rts[0])
      case Err(e) => Err(e)
      case Ok(stack') => PrefixTrees(rts[1..], stack')
  }

  function ParsePrefix(ts: seq<string>): Result<Expr, RebuildError> {
    match PrefixTrees(Reverse(ts), [])
    case Err(e) => Err(e)
    case Ok(stack) => if |stack| != 1 then Err(TooManyOperands) else Ok(stack[0])
  }

  /** The prefix form of a node, reversed: the right operand's, then the left one's, then
      the operator. */
  lemma ReversePrefixNode(op: string, l: Expr, r: Expr)
    ensures Reverse(PrefixOf(Node(op, l, r))) == Reverse(PrefixOf(r)) + Reverse(PrefixOf(l)) + [op]
  {
    var pl, pr := PrefixOf(l), PrefixOf(r);
    assert PrefixOf(Node(op, l, r)) == ([op] + pl) + pr;
    ReverseAppend([op] + pl, pr);
    ReverseAppend([op], pl);
    assert Reverse([op]) == [op];
  }

  /** An operator read with its two operands on top of the stack combines them. */
  lemma PrefixOperatorStep(op: string, rest: seq<string>, stack: seq<Expr>, l: Expr, r: Expr)
    requires Plain(Node(op, l, r))
    ensures PrefixTrees([op] + rest, stack + [r] + [l]) == PrefixTrees(rest, stack + [Node(op, l, r)])
  {
    var s2 := stack + [r] + [l];
    assert s2[..|s2| - 2] == stack && s2[|s2| - 2] == r && s2[|s2| - 1] == l;
    SymbolsAreNotNumeric(op);
    assert PrefixTreeStep(s2, op) == Ok(stack + [Node(op, l, r)]);
    assert ([op] + rest)[0] == op && ([op] + rest)[1..] == rest;
  }

  /** Reading the prefix form of a tree backwards pushes exactly that tree. */
  lemma {:induction false} PrefixTreesOf(e: Expr, rest: seq<string>, stack: seq<Expr>)
    requires Plain(e)
    ensures PrefixTrees(Reverse(PrefixOf(e)) + rest, stack) == PrefixTrees(rest, stack + [e])
  {
    match e
    case Leaf(t) =>
      assert Reverse([t]) == [t];
      assert ([t] + rest)[0] == t && ([t] + rest)[1..] == rest;
    case Node(op, l, r) =>
      var rl, rr := Reverse(PrefixOf(l)), Reverse(PrefixOf(r));
      ReversePrefixNode(op, l, r);
      assert Reverse(PrefixOf(e)) + rest == rr + (rl + ([op] + rest));
      PrefixTreesOf(r, rl + ([op] + rest), stack);
      PrefixTreesOf(l, [op] + rest, stack + [r]);
      PrefixOperatorStep(op, rest, stack, l, r);
  }

  lemma PrefixTreeStepSound(stack: seq<Expr>, t: string)
    requires AllPlain(stack) && PrefixTreeStep(stack, t).Ok?
    ensures AllPlain(PrefixTreeStep(stack, t).value)
    ensures PrefixOfAll(PrefixTreeStep(stack, t).value) == [t] + PrefixOfAll(stack)
  {
    var stack' := PrefixTreeStep(stack, t).value;
    if IsPlainOperand(t) {
      assert stack'[..|stack'| - 1] == stack;
    } else {
      var n := |stack|;
      var r, l, below := stack[n - 2], stack[n - 1], stack[..n - 2];
      assert stack[..n - 1] == below + [r];
      assert (below + [r])[..n - 2] == below;
      assert stack'[..|stack'| - 1] == below;
      assert PrefixOfAll(stack) == PrefixOf(l) + (PrefixOf(r) + PrefixOfAll(below));
      assert Plain(l) && Plain(r);
    }
  }

  /** What a successful backwards scan has read: the prefix forms of the trees it holds,
      top first, reversed. */
  lemma {:induction false} PrefixTreesSound(rts: seq<string>, stack: seq<Expr>)
    requires AllPlain(stack) && PrefixTrees(rts, stack).Ok?
    ensures AllPlain(PrefixTrees(rts, stack).value)
    ensures PrefixOfAll(PrefixTrees(rts, stack).value) == Reverse(rts) + PrefixOfAll(stack)
    decreases |rts|
  {
    if rts == [] {
      assert Reverse(rts) + PrefixOfAll(stack) == PrefixOfAll(stack);
    } else {
      var t := rts[0];
      var stack' := PrefixTreeStep(stack, t).value;
      assert PrefixTrees(rts, stack) == PrefixTrees(rts[1..], stack');
      PrefixTreeStepSound(stack, t);
      PrefixTreesSound(rts[1..], stack');
      ReverseThenRest(rts, PrefixOfAll(stack));
    }
  }

  lemma ReverseThenRest(rts: seq<string>, x: seq<string>)
    requires rts != []
    ensures Reverse(rts[1..]) + ([rts[0]] + x) == Reverse(rts) + x
  {
    var r, t := Reverse(rts[1..]), rts[0];
    assert Reverse(rts) == r + [t];
    AppendAssoc(r, [t], x);
  }

  lemma AppendAssoc(a: seq<string>, b: seq<string>, c: seq<string>)
    ensures a + (b + c) == (a + b) + c
  {
  }

  /** The prefix parse succeeds exactly on the prefix forms of trees with plain operands
      and operators, and then gives back that tree. */
  lemma ParsePrefixExactly(ts: seq<string>, e: Expr)
    ensures ParsePrefix(ts) == Ok(e) <==> Plain(e) && ts == PrefixOf(e)
  {
    if Plain(e) && ts == PrefixOf(e) {
      PrefixTreesOf(e, [], []);
      assert Reverse(ts) + [] == Reverse(ts);
      assert [] + [e] == [e];
    }
    if ParsePrefix(ts) == Ok(e) {
      PrefixTreesSound(Reverse(ts), []);
      ReverseReverse(ts);
      var st := PrefixTrees(Reverse(ts), []).value;
      assert st == [e];
      assert st[..0] == [];
      assert PrefixOfAll(st) == PrefixOf(e) + [];
      assert PrefixOf(e) + [] == PrefixOf(e);
      assert Reverse(Reverse(ts)) + [] == ts;
      assert Plain(st[0]);
    }
  }
}
