/** What the two shunting-yard converters compute on infix text in general: the
    precedence reading of the text. Infix text is described by the `Shape` it is written
    in (operands, operations `l op r` with single spaces, bracketed groups); a shape is a
    reading of its text when every operand written without brackets binds as tightly as
    the precedence and associativity of its operator require. `infix_to_postfix` turns
    such text into the postfix form of the shape's tree and `infix_to_prefix` into its
    prefix form. Both renderings of a tree, the fully bracketed one of `prefix_to_infix`
    and the minimally bracketed one of `postfix_to_infix`, are readings of that tree. */
module Precedence {
  import opened Results
  import opened Text
  import opened Unicodes
  import opened FloatSyntax
  import opened Tokenizer
  import opened Shunting
  import opened ExprTree
  import opened Rebuild
  import opened Scans

  /** Infix text as it is written. */
  datatype Shape = Atom(text: string) | Group(inner: Shape) | Op(op: string, left: Shape, right: Shape)

  /** The expression a shape writes: brackets only group. */
  function Tree(x: Shape): Expr {
    match x
    case Atom(t) => Leaf(t)
    case Group(y) => Tree(y)
    case Op(op, l, r) => Node(op, Tree(l), Tree(r))
  }

  /** The tokens of the written text. */
  function Tokens(x: Shape): seq<string> {
    match x
    case Atom(t) => [t]
    case Group(y) => ["("] + Tokens(y) + [")"]
    case Op(op, l, r) => Tokens(l) + [op] + Tokens(r)
  }

  /** The written text: brackets hug what they enclose, operators stand between
      single spaces. */
  function Infix(x: Shape): string {
    match x
    case Atom(t) => t
    case Group(y) => "(" + Infix(y) + ")"
    case Op(op, l, r) => Infix(l) + " " + op + " " + Infix(r)
  }

  /** How tightly a written part holds together: an operand or a bracketed group as
      tightly as anything (4), an operation as tightly as its operator's precedence. */
  function Binding(x: Shape): nat {
    match x
    case Op(op, _, _) => Prec(op)
    case _ => 4
  }

  /** An operand of the tokenizer's own making that the converters accept: a run of
      operand characters, or a `-` sign followed by one, that `is_numeric` accepts. */
  predicate OperandToken(t: string) {
    && IsNumeric(t)
    && |t| > 0
    && (forall m :: 1 <= m < |t| ==> IsOperandChar(t[m]))
    && (IsOperandChar(t[0]) || (t[0] == '-' && |t| > 1))
  }

  /** An unbracketed left operand of `op` as the scan in direction `dir` reads it:
      left to right, it binds more tightly than `op`, or as tightly when `op` groups to
      the left; the mirrored scan of the prefix converter sees the two sides swapped. */
  predicate LeftFits(dir: Direction, p: nat, op: string) {
    if dir == LeftToRight then !LeftNeedsBrackets(p, op) else !RightNeedsBrackets(p, op)
  }

  /** An unbracketed right operand of `op`: it binds more tightly than `op`, or as
      tightly when `op` is the right-associative `^`. */
  predicate RightFits(dir: Direction, p: nat, op: string) {
    if dir == LeftToRight then !RightNeedsBrackets(p, op) else !LeftNeedsBrackets(p, op)
  }

  /** A shape is a reading in direction `dir`: operand tokens at the leaves, operators
      at the operations, and brackets wherever an operand would otherwise bind too
      loosely. `Reads(LeftToRight, x)` is the standard reading of infix text. */
  predicate Reads(dir: Direction, x: Shape) {
    match x
    case Atom(t) => OperandToken(t)
    case Group(y) => Reads(dir, y)
    case Op(op, l, r) =>
      && IsOperator(op) && Reads(dir, l) && Reads(dir, r)
      && LeftFits(dir, Binding(l), op) && RightFits(dir, Binding(r), op)
  }

  // ---------------------------------------------------------------------------------
  // The scan over a reading

  /** The operators of the right spine that are not bracketed: what the scan still holds
      on its stack once the shape has been read. */
  function Pending(x: Shape): seq<string> {
    match x
    case Op(op, _, r) => [op] + Pending(r)
    case _ => []
  }

  /** What the scan has put on the output once the shape has been read. */
  function Done(x: Shape): seq<string> {
    match x
    case Op(_, l, r) => PostfixOf(Tree(l)) + Done(r)
    case _ => PostfixOf(Tree(x))
  }

  /** No unbracketed operator of `x` makes `top` leave the stack. */
  predicate Holds(dir: Direction, top: string, x: Shape) {
    match x
    case Op(op, l, r) => !Yields(dir, top, op) && Holds(dir, top, l) && Holds(dir, top, r)
    case _ => true
  }

  lemma {:induction false} PendingOperators(dir: Direction, x: Shape)
    requires Reads(dir, x)
    ensures forall k :: 0 <= k < |Pending(x)| ==> IsOperator(Pending(x)[k])
  {
    match x
    case Atom(_) =>
    case Group(_) =>
    case Op(op, _, r) =>
      PendingOperators(dir, r);
  }

  /** The output and the pending operators, emptied last first, are the postfix form. */
  lemma {:induction false} DoneThenPending(x: Shape)
    ensures Done(x) + Reverse(Pending(x)) == PostfixOf(Tree(x))
  {
    match x
    case Atom(_) =>
    case Group(_) =>
    case Op(op, l, r) =>
      DoneThenPending(r);
      ReverseAppend([op], Pending(r));
      assert Reverse([op]) == [op];
      assert Done(x) + Reverse(Pending(x))
        == PostfixOf(Tree(l)) + (Done(r) + Reverse(Pending(r))) + [op];
  }

  lemma PrecRange(t: string)
    requires IsOperator(t)
    ensures 1 <= Prec(t) <= 3 && (Prec(t) == 3 <==> t == "^")
  {
  }

  /** Every pending operator of an unbracketed left operand of `op` yields to `op`. */
  lemma {:induction false} PendingYields(dir: Direction, l: Shape, op: string)
    requires Reads(dir, l) && IsOperator(op) && LeftFits(dir, Binding(l), op)
    ensures forall k :: 0 <= k < |Pending(l)| ==> Yields(dir, Pending(l)[k], op)
  {
    match l
    case Atom(_) =>
    case Group(_) =>
    case Op(o, _, r) =>
      PrecRange(o);
      PrecRange(op);
      OperatorIsNotOpen(o);
      assert Yields(dir, o, op);
      if r.Op? {
        PrecRange(r.op);
      }
      PendingYields(dir, r, op);
  }

  /** The operator `top` of an unbracketed right operand stays on the stack while the
      operand is read. */
  lemma {:induction false} RightHolds(dir: Direction, top: string, r: Shape)
    requires Reads(dir, r) && IsOperator(top) && RightFits(dir, Binding(r), top)
    ensures Holds(dir, top, r)
  {
    match r
    case Atom(_) =>
    case Group(_) =>
    case Op(o, a, b) =>
      PrecRange(o);
      PrecRange(top);
      if a.Op? {
        PrecRange(a.op);
      }
      if b.Op? {
        PrecRange(b.op);
      }
      RightHolds(dir, top, a);
      RightHolds(dir, top, b);
  }

  /** Nothing makes a `(` leave the stack. */
  lemma {:induction false} OpenHolds(dir: Direction, x: Shape)
    ensures Holds(dir, "(", x)
  {
    match x
    case Atom(_) =>
    case Group(_) =>
    case Op(_, l, r) =>
      OpenHolds(dir, l);
      OpenHolds(dir, r);
  }

  /** The entries above `s` all yield to `t` and the top of `s` does not: exactly those
      entries leave. */
  lemma {:induction false} KeptAbove(dir: Direction, s: seq<string>, p: seq<string>, t: string)
    requires forall k :: 0 <= k < |p| ==> Yields(dir, p[k], t)
    requires |s| == 0 || !Yields(dir, s[|s| - 1], t)
    ensures Kept(dir, s + p, t) == |s|
    decreases |p|
  {
    if p == [] {
      assert s + p == s;
    } else {
      var p' := p[..|p| - 1];
      assert (s + p)[..|s + p| - 1] == s + p';
      KeptAbove(dir, s, p', t);
    }
  }

  /** An operator moves the yielding pending operators to the output and is pushed. */
  lemma PopPending(dir: Direction, out: seq<string>, s: seq<string>, p: seq<string>, t: string)
    requires IsOperator(t)
    requires forall k :: 0 <= k < |p| ==> Yields(dir, p[k], t)
    requires |s| == 0 || !Yields(dir, s[|s| - 1], t)
    ensures ShuntList(dir, [t], ShuntState(out, s + p)) == Ok(ShuntState(out + Reverse(p), s + [t]))
  {
    KeptAbove(dir, s, p, t);
    SymbolsAreNotNumeric(t);
    assert t != "(" && t != ")" by {
      assert "("[0] == '(' && ")"[0] == ')';
    }
    assert (s + p)[|s|..] == p && (s + p)[..|s|] == s;
    ShuntListOne(dir, t, ShuntState(out, s + p));
  }

  /** `)` moves the operators above the nearest `(` to the output and drops the `(`. */
  lemma CloseOver(dir: Direction, out: seq<string>, s: seq<string>, p: seq<string>)
    requires forall k :: 0 <= k < |p| ==> p[k] != "("
    ensures ShuntList(dir, [")"], ShuntState(out, s + ["("] + p)) == Ok(ShuntState(out + Reverse(p), s))
  {
    SymbolsAreNotNumeric(")");
    var s' := s + ["("] + p;
    LastOpenBelow(s + ["("], p);
    assert s'[|s| + 1..] == p && s'[..|s|] == s;
    ShuntListOne(dir, ")", ShuntState(out, s'));
  }

  lemma {:induction false} LastOpenBelow(s: seq<string>, p: seq<string>)
    requires |s| > 0 && s[|s| - 1] == "("
    requires forall k :: 0 <= k < |p| ==> p[k] != "("
    ensures LastOpen(s + p) == |s| - 1
    decreases |p|
  {
    if p == [] {
      assert s + p == s;
    } else {
      var p' := p[..|p| - 1];
      assert (s + p)[..|s + p| - 1] == s + p';
      LastOpenBelow(s, p');
    }
  }

  /** Reading a shape appends what is done to the output and leaves its pending
      operators on the stack, above the entries that were there, which it never
      touches. */
  lemma {:induction false} ShuntShape(dir: Direction, x: Shape, out: seq<string>, s: seq<string>)
    requires Reads(dir, x)
    requires |s| == 0 || Holds(dir, s[|s| - 1], x)
    ensures ShuntList(dir, Tokens(x), ShuntState(out, s)) == Ok(ShuntState(out + Done(x), s + Pending(x)))
    decreases x
  {
    match x
    case Atom(t) =>
      ShuntOperandStep(dir, ShuntState(out, s), t);
      ShuntListOne(dir, t, ShuntState(out, s));
      assert s + Pending(x) == s;
    case Group(y) =>
      ShuntGroup(dir, y, out, s);
      assert s + Pending(x) == s;
    case Op(op, l, r) =>
      ShuntOp(dir, op, l, r, out, s);
  }

  lemma {:induction false} ShuntGroup(dir: Direction, y: Shape, out: seq<string>, s: seq<string>)
    requires Reads(dir, y)
    ensures ShuntList(dir, Tokens(Group(y)), ShuntState(out, s)) == Ok(ShuntState(out + PostfixOf(Tree(y)), s))
    decreases Group(y), 0
  {
    var ty := Tokens(y);
    var s1 := s + ["("];
    Scans.OpenStep(dir, ShuntState(out, s));
    OpenHolds(dir, y);
    ShuntShape(dir, y, out, s1);
    ShuntListAppend(dir, ["("], ty, ShuntState(out, s));
    CloseGroup(dir, y, out, s);
  }

  /** The closing bracket of a group pops the group's pending operators, which all sit
      above its `(`. */
  lemma CloseGroup(dir: Direction, y: Shape, out: seq<string>, s: seq<string>)
    requires Reads(dir, y)
    requires ShuntList(dir, ["("] + Tokens(y), ShuntState(out, s))
      == Ok(ShuntState(out + Done(y), s + ["("] + Pending(y)))
    ensures ShuntList(dir, Tokens(Group(y)), ShuntState(out, s)) == Ok(ShuntState(out + PostfixOf(Tree(y)), s))
  {
    PendingNotOpen(dir, y);
    DoneThenPending(y);
    CloseAfter(dir, Tokens(y), out, s, Done(y), Pending(y), PostfixOf(Tree(y)));
    assert Tokens(Group(y)) == ["("] + Tokens(y) + [")"];
  }

  /** No operator left pending inside a group is an opening bracket. */
  lemma PendingNotOpen(dir: Direction, y: Shape)
    requires Reads(dir, y)
    ensures forall k :: 0 <= k < |Pending(y)| ==> Pending(y)[k] != "("
  {
    PendingOperators(dir, y);
    forall k | 0 <= k < |Pending(y)| ensures Pending(y)[k] != "(" {
      OperatorIsNotOpen(Pending(y)[k]);
    }
  }

  /** The closing bracket after a scanned group body pops the body's pending operators. */
  lemma CloseAfter(dir: Direction, ty: seq<string>, out: seq<string>, s: seq<string>,
                   done: seq<string>, p: seq<string>, post: seq<string>)
    requires forall k :: 0 <= k < |p| ==> p[k] != "("
    requires done + Reverse(p) == post
    requires ShuntList(dir, ["("] + ty, ShuntState(out, s)) == Ok(ShuntState(out + done, s + ["("] + p))
    ensures ShuntList(dir, ["("] + ty + [")"], ShuntState(out, s)) == Ok(ShuntState(out + post, s))
  {
    CloseOver(dir, out + done, s, p);
    assert out + done + Reverse(p) == out + post;
    ShuntListAppend(dir, ["("] + ty, [")"], ShuntState(out, s));
  }

  lemma {:induction false} ShuntOp(dir: Direction, op: string, l: Shape, r: Shape, out: seq<string>, s: seq<string>)
    requires Reads(dir, Op(op, l, r))
    requires |s| == 0 || Holds(dir, s[|s| - 1], Op(op, l, r))
    ensures ShuntList(dir, Tokens(Op(op, l, r)), ShuntState(out, s))
      == Ok(ShuntState(out + Done(Op(op, l, r)), s + Pending(Op(op, l, r))))
    decreases Op(op, l, r), 1
  {
    var tl, tr := Tokens(l), Tokens(r);
    var pl := PostfixOf(Tree(l));
    var st := ShuntState(out, s);
    ShuntLeftOperand(dir, op, l, r, out, s);
    ShuntRightOperand(dir, op, l, r, out + pl, s);
    var st1 := ShuntState(out + pl, s + [op]);
    ShuntListAppend(dir, tl + [op], tr, st);
    assert ShuntList(dir, tl + [op] + tr, st) == ShuntList(dir, tr, st1);
    OpParts(op, l, r, out, s);
  }

  lemma OpParts(op: string, l: Shape, r: Shape, out: seq<string>, s: seq<string>)
    ensures Tokens(Op(op, l, r)) == Tokens(l) + [op] + Tokens(r)
    ensures out + PostfixOf(Tree(l)) + Done(r) == out + Done(Op(op, l, r))
    ensures s + [op] + Pending(r) == s + Pending(Op(op, l, r))
  {
  }

  /** The right operand is read above its operator, which stays on the stack. */
  lemma {:induction false} ShuntRightOperand(dir: Direction, op: string, l: Shape, r: Shape, out: seq<string>, s: seq<string>)
    requires Reads(dir, Op(op, l, r))
    ensures ShuntList(dir, Tokens(r), ShuntState(out, s + [op])) == Ok(ShuntState(out + Done(r), s + [op] + Pending(r)))
    decreases Op(op, l, r), 0
  {
    RightHolds(dir, op, r);
    assert (s + [op])[|s + [op]| - 1] == op;
    ShuntShape(dir, r, out, s + [op]);
  }

  /** The left operand and the operator: the operand's postfix form is output and the
      operator waits on the stack. */
  lemma {:induction false} ShuntLeftOperand(dir: Direction, op: string, l: Shape, r: Shape, out: seq<string>, s: seq<string>)
    requires Reads(dir, Op(op, l, r))
    requires |s| == 0 || Holds(dir, s[|s| - 1], Op(op, l, r))
    ensures ShuntList(dir, Tokens(l) + [op], ShuntState(out, s)) == Ok(ShuntState(out + PostfixOf(Tree(l)), s + [op]))
    decreases Op(op, l, r), 0
  {
    ShuntShape(dir, l, out, s);
    PendingYields(dir, l, op);
    PopPending(dir, out + Done(l), s, Pending(l), op);
    DoneThenPending(l);
    assert out + Done(l) + Reverse(Pending(l)) == out + PostfixOf(Tree(l));
    ShuntListAppend(dir, Tokens(l), [op], ShuntState(out, s));
  }

  /** `infix_to_postfix`'s scan turns the tokens of a reading into the postfix form of
      its tree. */
  lemma ShuntReading(dir: Direction, x: Shape)
    requires Reads(dir, x)
    ensures Shunt(dir, Tokens(x)) == Ok(PostfixOf(Tree(x)))
  {
    var w := Tokens(x);
    assert w[0..] == w;
    ShuntFromList(dir, w, 0, ShuntState([], []));
    ShuntShape(dir, x, [], []);
    assert [] + Done(x) == Done(x) && [] + Pending(x) == Pending(x);
    PendingOperators(dir, x);
    forall k | 0 <= k < |Pending(x)| ensures Pending(x)[k] != "(" {
      OperatorIsNotOpen(Pending(x)[k]);
    }
    ShuntEnd(dir, w, ShuntState(Done(x), Pending(x)));
    DoneThenPending(x);
  }

  // ---------------------------------------------------------------------------------
  // The prefix converter: the mirrored scan

  /** The shape the prefix converter scans: its tokens reversed with the brackets
      turned round, which swaps the operands of every operation. */
  function MirrorShape(x: Shape): Shape {
    match x
    case Atom(t) => Atom(t)
    case Group(y) => Group(MirrorShape(y))
    case Op(op, l, r) => Op(op, MirrorShape(r), MirrorShape(l))
  }

  lemma {:induction false} MirrorShapeTokens(dir: Direction, x: Shape)
    requires Reads(dir, x)
    ensures Mirror(Tokens(x)) == Tokens(MirrorShape(x))
  {
    match x
    case Atom(t) =>
      MirrorSingle(t);
      SwapBracketKind(t);
      assert !IsBracket(t) by {
        if IsBracket(t) {
          SymbolsAreNotNumeric(t);
        }
      }
    case Group(y) =>
      MirrorShapeTokens(dir, y);
      MirrorAppend(["("] + Tokens(y), [")"]);
      MirrorAppend(["("], Tokens(y));
      MirrorSingle("(");
      MirrorSingle(")");
    case Op(op, l, r) =>
      MirrorShapeTokens(dir, l);
      MirrorShapeTokens(dir, r);
      assert SwapBracket(op) == op by {
        assert "("[0] == '(' && ")"[0] == ')';
      }
      MirrorAppend(Tokens(l) + [op], Tokens(r));
      MirrorAppend(Tokens(l), [op]);
      MirrorSingle(op);
  }

  lemma {:induction false} MirrorShapeTree(x: Shape)
    ensures Tree(MirrorShape(x)) == Swap(Tree(x))
  {
    match x
    case Atom(_) =>
    case Group(y) =>
      MirrorShapeTree(y);
    case Op(_, l, r) =>
      MirrorShapeTree(l);
      MirrorShapeTree(r);
  }

  /** A standard reading, mirrored, is a reading of the mirrored scan. */
  lemma {:induction false} MirrorShapeReads(x: Shape)
    requires Reads(LeftToRight, x)
    ensures Reads(RightToLeft, MirrorShape(x))
  {
    match x
    case Atom(_) =>
    case Group(y) =>
      MirrorShapeReads(y);
    case Op(_, l, r) =>
      MirrorShapeReads(l);
      MirrorShapeReads(r);
      assert Binding(MirrorShape(l)) == Binding(l) && Binding(MirrorShape(r)) == Binding(r);
  }

  /** `infix_to_prefix`'s scan turns the tokens of a standard reading into the prefix
      form of its tree. */
  lemma ShuntPrefixReading(x: Shape)
    requires Reads(LeftToRight, x)
    ensures ShuntPrefix(Tokens(x)) == Ok(PrefixOf(Tree(x)))
  {
    MirrorShapeTokens(LeftToRight, x);
    MirrorShapeReads(x);
    ShuntReading(RightToLeft, MirrorShape(x));
    MirrorShapeTree(x);
    ReversePostfixOfSwap(Tree(x));
  }

  // ---------------------------------------------------------------------------------
  // Tokenizing the text of a reading

  lemma OperatorKnown(op: string)
    requires IsOperator(op)
    ensures op in TokenizerOperators
  {
    assert [op[0]] == op;
  }

  /** An operand token followed by a character that cannot continue it is one token,
      a leading `-` included when a sign may stand there. */
  lemma {:induction false} ScanAtom(t: string, q: string, tokens: seq<string>, atStart: bool)
    requires OperandToken(t)
    requires q == [] || !IsOperandChar(q[0])
    requires atStart || SignFollows(tokens)
    ensures ScanRest(t + q, tokens, atStart) == ScanRest(q, tokens + [t], false)
  {
    var w := t + q;
    assert w[0] == t[0] && w[1..] == t[1..] + q;
    RunLengthOf(t[1..], q);
    assert w[..1 + |t[1..]|] == t && w[1 + |t[1..]|..] == q;
    if IsOperandChar(t[0]) {
      OperandCharNotSpace(t[0]);
    }
    ScanRunTo(w, tokens, atStart, q, t);
  }

  /** A bracket or an operator that is no sign becomes a token of its own. */
  lemma {:induction false} ScanChar(t: string, x: string, tokens: seq<string>, atStart: bool)
    requires |t| == 1 && !IsSpace(t[0]) && !IsOperandChar(t[0])
    requires t[0] == '-' ==> !(atStart || SignFollows(tokens))
    ensures ScanRest(t + x, tokens, atStart) == ScanRest(x, tokens + [t], false)
  {
    assert (t + x)[0] == t[0] && (t + x)[1..] == x;
    assert [t[0]] == t;
  }

  /** The text of a reading ends in an operand or `)`, after which a `-` is an operator. */
  lemma {:induction false} TokensLast(x: Shape)
    requires Reads(LeftToRight, x)
    ensures |Tokens(x)| > 0
    ensures var z := Tokens(x)[|Tokens(x)| - 1]; z != "(" && z !in TokenizerOperators
  {
    match x
    case Atom(t) =>
      assert "("[0] == '(' && "+"[0] == '+' && "-"[0] == '-' && "*"[0] == '*';
      assert "/"[0] == '/' && "^"[0] == '^';
      assert [MultiplicationSign][0] == MultiplicationSign && [DivisionSign][0] == DivisionSign;
    case Group(_) =>
      assert ")"[0] == ')' && "("[0] == '(' && "+"[0] == '+' && "-"[0] == '-' && "*"[0] == '*';
      assert "/"[0] == '/' && "^"[0] == '^';
    case Op(_, _, r) =>
      TokensLast(r);
  }

  lemma ShapeText(op: string, il: string, ir: string, q: string)
    ensures il + " " + op + " " + ir + q == il + (" " + (op + (" " + (ir + q))))
  {
  }

  lemma GroupText(iy: string, q: string)
    ensures "(" + iy + ")" + q == "(" + (iy + (")" + q))
  {
  }

  /** The tokenizer reads the text of a standard reading as its tokens, provided what
      follows cannot continue an operand; `-` at the front is a sign when the tokens
      so far allow one. */
  lemma {:induction false} ScanShape(x: Shape, q: string, tokens: seq<string>, atStart: bool)
    requires Reads(LeftToRight, x)
    requires q == [] || !IsOperandChar(q[0])
    requires atStart || SignFollows(tokens)
    ensures ScanRest(Infix(x) + q, tokens, atStart) == ScanRest(q, tokens + Tokens(x), false)
    decreases x, 2
  {
    match x
    case Atom(t) =>
      ScanAtom(t, q, tokens, atStart);
    case Group(y) =>
      ScanGroup(y, q, tokens, atStart);
    case Op(op, l, r) =>
      ScanOp(op, l, r, q, tokens, atStart);
  }

  /** An operation: its left operand, the operator, its right operand. */
  lemma {:induction false} ScanOp(op: string, l: Shape, r: Shape, q: string, tokens: seq<string>, atStart: bool)
    requires Reads(LeftToRight, Op(op, l, r))
    requires q == [] || !IsOperandChar(q[0])
    requires atStart || SignFollows(tokens)
    ensures ScanRest(Infix(Op(op, l, r)) + q, tokens, atStart) == ScanRest(q, tokens + Tokens(Op(op, l, r)), false)
    decreases Op(op, l, r), 1
  {
    ScanLeft(op, l, r, q, tokens, atStart);
    ScanRight(op, l, r, q, tokens);
    OpTokens(tokens, op, l, r);
  }

  lemma OpTokens(tokens: seq<string>, op: string, l: Shape, r: Shape)
    ensures tokens + Tokens(l) + [op] + Tokens(r) == tokens + Tokens(Op(op, l, r))
  {
  }

  /** A bracketed group: `(`, the group's text, `)`. */
  lemma {:induction false} ScanGroup(y: Shape, q: string, tokens: seq<string>, atStart: bool)
    requires Reads(LeftToRight, y)
    requires q == [] || !IsOperandChar(q[0])
    ensures ScanRest(Infix(Group(y)) + q, tokens, atStart) == ScanRest(q, tokens + Tokens(Group(y)), false)
    decreases Group(y), 0
  {
    var tk1 := tokens + ["("];
    assert tk1[|tk1| - 1] == "(";
    BracketScan(")", q, tk1 + Tokens(y), false);
    ScanShape(y, ")" + q, tk1, false);
    ScanBrackets(Infix(y), Tokens(y), q, tokens, atStart);
  }

  /** The scan of `(`, a text it reads as `ty`, and `)`. */
  lemma ScanBrackets(iy: string, ty: seq<string>, q: string, tokens: seq<string>, atStart: bool)
    requires ScanRest(iy + (")" + q), tokens + ["("], false) == ScanRest(")" + q, tokens + ["("] + ty, false)
    ensures ScanRest("(" + iy + ")" + q, tokens, atStart) == ScanRest(q, tokens + (["("] + ty + [")"]), false)
  {
    GroupText(iy, q);
    BracketScan("(", iy + (")" + q), tokens, atStart);
    BracketScan(")", q, tokens + ["("] + ty, false);
    assert tokens + ["("] + ty + [")"] == tokens + (["("] + ty + [")"]);
  }

  /** A bracket is a token of its own, and cannot continue an operand. */
  lemma BracketScan(t: string, x: string, tokens: seq<string>, atStart: bool)
    requires t == "(" || t == ")"
    ensures ScanRest(t + x, tokens, atStart) == ScanRest(x, tokens + [t], false)
    ensures (t + x)[0] == t[0] && !IsOperandChar(t[0])
  {
    assert !IsSpace(t[0]) && !IsOperandChar(t[0]);
    ScanChar(t, x, tokens, atStart);
  }

  /** An operation's left operand and its operator, with the spaces around it. */
  lemma {:induction false} ScanLeft(op: string, l: Shape, r: Shape, q: string, tokens: seq<string>, atStart: bool)
    requires Reads(LeftToRight, Op(op, l, r))
    requires atStart || SignFollows(tokens)
    ensures ScanRest(Infix(Op(op, l, r)) + q, tokens, atStart) == ScanRest(Infix(r) + q, tokens + Tokens(l) + [op], false)
    decreases Op(op, l, r), 0
  {
    var tk1 := tokens + Tokens(l);
    var x3 := Infix(r) + q;
    ShapeText(op, Infix(l), Infix(r), q);
    ScanShape(l, " " + (op + (" " + x3)), tokens, atStart);
    ScanSpace(op + (" " + x3), tk1);
    TokensLast(l);
    assert tk1[|tk1| - 1] == Tokens(l)[|Tokens(l)| - 1];
    OperatorSymbol(op);
    ScanChar(op, " " + x3, tk1, false);
    ScanSpace(x3, tk1 + [op]);
  }

  /** An operation's right operand, read after its operator, where a `-` is a sign. */
  lemma {:induction false} ScanRight(op: string, l: Shape, r: Shape, q: string, tokens: seq<string>)
    requires Reads(LeftToRight, Op(op, l, r))
    requires q == [] || !IsOperandChar(q[0])
    ensures ScanRest(Infix(r) + q, tokens + Tokens(l) + [op], false) == ScanRest(q, tokens + Tokens(l) + [op] + Tokens(r), false)
    decreases Op(op, l, r), 0
  {
    var tk2 := tokens + Tokens(l) + [op];
    OperatorKnown(op);
    assert tk2[|tk2| - 1] == op;
    ScanShape(r, q, tk2, false);
  }

  /** `tokenize_expression` reads the text of a standard reading as its tokens. */
  lemma TokenizeReading(x: Shape)
    requires Reads(LeftToRight, x)
    ensures Tokenize(Infix(x)) == Tokens(x)
  {
    var w := Infix(x);
    TokenizeFromRest(w, 0, []);
    assert w[0..] == w + [];
    ScanShape(x, [], [], true);
    assert [] + Tokens(x) == Tokens(x);
  }

  /** Both converters read the text of a standard reading as its tree:
      `infix_to_postfix` gives the tree's postfix form, `infix_to_prefix` its prefix
      form. */
  lemma ConvertReading(x: Shape)
    requires Reads(LeftToRight, x)
    ensures InfixToPostfix(Infix(x)) == Ok(PostfixOf(Tree(x)))
    ensures InfixToPrefix(Infix(x)) == Ok(PrefixOf(Tree(x)))
  {
    TokenizeReading(x);
    ShuntReading(LeftToRight, x);
    ShuntPrefixReading(x);
  }

  // ---------------------------------------------------------------------------------
  // The renderings of a tree are readings of it

  /** A tree whose operands are operand tokens and whose operations are operators. */
  predicate Written(e: Expr) {
    match e
    case Leaf(t) => OperandToken(t)
    case Node(op, l, r) => IsOperator(op) && Written(l) && Written(r)
  }

  /** What `prefix_to_infix` builds is written so. */
  lemma {:induction false} SpelledWritten(e: Expr)
    requires Spelled(e)
    ensures Written(e)
  {
    match e
    case Leaf(t) =>
      PlainOperandChars(t);
    case Node(_, l, r) =>
      SpelledWritten(l);
      SpelledWritten(r);
  }

  function Bracket(x: Shape, needs: bool): Shape {
    if needs then Group(x) else x
  }

  /** The shape of `postfix_to_infix`'s rendering. */
  function MinShape(e: Expr): Shape {
    match e
    case Leaf(t) => Atom(t)
    case Node(op, l, r) =>
      Op(op, Bracket(MinShape(l), LeftNeedsBrackets(PrecOf(l), op)),
             Bracket(MinShape(r), RightNeedsBrackets(PrecOf(r), op)))
  }

  /** The shape of `prefix_to_infix`'s rendering. */
  function FullShape(e: Expr): Shape {
    match e
    case Leaf(t) => Atom(t)
    case Node(op, l, r) => Group(Op(op, FullShape(l), FullShape(r)))
  }

  /** The minimally bracketed rendering is a standard reading of the tree it renders. */
  lemma {:induction false} MinShapeReads(e: Expr)
    requires Written(e)
    ensures Reads(LeftToRight, MinShape(e))
    ensures Tree(MinShape(e)) == e
    ensures Infix(MinShape(e)) == MinParen(e)
    ensures Binding(MinShape(e)) == PrecOf(e)
  {
    match e
    case Leaf(_) =>
    case Node(op, l, r) =>
      MinShapeReads(l);
      MinShapeReads(r);
      PrecRange(op);
  }

  /** The fully bracketed rendering is a standard reading of the tree it renders. */
  lemma {:induction false} FullShapeReads(e: Expr)
    requires Written(e)
    ensures Reads(LeftToRight, FullShape(e))
    ensures Tree(FullShape(e)) == e
    ensures Infix(FullShape(e)) == FullParen(e)
  {
    match e
    case Leaf(_) =>
    case Node(op, l, r) =>
      FullShapeReads(l);
      FullShapeReads(r);
      PrecRange(op);
      assert Binding(FullShape(l)) == 4 && Binding(FullShape(r)) == 4;
      BracketText(FullParen(l), op, FullParen(r));
  }

  lemma BracketText(a: string, op: string, b: string)
    ensures "(" + (a + " " + op + " " + b) + ")" == "(" + a + " " + op + " " + b + ")"
  {
  }

  /** `postfix_to_infix`'s rendering of a tree reads back as the tree: both converters
      give exactly its postfix and its prefix form. */
  lemma ConvertMinParen(e: Expr)
    requires Written(e)
    ensures InfixToPostfix(MinParen(e)) == Ok(PostfixOf(e))
    ensures InfixToPrefix(MinParen(e)) == Ok(PrefixOf(e))
  {
    MinShapeReads(e);
    ConvertReading(MinShape(e));
  }

  /** `prefix_to_infix`'s rendering of a tree reads back as the tree. */
  lemma ConvertFullParen(e: Expr)
    requires Written(e)
    ensures InfixToPostfix(FullParen(e)) == Ok(PostfixOf(e))
    ensures InfixToPrefix(FullParen(e)) == Ok(PrefixOf(e))
  {
    FullShapeReads(e);
    ConvertReading(FullShape(e));
  }

  /** The tree of a reading is written with operand tokens and operators. */
  lemma {:induction false} ReadsWritten(dir: Direction, x: Shape)
    requires Reads(dir, x)
    ensures Written(Tree(x))
  {
    match x
    case Atom(_) =>
    case Group(y) =>
      ReadsWritten(dir, y);
    case Op(_, l, r) =>
      ReadsWritten(dir, l);
      ReadsWritten(dir, r);
  }

  /** `str(n)` is an operand token. */
  lemma IntOperand(n: int)
    ensures OperandToken(IntToString(n))
  {
    var t := IntToString(n);
    IntToStringLiteral(n);
    IntTextIsFloatText(t);
    if n < 0 {
      assert t[1..] == NatToString(-n);
    }
  }

  // ---------------------------------------------------------------------------------
  // Extending a reading to the right

  /** The reading of `x op a`, for `a` an operand or a bracketed group and `x` a
      reading: `a` becomes the right operand of `op`, and `op` takes as its left
      operand the largest right-hand part of `x` that binds tightly enough for it. */
  function Insert(x: Shape, op: string, a: Shape): Shape
    decreases x
  {
    if x.Op? && !LeftFits(LeftToRight, Binding(x), op) then Op(x.op, x.left, Insert(x.right, op, a))
    else Op(op, x, a)
  }

  lemma InsertText(il: string, o: string, ir: string, op: string, ia: string)
    ensures il + " " + o + " " + (ir + " " + op + " " + ia) == (il + " " + o + " " + ir) + " " + op + " " + ia
  {
  }

  /** Extending a reading by an operator and an operand gives a reading of the extended
      text; it binds at `op`'s precedence or, when `op` went deeper, as `x` did. */
  lemma {:induction false} InsertReads(x: Shape, op: string, a: Shape)
    requires Reads(LeftToRight, x) && Reads(LeftToRight, a) && !a.Op? && IsOperator(op)
    ensures Reads(LeftToRight, Insert(x, op, a))
    ensures Infix(Insert(x, op, a)) == Infix(x) + " " + op + " " + Infix(a)
    ensures Binding(Insert(x, op, a)) == Binding(x) || Binding(Insert(x, op, a)) == Prec(op)
    decreases x
  {
    PrecRange(op);
    if x.Op? && !LeftFits(LeftToRight, Binding(x), op) {
      var o, l, r := x.op, x.left, x.right;
      InsertReads(r, op, a);
      PrecRange(o);
      InsertText(Infix(l), o, Infix(r), op, Infix(a));
    }
  }
}
