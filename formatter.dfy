/** `_infix_to_unicode_format`: the prefix tokens of an infix string are collapsed, one
    `operator operand operand` triple at a time, into a single rendered term; `*`
    becomes `×`, `/` becomes `÷` and `^` a superscript digit. The collapse loop either
    ends, stops on the `KeyError` of a superscript lookup, or, when at least three tokens
    remain and no triple fits, scans the same list forever. */
module Formatter {
  import opened Results
  import opened Text
  import opened Unicodes
  import opened Tokenizer
  import opened Shunting
  import opened ExprTree
  import opened Rebuild
  import opened Scans
  import opened Pipeline
  import opened Precedence

  /** How a computation of the formatter ends: with a value, with the `KeyError` of a
      `SUPERSCRIPT_NUMBERS` lookup (the missing key), or not at all. */
  datatype Outcome<T> = Returns(value: T) | KeyError(key: string) | Hangs

  // ---------------------------------------------------------------------------------
  // One collapse

  /** An `Operator` token: one operator symbol. */
  predicate IsOp(t: string) {
    |t| == 1 && IsOperatorChar(t[0])
  }

  lemma IsOpIsOperator(t: string)
    ensures IsOp(t) <==> IdentifyTokenType(t) == Operator
  {
    IdentifyTokenTypeByShape(t);
  }

  /** Some character of `t` is one of the superscript glyphs. */
  predicate HasSuperscript(t: string) {
    exists k :: 0 <= k < |t| && [t[k]] in SuperscriptNumbers.Values
  }

  /** The rendering of `left ^ right`: an `Unknown` base is bracketed; an exponent that
      is a `Number` holding a superscript has its first character raised into a bracket
      with the base; otherwise the exponent is raised. Each raise looks the digit up, so
      a rendered power shows a raised digit, and a failed one names a key that is no
      single digit. */
  function PowerTerm(left: string, right: string): (r: Outcome<string>)
    ensures r.Returns? ==> HasSuperscript(r.value)
    ensures r.KeyError? ==> r.key !in SuperscriptNumbers
    ensures !r.Hangs?
  {
    if IdentifyTokenType(left) == Unknown then
      if right in SuperscriptNumbers then
        RaisedAt("(" + left + ")", SuperscriptNumbers[right], "", right);
        Returns("(" + left + ")" + SuperscriptNumbers[right])
      else KeyError(right)
    else if IdentifyTokenType(right) == Number && HasSuperscript(right) then
      if [right[0]] in SuperscriptNumbers then
        var glyph := SuperscriptNumbers[[right[0]]];
        RaisedAt("(" + left, glyph, ")" + right[1..], [right[0]]);
        assert "(" + left + glyph + ")" + right[1..] == ("(" + left) + glyph + (")" + right[1..]);
        Returns("(" + left + SuperscriptNumbers[[right[0]]] + ")" + right[1..])
      else KeyError([right[0]])
    else if right in SuperscriptNumbers then
      RaisedAt(left, SuperscriptNumbers[right], "", right);
      Returns(left + SuperscriptNumbers[right])
    else KeyError(right)
  }

  /** A text with a superscript glyph between two parts holds a superscript. */
  lemma RaisedAt(before: string, glyph: string, after: string, d: string)
    requires d in SuperscriptNumbers && glyph == SuperscriptNumbers[d]
    ensures HasSuperscript(before + glyph + after) && HasSuperscript(before + glyph)
  {
    SuperscriptGlyphIsDigit(d);
    assert [(before + glyph + after)[|before|]] == glyph;
    assert [(before + glyph)[|before|]] == glyph;
  }

  /** The term that replaces the triple `op left right`: a power is rendered by
      `PowerTerm`; any other operator gives a bracketed term, with `*` and `/` written
      as the multiplication and division signs. */
  function Term(op: string, left: string, right: string): (r: Outcome<string>)
    ensures op != "^" ==> r.Returns? && |r.value| > 1 && r.value[0] == '(' && r.value[|r.value| - 1] == ')'
    ensures op != "^" && op != "*" && op != "/" ==> r.value == "(" + left + " " + op + " " + right + ")"
    ensures r.KeyError? ==> op == "^" && r.key !in SuperscriptNumbers
    ensures !r.Hangs?
  {
    if op == "^" then PowerTerm(left, right)
    else if op == "*" then Returns("(" + left + " " + [MultiplicationSign] + " " + right + ")")
    else if op == "/" then Returns("(" + left + " " + [DivisionSign] + " " + right + ")")
    else Returns("(" + left + " " + op + " " + right + ")")
  }

  /** A rendered term is never an operator token, so it can be an operand of the next
      collapse. */
  lemma TermIsOperand(op: string, left: string, right: string)
    requires Term(op, left, right).Returns?
    ensures !IsOp(Term(op, left, right).value)
  {
    var v := Term(op, left, right).value;
    if op == "^" && IdentifyTokenType(left) != Unknown
      && !(IdentifyTokenType(right) == Number && HasSuperscript(right))
    {
      GlyphAppendedIsOperand(left, right);
    } else {
      assert v[0] == '(';
      BracketedIsOperand(v);
    }
  }

  /** A base with a superscript glyph appended is not an operator token. */
  lemma GlyphAppendedIsOperand(left: string, right: string)
    requires right in SuperscriptNumbers
    ensures !IsOp(left + SuperscriptNumbers[right])
  {
    SuperscriptGlyphIsDigit(right);
    var v := left + SuperscriptNumbers[right];
    if |left| == 0 {
      assert v == SuperscriptNumbers[right];
    } else {
      assert |v| >= 2;
    }
  }

  /** A bracketed text is not an operator token. */
  lemma BracketedIsOperand(v: string)
    requires |v| > 0 && v[0] == '('
    ensures !IsOp(v)
  {
  }

  /** A rule for the term that replaces a triple `op left right`. */
  type TermRule = (string, string, string) -> Outcome<string>

  /** The terms a rule builds are never operator tokens. */
  ghost predicate MakesOperands(rule: TermRule) {
    forall op, left, right :: rule(op, left, right).Returns? ==> !IsOp(rule(op, left, right).value)
  }

  lemma TermMakesOperands()
    ensures MakesOperands(Term)
  {
    forall op, left, right | Term(op, left, right).Returns?
      ensures !IsOp(Term(op, left, right).value)
    {
      TermIsOperand(op, left, right);
    }
  }

  // ---------------------------------------------------------------------------------
  // The collapse loop, as a function

  /** An operator followed by two non-operators at `i`. */
  predicate PatternAt(ts: seq<string>, i: nat)
    requires i + 2 < |ts|
  {
    IsOp(ts[i]) && !IsOp(ts[i + 1]) && !IsOp(ts[i + 2])
  }

  /** The first triple at or after `from`; a result with fewer than three tokens after it
      means there is none. */
  function FirstPattern(ts: seq<string>, from: nat): (i: nat)
    ensures from <= i
    ensures i + 2 < |ts| ==> PatternAt(ts, i)
    ensures forall j :: from <= j < i && j + 2 < |ts| ==> !PatternAt(ts, j)
    decreases |ts| - from
  {
    if from + 2 >= |ts| then from
    else if PatternAt(ts, from) then from
    else FirstPattern(ts, from + 1)
  }

  /** The list with the triple at `i` replaced by `term`. */
  function Collapsed(ts: seq<string>, i: nat, term: string): seq<string>
    requires i + 2 < |ts|
  {
    ts[..i] + [term] + ts[i + 3..]
  }

  /** The collapse loop, for a rule giving the term of a triple (the engine's is `Term`):
      while more than one token is left, the first triple is replaced by its term; with no triple left, two tokens end the loop and three or more keep it
      scanning forever. */
  function Collapse(rule: TermRule, ts: seq<string>): Outcome<seq<string>>
    decreases |ts|
  {
    if |ts| <= 1 then Returns(ts)
    else
      var i := FirstPattern(ts, 0);
      if i + 2 >= |ts| then (if |ts| >= 3 then Hangs else Returns(ts))
      else match rule(ts[i], ts[i + 1], ts[i + 2])
        case Returns(term) => Collapse(rule, Collapsed(ts, i, term))
        case KeyError(k) => KeyError(k)
        case Hangs => Hangs
  }

  // ---------------------------------------------------------------------------------
  // The collapse loop, as the engine runs it

  /** The three list edits of the loop replace the triple at `i`. */
  lemma InPlaceCollapse(ts: seq<string>, i: nat, term: string)
    requires i + 2 < |ts|
    ensures var t1 := ts[i := term];
      var t2 := t1[..i + 2] + t1[i + 3..];
      t2[..i + 1] + t2[i + 2..] == Collapsed(ts, i, term)
  {
  }

  /** The loop of `_infix_to_unicode_format` over its token list, edited in place under a
      moving index that restarts at 0 after each collapse. Where the engine would rescan
      an unchanged list forever, this returns `Hangs`. */
  method CollapseTokens(tokens0: seq<string>) returns (r: Outcome<seq<string>>)
    ensures r == Collapse(Term, tokens0)
  {
    var tokens := tokens0;
    var i := 0;
    while |tokens| > 1
      invariant Collapse(Term, tokens) == Collapse(Term, tokens0)
      invariant i == 0 || i + 2 <= |tokens|
      invariant FirstPattern(tokens, i) == FirstPattern(tokens, 0)
      decreases |tokens|, |tokens| - i
    {
      if i + 2 >= |tokens| {
        i := 0;
        if |tokens| > 1 && i + 2 < |tokens| {
          // the engine continues here with the same list and index: the pass repeats
          return Hangs;
        }
        break;
      }
      var t1, t2, t3 := tokens[i], tokens[i + 1], tokens[i + 2];
      IsOpIsOperator(t1);
      IsOpIsOperator(t2);
      IsOpIsOperator(t3);
      if IdentifyTokenType(t1) == Operator && IdentifyTokenType(t2) != Operator
        && IdentifyTokenType(t3) != Operator
      {
        var term := Term(t1, t2, t3);
        if !term.Returns? {
          return KeyError(term.key);
        }
        ghost var before := tokens;
        tokens := tokens[i := term.value];
        tokens := tokens[..i + 2] + tokens[i + 3..];
        tokens := tokens[..i + 1] + tokens[i + 2..];
        InPlaceCollapse(before, i, term.value);
        i := 0;
      } else {
        i := i + 1;
      }
    }
    return Returns(tokens);
  }

  // ---------------------------------------------------------------------------------
  // The whole formatter

  predicate OccursAt(s: string, w: string, k: nat)
    requires k + |w| <= |s|
  {
    s[k..k + |w|] == w
  }

  /** `s` holds `w` as a substring (Python's `w in s`). */
  predicate Contains(s: string, w: string) {
    exists k: nat :: k + |w| <= |s| && OccursAt(s, w, k)
  }

  /** The final term with one outer pair of brackets removed, as `f[1:-1]` does. */
  function StripOuter(f: string): string {
    if |f| > 0 && f[0] == '(' && f[|f| - 1] == ')' then (if |f| >= 2 then f[1..|f| - 1] else "")
    else f
  }

  /** What is returned once the loop has ended. */
  function Finish(ts: seq<string>): string {
    if ts == [] then Message("no expression found.") else StripOuter(ts[0])
  }

  /** `_infix_to_unicode_format(s)`: an error from `infix_to_prefix` is returned as it is;
      otherwise the prefix tokens are collapsed. */
  function FormatUnicode(s: string): Outcome<string> {
    var prefix := InfixToPrefixText(s);
    if Contains(prefix, "Error:") then Returns(prefix)
    else match Collapse(Term, Split(prefix))
      case Returns(ts) => Returns(Finish(ts))
      case KeyError(k) => KeyError(k)
      case Hangs => Hangs
  }

  /** The formatter as the engine runs it, its loop that of `CollapseTokens`. */
  method InfixToUnicodeFormat(s: string) returns (r: Outcome<string>)
    ensures r == FormatUnicode(s)
  {
    var prefix := InfixToPrefixText(s);
    if Contains(prefix, "Error:") {
      return Returns(prefix);
    }
    var tokens := CollapseTokens(Split(prefix));
    match tokens
    case Returns(ts) => r := Returns(Finish(ts));
    case KeyError(k) => r := KeyError(k);
    case Hangs => r := Hangs;
  }

  // ---------------------------------------------------------------------------------
  // What the loop computes on the prefix form of a tree

  /** Operators at the nodes and non-operators at the leaves: a tree whose prefix form the
      loop can read back. */
  predicate Shaped(e: Expr) {
    match e
    case Leaf(t) => !IsOp(t)
    case Node(op, l, r) => IsOp(op) && Shaped(l) && Shaped(r)
  }

  /** The term a rule builds for a tree, its operands rendered first, left before right;
      the first failing triple in that order decides the error. */
  function Render(rule: TermRule, e: Expr): Outcome<string> {
    match e
    case Leaf(t) => Returns(t)
    case Node(op, l, r) =>
      var a := Render(rule, l);
      if !a.Returns? then a
      else
        var b := Render(rule, r);
        if !b.Returns? then b else rule(op, a.value, b.value)
  }

  function Head(e: Expr): string {
    match e
    case Leaf(t) => t
    case Node(op, _, _) => op
  }

  lemma PrefixHead(e: Expr)
    ensures |PrefixOf(e)| >= 1 && PrefixOf(e)[0] == Head(e)
    ensures e.Node? ==> |PrefixOf(e)| >= 3
  {
    match e
    case Leaf(_) =>
    case Node(_, l, r) =>
      PrefixHead(l);
      PrefixHead(r);
  }

  /** An operator in the prefix form of a tree heads a subtree, so two more tokens
      follow it. */
  lemma {:induction false} OperatorFits(e: Expr, j: nat)
    requires Shaped(e) && j < |PrefixOf(e)| && IsOp(PrefixOf(e)[j])
    ensures j + 3 <= |PrefixOf(e)|
  {
    match e
    case Leaf(t) =>
    case Node(op, l, r) =>
      PrefixHead(e);
      var pl, pr := PrefixOf(l), PrefixOf(r);
      assert PrefixOf(e) == [op] + pl + pr;
      if j == 0 {
      } else if j - 1 < |pl| {
        assert PrefixOf(e)[j] == pl[j - 1];
        OperatorFits(l, j - 1);
      } else {
        assert PrefixOf(e)[j] == pr[j - 1 - |pl|];
        OperatorFits(r, j - 1 - |pl|);
      }
  }

  /** A node of an operator tree with two leaves below it, found in its prefix form. */
  lemma {:induction false} FindPattern(e: Expr) returns (i: nat)
    requires Shaped(e) && e.Node?
    ensures i + 2 < |PrefixOf(e)| && PatternAt(PrefixOf(e), i)
  {
    var l, r := e.left, e.right;
    var p, pl, pr := PrefixOf(e), PrefixOf(l), PrefixOf(r);
    NodeParts(e);
    if l.Node? {
      var j := FindPattern(l);
      PatternShift(p, pl, 1, j);
      i := j + 1;
    } else if r.Node? {
      var j := FindPattern(r);
      PatternShift(p, pr, 1 + |pl|, j);
      i := j + 1 + |pl|;
    } else {
      PrefixHead(l);
      PrefixHead(r);
      i := 0;
    }
  }

  /** Where the operands' prefix forms sit in a node's prefix form. */
  lemma NodeParts(e: Expr)
    requires e.Node?
    ensures var p, pl, pr := PrefixOf(e), PrefixOf(e.left), PrefixOf(e.right);
            |p| == 1 + |pl| + |pr| && p[1..1 + |pl|] == pl && p[1 + |pl|..1 + |pl| + |pr|] == pr
  {
    assert PrefixOf(e) == [e.op] + PrefixOf(e.left) + PrefixOf(e.right);
  }

  /** The tree with the node at prefix position `i` replaced by a leaf. */
  function ReplaceAt(e: Expr, i: nat, term: string): Expr {
    match e
    case Leaf(_) => e
    case Node(op, l, r) =>
      if i == 0 then Leaf(term)
      else if i - 1 < |PrefixOf(l)| then Node(op, ReplaceAt(l, i - 1, term), r)
      else Node(op, l, ReplaceAt(r, i - 1 - |PrefixOf(l)|, term))
  }

  predicate Leftmost(ts: seq<string>, i: nat) {
    forall j :: 0 <= j < i && j + 2 < |ts| ==> !PatternAt(ts, j)
  }

  /** What collapsing the triple at `i` of a tree's prefix form does to the tree: the new
      list is the prefix form of the tree with that node replaced by the leaf of its term,
      the tree renders the same, a rule that fails at the first triple is where the
      rendering fails, and a rendering that succeeds never meets a failing triple. */
  predicate Reduces(rule: TermRule, e: Expr, i: nat)
    requires i + 2 < |PrefixOf(e)|
  {
    var p := PrefixOf(e);
    var t := rule(p[i], p[i + 1], p[i + 2]);
    && (t.Returns? ==>
          && PrefixOf(ReplaceAt(e, i, t.value)) == Collapsed(p, i, t.value)
          && Render(rule, ReplaceAt(e, i, t.value)) == Render(rule, e)
          && (!IsOp(t.value) ==> Shaped(ReplaceAt(e, i, t.value))))
    && (Render(rule, e).Returns? ==> t.Returns?)
    && (!t.Returns? && Leftmost(p, i) ==> Render(rule, e) == t)
  }

  lemma CollapsedLeft(op: string, a: seq<string>, b: seq<string>, k: nat, v: string)
    requires k + 2 < |a|
    ensures Collapsed([op] + a + b, k + 1, v) == [op] + Collapsed(a, k, v) + b
  {
    var p := [op] + a + b;
    assert p[..k + 1] == [op] + a[..k];
    assert p[k + 4..] == a[k + 3..] + b;
  }

  lemma CollapsedRight(op: string, a: seq<string>, b: seq<string>, k: nat, v: string)
    requires k + 2 < |b|
    ensures Collapsed([op] + a + b, k + 1 + |a|, v) == [op] + a + Collapsed(b, k, v)
  {
    var p := [op] + a + b;
    assert p[..k + 1 + |a|] == [op] + a + b[..k];
    assert p[k + 4 + |a|..] == b[k + 3..];
  }

  /** A triple inside a part of a list is a triple of the list, shifted. */
  lemma PatternShift(p: seq<string>, part: seq<string>, d: nat, j: nat)
    requires d + |part| <= |p| && p[d..d + |part|] == part && j + 2 < |part|
    ensures PatternAt(p, j + d) == PatternAt(part, j)
  {
    assert p[j + d] == part[j] && p[j + d + 1] == part[j + 1] && p[j + d + 2] == part[j + 2];
  }

  /** The triple at the root: both operands are leaves. */
  lemma {:induction false} ReduceRoot(rule: TermRule, e: Expr)
    requires Shaped(e) && 2 < |PrefixOf(e)| && PatternAt(PrefixOf(e), 0)
    ensures Reduces(rule, e, 0)
  {
    var p := PrefixOf(e);
    match e
    case Leaf(_) =>
    case Node(op, l, r) =>
      PrefixHead(l);
      PrefixHead(r);
      assert p == [op] + PrefixOf(l) + PrefixOf(r);
      assert p[1] == Head(l);
      assert l.Leaf?;
      assert p[2] == Head(r);
      assert r.Leaf?;
      assert p == [op, Head(l), Head(r)];
      var t := rule(op, Head(l), Head(r));
      assert Render(rule, l) == Returns(Head(l)) && Render(rule, r) == Returns(Head(r));
      assert Render(rule, e) == t;
      if t.Returns? {
        assert ReplaceAt(e, 0, t.value) == Leaf(t.value);
        assert Collapsed(p, 0, t.value) == [t.value];
      }
  }

  /** A triple inside the left operand. */
  lemma {:induction false} ReduceLeft(rule: TermRule, e: Expr, i: nat)
    requires Shaped(e) && e.Node? && 1 <= i && i + 2 < |PrefixOf(e)| && PatternAt(PrefixOf(e), i)
    requires i - 1 < |PrefixOf(e.left)|
    ensures Reduces(rule, e, i)
    decreases e, 0
  {
    var p := PrefixOf(e);
    var op, l, r := e.op, e.left, e.right;
    var pl, pr := PrefixOf(l), PrefixOf(r);
    var k := i - 1;
    assert p == [op] + pl + pr;
    assert p[1..1 + |pl|] == pl;
    assert p[i] == pl[k];
    OperatorFits(l, k);
    PatternShift(p, pl, 1, k);
    if Leftmost(p, i) {
      forall j | 0 <= j < k && j + 2 < |pl|
        ensures !PatternAt(pl, j)
      {
        PatternShift(p, pl, 1, j);
      }
    }
    ReduceStep(rule, l, k);
    assert Reduces(rule, l, k);
    assert p[i] == pl[k] && p[i + 1] == pl[k + 1] && p[i + 2] == pl[k + 2];
    var t := rule(p[i], p[i + 1], p[i + 2]);
    if t.Returns? {
      var l' := ReplaceAt(l, k, t.value);
      assert ReplaceAt(e, i, t.value) == Node(op, l', r);
      assert PrefixOf(Node(op, l', r)) == [op] + PrefixOf(l') + pr;
      CollapsedLeft(op, pl, pr, k, t.value);
      assert Render(rule, l') == Render(rule, l);
    }
  }

  /** When the first triple lies past the left operand, that operand is a leaf. */
  lemma LeftmostPastLeft(e: Expr, i: nat)
    requires Shaped(e) && e.Node? && 1 + |PrefixOf(e.left)| <= i && Leftmost(PrefixOf(e), i)
    ensures e.left.Leaf?
  {
    var p, pl := PrefixOf(e), PrefixOf(e.left);
    if e.left.Node? {
      var j := FindPattern(e.left);
      assert p == [e.op] + pl + PrefixOf(e.right);
      assert p[1..1 + |pl|] == pl;
      PatternShift(p, pl, 1, j);
      assert false;
    }
  }

  /** A triple inside the right operand: the left operand is then a leaf when the triple
      is the first one. */
  lemma {:induction false} ReduceRight(rule: TermRule, e: Expr, i: nat)
    requires Shaped(e) && e.Node? && i + 2 < |PrefixOf(e)| && PatternAt(PrefixOf(e), i)
    requires 1 + |PrefixOf(e.left)| <= i
    ensures Reduces(rule, e, i)
    decreases e, 0
  {
    var p := PrefixOf(e);
    var op, l, r := e.op, e.left, e.right;
    var pl, pr := PrefixOf(l), PrefixOf(r);
    var d := 1 + |pl|;
    var k := i - d;
    assert p == [op] + pl + pr;
    assert p[d..d + |pr|] == pr;
    PatternShift(p, pr, d, k);
    if Leftmost(p, i) {
      LeftmostPastLeft(e, i);
      forall j | 0 <= j < k && j + 2 < |pr|
        ensures !PatternAt(pr, j)
      {
        PatternShift(p, pr, d, j);
      }
    }
    ReduceStep(rule, r, k);
    LiftRight(rule, e, i);
  }

  /** What collapsing a triple of the right operand does, seen from the whole tree. */
  lemma LiftRight(rule: TermRule, e: Expr, i: nat)
    requires Shaped(e) && e.Node? && i + 2 < |PrefixOf(e)| && 1 + |PrefixOf(e.left)| <= i
    requires i - 1 - |PrefixOf(e.left)| + 2 < |PrefixOf(e.right)|
    requires Reduces(rule, e.right, i - 1 - |PrefixOf(e.left)|)
    requires Leftmost(PrefixOf(e), i) ==> e.left.Leaf? && Leftmost(PrefixOf(e.right), i - 1 - |PrefixOf(e.left)|)
    ensures Reduces(rule, e, i)
  {
    var p := PrefixOf(e);
    var k := i - 1 - |PrefixOf(e.left)|;
    TripleInRight(e, i);
    var t := rule(p[i], p[i + 1], p[i + 2]);
    if t.Returns? {
      LiftRightReplaced(rule, e, i, t.value);
    }
  }

  /** The triple at `i` of a tree's prefix form is the triple at `k` of its right operand's. */
  lemma TripleInRight(e: Expr, i: nat)
    requires e.Node? && i + 2 < |PrefixOf(e)| && 1 + |PrefixOf(e.left)| <= i
    ensures var p, pr, k := PrefixOf(e), PrefixOf(e.right), i - 1 - |PrefixOf(e.left)|;
            k + 2 < |pr| && p[i] == pr[k] && p[i + 1] == pr[k + 1] && p[i + 2] == pr[k + 2]
  {
    assert PrefixOf(e) == [e.op] + PrefixOf(e.left) + PrefixOf(e.right);
  }

  /** Replacing a node of the right operand by the leaf `v` of its term. */
  lemma LiftRightReplaced(rule: TermRule, e: Expr, i: nat, v: string)
    requires Shaped(e) && e.Node? && i + 2 < |PrefixOf(e)| && 1 + |PrefixOf(e.left)| <= i
    requires i - 1 - |PrefixOf(e.left)| + 2 < |PrefixOf(e.right)|
    requires var k := i - 1 - |PrefixOf(e.left)|;
             var r' := ReplaceAt(e.right, k, v);
             && PrefixOf(r') == Collapsed(PrefixOf(e.right), k, v)
             && Render(rule, r') == Render(rule, e.right)
             && (!IsOp(v) ==> Shaped(r'))
    ensures var e' := ReplaceAt(e, i, v);
            && PrefixOf(e') == Collapsed(PrefixOf(e), i, v)
            && Render(rule, e') == Render(rule, e)
            && (!IsOp(v) ==> Shaped(e'))
  {
    var op, l, r := e.op, e.left, e.right;
    var pl, pr := PrefixOf(l), PrefixOf(r);
    var k := i - 1 - |pl|;
    var r' := ReplaceAt(r, k, v);
    assert ReplaceAt(e, i, v) == Node(op, l, r');
    CollapsedRight(op, pl, pr, k, v);
  }

  /** Collapsing a triple of a tree's prefix form is replacing a node with two leaves by
      the leaf of its term. */
  lemma {:induction false} ReduceStep(rule: TermRule, e: Expr, i: nat)
    requires Shaped(e) && i + 2 < |PrefixOf(e)| && PatternAt(PrefixOf(e), i)
    ensures Reduces(rule, e, i)
    decreases e, 1
  {
    PrefixHead(e);
    if i == 0 {
      ReduceRoot(rule, e);
    } else if e.Leaf? {
    } else if i - 1 < |PrefixOf(e.left)| {
      ReduceLeft(rule, e, i);
    } else {
      ReduceRight(rule, e, i);
    }
  }

  /** The loop run on the prefix form of an operator tree, under a rule whose terms are
      operands, never scans forever on its own: it ends with the tree's rendering as the
      one remaining token, or stops where the rendering stops. */
  lemma {:induction false} CollapseTree(rule: TermRule, e: Expr)
    requires Shaped(e) && MakesOperands(rule)
    ensures var r := Render(rule, e);
      Collapse(rule, PrefixOf(e))
        == if r.Returns? then Returns([r.value]) else if r.KeyError? then KeyError(r.key) else Hangs
    decreases |PrefixOf(e)|
  {
    var p := PrefixOf(e);
    PrefixHead(e);
    if e.Node? {
      var i0 := FindPattern(e);
      var i := FirstPattern(p, 0);
      assert i <= i0;
      assert Leftmost(p, i);
      ReduceStep(rule, e, i);
      assert Reduces(rule, e, i);
      var t := rule(p[i], p[i + 1], p[i + 2]);
      if t.Returns? {
        CollapseTree(rule, ReplaceAt(e, i, t.value));
      }
    }
  }

  // ---------------------------------------------------------------------------------
  // The formatter on well-formed and refused input

  /** The terms `Term` builds for a tree, like `Term` itself, never hang. */
  lemma {:induction false} RenderEnds(e: Expr)
    ensures Render(Term, e).Returns? || Render(Term, e).KeyError?
  {
    match e
    case Leaf(_) =>
    case Node(op, l, r) =>
      RenderEnds(l);
      RenderEnds(r);
      if Render(Term, l).Returns? && Render(Term, r).Returns? {
      }
  }

  /** A tree with operand-token leaves and operators is an operator tree. */
  lemma {:induction false} WrittenShaped(e: Expr)
    requires Written(e)
    ensures Shaped(e)
  {
    match e
    case Leaf(t) =>
      assert t[0] == '-' || IsOperandChar(t[0]);
    case Node(_, l, r) =>
      WrittenShaped(l);
      WrittenShaped(r);
  }

  predicate NoColon(s: string) {
    forall k :: 0 <= k < |s| ==> s[k] != ':'
  }

  lemma {:induction false} JoinNoColon(ts: seq<string>)
    requires forall k :: 0 <= k < |ts| ==> NoColon(ts[k])
    ensures NoColon(Join(ts))
    decreases |ts|
  {
    if |ts| > 1 {
      JoinNoColon(ts[1..]);
      var rest := Join(ts[1..]);
      assert Join(ts) == ts[0] + " " + rest;
      forall k | 0 <= k < |Join(ts)|
        ensures Join(ts)[k] != ':'
      {
        if k < |ts[0]| {
          assert Join(ts)[k] == ts[0][k];
        } else if k > |ts[0]| {
          assert Join(ts)[k] == rest[k - |ts[0]| - 1];
        }
      }
    }
  }

  /** The tokens of such a tree's prefix form hold no colon. */
  lemma {:induction false} WrittenNoColon(e: Expr)
    requires Written(e)
    ensures forall k :: 0 <= k < |PrefixOf(e)| ==> NoColon(PrefixOf(e)[k])
  {
    match e
    case Leaf(t) =>
      assert forall m :: 0 <= m < |t| ==> t[m] == '-' || IsOperandChar(t[m]);
    case Node(op, l, r) =>
      WrittenNoColon(l);
      WrittenNoColon(r);
      var p, pl, pr := PrefixOf(e), PrefixOf(l), PrefixOf(r);
      assert p == [op] + pl + pr;
      forall k | 0 <= k < |p|
        ensures NoColon(p[k])
      {
        if k == 0 {
        } else if k - 1 < |pl| {
          assert p[k] == pl[k - 1];
        } else {
          assert p[k] == pr[k - 1 - |pl|];
        }
      }
  }

  lemma ColonFree(s: string)
    requires NoColon(s)
    ensures !Contains(s, "Error:")
  {
    forall k: nat | k + 6 <= |s|
      ensures !OccursAt(s, "Error:", k)
    {
      assert s[k..k + 6][5] == s[k + 5];
    }
  }

  /** The unicode form of infix text that is a standard reading of a tree: the tree's
      term with its outer brackets removed, or the error of its first failing
      superscript lookup; it never hangs. */
  lemma FormatReading(x: Shape)
    requires Reads(LeftToRight, x)
    ensures Render(Term, Tree(x)).Returns? || Render(Term, Tree(x)).KeyError?
    ensures var r := Render(Term, Tree(x));
      FormatUnicode(Infix(x)) == if r.Returns? then Returns(StripOuter(r.value)) else KeyError(r.key)
  {
    var e := Tree(x);
    var p := PrefixOf(e);
    ReadsWritten(LeftToRight, x);
    ConvertReading(x);
    assert InfixToPrefixText(Infix(x)) == Join(p);
    WrittenNoColon(e);
    JoinNoColon(p);
    ColonFree(Join(p));
    WrittenWords(e);
    SplitJoin(p);
    WrittenShaped(e);
    TermMakesOperands();
    CollapseTree(Term, e);
    RenderEnds(e);
  }

  /** The unicode form of `prefix_to_infix`'s rendering of a tree. */
  lemma FormatFullParen(e: Expr)
    requires Written(e)
    ensures Render(Term, e).Returns? || Render(Term, e).KeyError?
    ensures var r := Render(Term, e);
      FormatUnicode(FullParen(e)) == if r.Returns? then Returns(StripOuter(r.value)) else KeyError(r.key)
  {
    FullShapeReads(e);
    FormatReading(FullShape(e));
  }

  /** The unicode form of `postfix_to_infix`'s rendering of a tree. */
  lemma FormatMinParen(e: Expr)
    requires Written(e)
    ensures Render(Term, e).Returns? || Render(Term, e).KeyError?
    ensures var r := Render(Term, e);
      FormatUnicode(MinParen(e)) == if r.Returns? then Returns(StripOuter(r.value)) else KeyError(r.key)
  {
    MinShapeReads(e);
    FormatReading(MinShape(e));
  }

  /** An input `infix_to_prefix` refuses is answered with its message. */
  lemma FormatRefused(s: string)
    requires InfixToPrefix(s).Err?
    ensures FormatUnicode(s) == Returns(PrefixMessage(InfixToPrefix(s).error))
  {
    var m := PrefixMessage(InfixToPrefix(s).error);
    MessagesAreMessages(InfixToPrefix(s).error, RebuildError.NotEnoughOperands);
    assert OccursAt(m, "Error:", 0);
  }
}
