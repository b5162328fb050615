/** The scans of the two converters and of `tokenize_expression`, read from the front of
    what is left of their input, so that the scan of a concatenation is the scan of the
    first part followed by the scan of the second. The precedence proofs work with
    these. */
module Scans {
  import opened Results
  import opened Text
  import opened Unicodes
  import opened Tokenizer
  import opened Shunting
  import opened ExprTree
  import opened Rebuild

  /** Trees `prefix_to_infix` can produce: non-empty plain operands at the leaves and
      the converters' operators at the nodes. */
  predicate Spelled(e: Expr) {
    match e
    case Leaf(t) => |t| > 0 && IsPlainOperand(t)
    case Node(op, l, r) => IsOperator(op) && Spelled(l) && Spelled(r)
  }

  lemma {:induction false} SpelledIsPlain(e: Expr)
    requires Spelled(e)
    ensures Plain(e)
  {
    match e
    case Leaf(_) =>
    case Node(_, l, r) =>
      SpelledIsPlain(l);
      SpelledIsPlain(r);
  }

  // ---------------------------------------------------------------------------------
  // Shunting a token list

  /** The scan over a token list, read from its front. */
  function ShuntList(dir: Direction, ts: seq<string>, st: ShuntState): Result<ShuntState, ConvertError>
    decreases |ts|
  {
    if ts == [] then Ok(st)
    else match ShuntToken(dir, st, ts[0])
      case Err(e) => Err(e)
      case Ok(st') => ShuntList(dir, ts[1..], st')
  }

  lemma {:induction false} ShuntFromList(dir: Direction, tokens: seq<string>, i: nat, st: ShuntState)
    requires i <= |tokens|
    ensures ShuntFrom(dir, tokens, i, st) == ShuntList(dir, tokens[i..], st)
    decreases |tokens| - i
  {
    if i < |tokens| {
      assert tokens[i..][0] == tokens[i] && tokens[i..][1..] == tokens[i + 1..];
      var r := ShuntToken(dir, st, tokens[i]);
      if r.Ok? {
        ShuntFromList(dir, tokens, i + 1, r.value);
      }
    }
  }

  /** Scanning two lists one after the other. */
  lemma {:induction false} ShuntListAppend(dir: Direction, a: seq<string>, b: seq<string>, st: ShuntState)
    ensures var r := ShuntList(dir, a, st);
      ShuntList(dir, a + b, st) == if r.Ok? then ShuntList(dir, b, r.value) else r
    decreases |a|
  {
    if a == [] {
      assert a + b == b;
    } else {
      assert (a + b)[0] == a[0] && (a + b)[1..] == a[1..] + b;
      var r := ShuntToken(dir, st, a[0]);
      if r.Ok? {
        ShuntListAppend(dir, a[1..], b, r.value);
      }
    }
  }

  lemma ShuntListOne(dir: Direction, t: string, st: ShuntState)
    ensures ShuntList(dir, [t], st) == ShuntToken(dir, st, t)
  {
    assert [t][1..] == [];
  }

  /** `(` is pushed. */
  lemma OpenStep(dir: Direction, st: ShuntState)
    ensures ShuntList(dir, ["("], st) == Ok(ShuntState(st.output, st.stack + ["("]))
  {
    SymbolsAreNotNumeric("(");
    ShuntListOne(dir, "(", st);
  }

  /** A tree with its operands swapped at every node. */
  function Swap(e: Expr): Expr {
    match e
    case Leaf(t) => Leaf(t)
    case Node(op, l, r) => Node(op, Swap(r), Swap(l))
  }

  lemma MirrorSingle(x: string)
    ensures Mirror([x]) == [SwapBracket(x)]
  {
  }

  /** The swapped tree's postfix form, reversed, is the tree's prefix form. */
  lemma {:induction false} ReversePostfixOfSwap(e: Expr)
    ensures Reverse(PostfixOf(Swap(e))) == PrefixOf(e)
  {
    match e
    case Leaf(t) =>
      assert Reverse([t]) == [t];
    case Node(op, l, r) =>
      ReversePostfixOfSwap(l);
      ReversePostfixOfSwap(r);
      var pr, pl := PostfixOf(Swap(r)), PostfixOf(Swap(l));
      ReverseAppend(pr + pl, [op]);
      ReverseAppend(pr, pl);
      assert Reverse([op]) == [op];
  }

  // ---------------------------------------------------------------------------------
  // Tokenizing a string

  /** The number of operand characters at the front of `w`. */
  function RunLength(w: string): (n: nat)
    ensures n <= |w|
    ensures forall m :: 0 <= m < n ==> IsOperandChar(w[m])
    ensures n == |w| || !IsOperandChar(w[n])
    decreases |w|
  {
    if w == [] || !IsOperandChar(w[0]) then 0 else 1 + RunLength(w[1..])
  }

  /** The last token is `(` or an operator, so a `-` after it is a sign. */
  predicate SignFollows(tokens: seq<string>) {
    |tokens| > 0 && (tokens[|tokens| - 1] == "(" || tokens[|tokens| - 1] in TokenizerOperators)
  }

  /** The tokenizer's scan over what is left of the input, `w`, read from its front;
      `atStart` holds while nothing has been read yet, where a `-` is always a sign. */
  function ScanRest(w: string, tokens: seq<string>, atStart: bool): seq<string>
    decreases |w|
  {
    if w == [] then tokens
    else if IsSpace(w[0]) then ScanRest(w[1..], tokens, false)
    else if w[0] == '-' && (atStart || SignFollows(tokens)) then
      var n := RunLength(w[1..]);
      if n == 0 then ScanRest(w[1..], tokens + ["-"], false)
      else ScanRest(w[1 + n..], tokens + [w[..1 + n]], false)
    else if IsOperandChar(w[0]) then
      var n := RunLength(w[1..]);
      ScanRest(w[1 + n..], tokens + [w[..1 + n]], false)
    else ScanRest(w[1..], tokens + [[w[0]]], false)
  }

  lemma {:induction false} OperandEndIsRun(s: string, j: nat)
    requires j <= |s|
    ensures OperandEnd(s, j) == j + RunLength(s[j..])
    decreases |s| - j
  {
    if j < |s| {
      assert s[j..][0] == s[j];
      if IsOperandChar(s[j]) {
        assert s[j..][1..] == s[j + 1..];
        OperandEndIsRun(s, j + 1);
      }
    } else {
      assert s[j..] == [];
    }
  }

  /** The index-based scan and the scan over the rest of the input agree. */
  lemma {:induction false} TokenizeFromRest(s: string, i: nat, tokens: seq<string>)
    requires i <= |s|
    ensures TokenizeFrom(s, i, tokens) == ScanRest(s[i..], tokens, i == 0)
    decreases |s| - i, 2
  {
    var w := s[i..];
    if i == |s| {
      assert w == [];
    } else {
      assert w[0] == s[i] && w[1..] == s[i + 1..];
      assert MinusIsUnary(s, i, tokens) <==> i == 0 || SignFollows(tokens);
      if IsSpace(s[i]) {
        TokenizeFromRest(s, i + 1, tokens);
      } else if (s[i] == '-' && MinusIsUnary(s, i, tokens)) || IsOperandChar(s[i]) {
        TokenizeFromRestRun(s, i, tokens);
      } else {
        TokenizeFromRest(s, i + 1, tokens + [[s[i]]]);
      }
    }
  }

  /** The step of `TokenizeFromRest` for a run of operand characters, signed or not. */
  lemma {:induction false} TokenizeFromRestRun(s: string, i: nat, tokens: seq<string>)
    requires i < |s| && !IsSpace(s[i])
    requires (s[i] == '-' && MinusIsUnary(s, i, tokens)) || IsOperandChar(s[i])
    ensures TokenizeFrom(s, i, tokens) == ScanRest(s[i..], tokens, i == 0)
    decreases |s| - i, 1
  {
    if s[i] == '-' && MinusIsUnary(s, i, tokens) && OperandEnd(s, i + 1) == i + 1 {
      LoneMinusRest(s, i, tokens);
    } else {
      OperandRunRest(s, i, tokens);
    }
  }

  /** A sign `-` followed by no operand character becomes a token of its own. */
  lemma {:induction false} LoneMinusRest(s: string, i: nat, tokens: seq<string>)
    requires i < |s| && s[i] == '-' && MinusIsUnary(s, i, tokens) && OperandEnd(s, i + 1) == i + 1
    ensures TokenizeFrom(s, i, tokens) == ScanRest(s[i..], tokens, i == 0)
    decreases |s| - i, 0
  {
    LoneMinusSteps(s, i, tokens);
    TokenizeFromRest(s, i + 1, tokens + ["-"]);
  }

  /** Both scans take a lone sign as the token `-` and go on after it. */
  lemma LoneMinusSteps(s: string, i: nat, tokens: seq<string>)
    requires i < |s| && s[i] == '-' && MinusIsUnary(s, i, tokens) && OperandEnd(s, i + 1) == i + 1
    ensures TokenizeFrom(s, i, tokens) == TokenizeFrom(s, i + 1, tokens + ["-"])
    ensures ScanRest(s[i..], tokens, i == 0) == ScanRest(s[i + 1..], tokens + ["-"], false)
  {
    var w := s[i..];
    assert w[0] == s[i] && w[1..] == s[i + 1..];
    OperandEndIsRun(s, i + 1);
    TokenizeRunStep(s, i, tokens);
    assert MinusIsUnary(s, i, tokens) <==> i == 0 || SignFollows(tokens);
    ScanRunStep(w, tokens, i == 0);
  }

  /** A run of operand characters, with its sign if it has one, becomes one token. */
  lemma {:induction false} OperandRunRest(s: string, i: nat, tokens: seq<string>)
    requires i < |s| && !IsSpace(s[i])
    requires (s[i] == '-' && MinusIsUnary(s, i, tokens)) || IsOperandChar(s[i])
    requires !(s[i] == '-' && MinusIsUnary(s, i, tokens) && OperandEnd(s, i + 1) == i + 1)
    ensures TokenizeFrom(s, i, tokens) == ScanRest(s[i..], tokens, i == 0)
    decreases |s| - i, 0
  {
    OperandRunSteps(s, i, tokens);
    var j := OperandEnd(s, i + 1);
    TokenizeFromRest(s, j, tokens + [s[i..j]]);
  }

  /** Both scans take the run `s[i..j]` as one token and go on from `j`. */
  lemma OperandRunSteps(s: string, i: nat, tokens: seq<string>)
    requires i < |s| && !IsSpace(s[i])
    requires (s[i] == '-' && MinusIsUnary(s, i, tokens)) || IsOperandChar(s[i])
    requires !(s[i] == '-' && MinusIsUnary(s, i, tokens) && OperandEnd(s, i + 1) == i + 1)
    ensures var j := OperandEnd(s, i + 1);
            i < j <= |s| &&
            TokenizeFrom(s, i, tokens) == TokenizeFrom(s, j, tokens + [s[i..j]]) &&
            ScanRest(s[i..], tokens, i == 0) == ScanRest(s[j..], tokens + [s[i..j]], false)
  {
    TokenizeRunStep(s, i, tokens);
    ScanRunOfRest(s, i, tokens);
  }

  /** The scan over the rest of the input, seen from index `i`, over a run. */
  lemma ScanRunOfRest(s: string, i: nat, tokens: seq<string>)
    requires i < |s| && !IsSpace(s[i])
    requires (s[i] == '-' && MinusIsUnary(s, i, tokens)) || IsOperandChar(s[i])
    requires !(s[i] == '-' && MinusIsUnary(s, i, tokens) && OperandEnd(s, i + 1) == i + 1)
    ensures var j := OperandEnd(s, i + 1);
            i < j <= |s| &&
            ScanRest(s[i..], tokens, i == 0) == ScanRest(s[j..], tokens + [s[i..j]], false)
  {
    RunAtRest(s, i, tokens);
    var j := OperandEnd(s, i + 1);
    SliceOfRest(s, i, j);
    ScanRunTo(s[i..], tokens, i == 0, s[j..], s[i..j]);
  }

  lemma SliceOfRest(s: string, i: nat, j: nat)
    requires i <= j <= |s|
    ensures s[i..j] == s[i..][..j - i] && s[j..] == s[i..][j - i..]
  {
  }

  /** The run at `s[i]` and the sign test, read from the front of `s[i..]`. */
  lemma RunAtRest(s: string, i: nat, tokens: seq<string>)
    requires i < |s|
    ensures var w := s[i..];
            w != [] && w[0] == s[i] &&
            OperandEnd(s, i + 1) == i + 1 + RunLength(w[1..]) &&
            ((s[i] == '-' && MinusIsUnary(s, i, tokens)) <==> w[0] == '-' && (i == 0 || SignFollows(tokens)))
  {
    var w := s[i..];
    assert w[1..] == s[i + 1..];
    OperandEndIsRun(s, i + 1);
  }

  /** The scan over `w` takes the run at its front as one token `tok` and goes on with `rest`. */
  lemma ScanRunTo(w: string, tokens: seq<string>, atStart: bool, rest: string, tok: string)
    requires w != [] && !IsSpace(w[0])
    requires (w[0] == '-' && (atStart || SignFollows(tokens))) || IsOperandChar(w[0])
    requires !(w[0] == '-' && (atStart || SignFollows(tokens)) && RunLength(w[1..]) == 0)
    requires rest == w[1 + RunLength(w[1..])..] && tok == w[..1 + RunLength(w[1..])]
    ensures ScanRest(w, tokens, atStart) == ScanRest(rest, tokens + [tok], false)
  {
    ScanRunStep(w, tokens, atStart);
  }

  /** One step of the scan over the rest of the input over a run. */
  lemma ScanRunStep(w: string, tokens: seq<string>, atStart: bool)
    requires w != [] && !IsSpace(w[0])
    requires (w[0] == '-' && (atStart || SignFollows(tokens))) || IsOperandChar(w[0])
    ensures var n := RunLength(w[1..]);
            if w[0] == '-' && (atStart || SignFollows(tokens)) && n == 0 then
              ScanRest(w, tokens, atStart) == ScanRest(w[1..], tokens + ["-"], false)
            else
              ScanRest(w, tokens, atStart) == ScanRest(w[1 + n..], tokens + [w[..1 + n]], false)
  {
    if !(w[0] == '-' && (atStart || SignFollows(tokens))) {
      assert IsOperandChar(w[0]) && w[0] != '-';
    }
  }

  lemma {:induction false} RunLengthOf(t: string, q: string)
    requires forall m :: 0 <= m < |t| ==> IsOperandChar(t[m])
    requires q == [] || !IsOperandChar(q[0])
    ensures RunLength(t + q) == |t|
    decreases |t|
  {
    if t == [] {
      assert t + q == q;
    } else {
      assert (t + q)[0] == t[0] && (t + q)[1..] == t[1..] + q;
      RunLengthOf(t[1..], q);
    }
  }

  lemma {:induction false} PlainOperandChars(t: string)
    requires IsPlainOperand(t)
    ensures forall m :: 0 <= m < |t| ==> IsOperandChar(t[m])
  {
    AlnumCharsEach(t);
    AllSuperscriptEach(t);
  }

  /** An operand followed by a character that cannot continue it is one token. */
  lemma {:induction false} ScanOperand(t: string, q: string, tokens: seq<string>, atStart: bool)
    requires |t| > 0 && IsPlainOperand(t)
    requires q == [] || !IsOperandChar(q[0])
    ensures ScanRest(t + q, tokens, atStart) == ScanRest(q, tokens + [t], false)
  {
    var w := t + q;
    PlainOperandChars(t);
    assert w[0] == t[0] && w[1..] == t[1..] + q;
    RunLengthOf(t[1..], q);
    assert w[..|t|] == t && w[|t|..] == q;
    OperandCharNotSpace(w[0]);
    ScanRunTo(w, tokens, atStart, q, t);
  }

  /** A one-character symbol that is no sign becomes a token of its own. */
  lemma {:induction false} ScanSymbol(t: string, x: string, tokens: seq<string>)
    requires |t| == 1 && !IsSpace(t[0]) && !IsOperandChar(t[0])
    requires t[0] == '-' ==> !SignFollows(tokens)
    ensures ScanRest(t + x, tokens, false) == ScanRest(x, tokens + [t], false)
  {
    assert (t + x)[0] == t[0] && (t + x)[1..] == x;
    assert [t[0]] == t;
  }

  lemma {:induction false} ScanSpace(x: string, tokens: seq<string>)
    ensures ScanRest(" " + x, tokens, false) == ScanRest(x, tokens, false)
  {
    assert (" " + x)[0] == ' ' && (" " + x)[1..] == x;
  }

  lemma {:induction false} OperatorSymbol(op: string)
    requires IsOperator(op)
    ensures !IsSpace(op[0]) && !IsOperandChar(op[0])
  {
  }
}
