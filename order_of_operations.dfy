/** The order-of-operations problem generator: the `allowed_operators` setter, the
    random expression generator, and the retry loop that keeps an expression only when
    it converts and evaluates to an integer. The generator's random draws come from an
    explicit oracle, a sequence of natural numbers read from the front. */
module OrderOfOperations {
  import opened Results
  import opened Text
  import opened Shunting
  import opened Evaluation
  import opened Pipeline
  import opened Formatter
  import opened ExpressionEngine
  import opened Randomness
  import opened FloatSyntax
  import opened ExprTree
  import opened Precedence

  /** `_OPERATORS`. */
  const Operators: seq<string> := ["+", "-", "*", "/", "^"]

  /** `str(_OPERATORS)`, as it appears in the setter's message. */
  const OperatorsRepr: string := "['+', '-', '*', '/', '^']"

  // ---------------------------------------------------------------------------------
  // The `allowed_operators` setter

  /** What the setter is given: a string, a list of strings, or anything else. */
  datatype OperatorsArg = TextArg(text: string) | ListArg(items: seq<string>) | OtherArg

  datatype SetterError = TypeError(message: string) | ValueError(message: string)

  /** `s.replace(' ', '')`. */
  function RemoveBlanks(s: string): (r: string)
    ensures forall k :: 0 <= k < |r| ==> r[k] != ' '
    decreases |s|
  {
    if s == [] then [] else (if s[0] == ' ' then [] else [s[0]]) + RemoveBlanks(s[1..])
  }

  /** `s.split(',')`: the pieces between commas, empty ones included. */
  function SplitCommas(s: string): (r: seq<string>)
    ensures |r| >= 1
    decreases |s|
  {
    if s == [] then [""]
    else if s[0] == ',' then [""] + SplitCommas(s[1..])
    else
      var t := SplitCommas(s[1..]);
      [[s[0]] + t[0]] + t[1..]
  }

  /** `list(s)`: every character as a string of its own. */
  function Characters(s: string): (r: seq<string>)
    ensures |r| == |s|
    ensures forall k :: 0 <= k < |s| ==> r[k] == [s[k]]
  {
    seq(|s|, k requires 0 <= k < |s| => [s[k]])
  }

  /** `[op for sub_str in pieces for op in sub_str if op]`. */
  function PieceCharacters(pieces: seq<string>): seq<string>
    decreases |pieces|
  {
    if pieces == [] then [] else Characters(pieces[0]) + PieceCharacters(pieces[1..])
  }

  /** `s` without its commas. */
  function NoCommas(s: string): (r: string)
    decreases |s|
  {
    if s == [] then [] else (if s[0] == ',' then [] else [s[0]]) + NoCommas(s[1..])
  }

  /** `s.strip()`: whitespace removed at both ends. */
  function Strip(s: string): (r: string)
    ensures r == [] || (!IsSpace(r[0]) && !IsSpace(r[|r| - 1]))
    decreases |s|
  {
    if s == [] then []
    else if IsSpace(s[0]) then Strip(s[1..])
    else if IsSpace(s[|s| - 1]) then Strip(s[..|s| - 1])
    else s
  }

  /** `[str(op).strip() for op in items if str(op).strip()]`. */
  function StrippedItems(items: seq<string>): seq<string>
    decreases |items|
  {
    if items == [] then []
    else (if Strip(items[0]) == "" then [] else [Strip(items[0])]) + StrippedItems(items[1..])
  }

  /** The operator list the setter reads from its argument, or its `TypeError`. */
  function ParseOperators(arg: OperatorsArg): Result<seq<string>, SetterError> {
    match arg
    case TextArg(text) =>
      var normalized := RemoveBlanks(text);
      if ',' in normalized then Ok(PieceCharacters(SplitCommas(normalized)))
      else Ok(Characters(normalized))
    case ListArg(items) => Ok(StrippedItems(items))
    case OtherArg => Err(TypeError("Allowed operators must be a list or a comma/space-separated string."))
  }

  /** `[op for op in ops if op not in valid_ops]`. */
  function InvalidOperators(ops: seq<string>): (r: seq<string>)
    ensures forall k :: 0 <= k < |r| ==> r[k] !in Operators
    decreases |ops|
  {
    if ops == [] then []
    else (if ops[0] in Operators then [] else [ops[0]]) + InvalidOperators(ops[1..])
  }

  /** `", ".join(ts)`. */
  function JoinComma(ts: seq<string>): string
    decreases |ts|
  {
    if ts == [] then "" else if |ts| == 1 then ts[0] else ts[0] + ", " + JoinComma(ts[1..])
  }

  const EmptyOperatorsMessage: string := "The list of allowed operators cannot be empty."

  /** The `ValueError` message naming the invalid operators. */
  function InvalidMessage(invalid: seq<string>): string {
    "Invalid operator(s) found: " + JoinComma(invalid) + ". Allowed operators are: " + OperatorsRepr
  }

  /** The parsed list after the setter's two checks: not empty, and every element one of
      `_OPERATORS`. */
  function CheckedOperators(arg: OperatorsArg): Result<seq<string>, SetterError> {
    match ParseOperators(arg)
    case Err(e) => Err(e)
    case Ok(ops) =>
      if ops == [] then Err(ValueError(EmptyOperatorsMessage))
      else if !(forall k :: 0 <= k < |ops| ==> ops[k] in Operators) then
        Err(ValueError(InvalidMessage(InvalidOperators(ops))))
      else Ok(ops)
  }

  // ---------------------------------------------------------------------------------
  // What the parse reads

  lemma {:induction false} SplitCommasCharacters(s: string)
    ensures PieceCharacters(SplitCommas(s)) == Characters(NoCommas(s))
    decreases |s|
  {
    if s != [] {
      SplitCommasCharacters(s[1..]);
      var t := SplitCommas(s[1..]);
      if s[0] == ',' {
        assert PieceCharacters(SplitCommas(s)) == Characters("") + PieceCharacters(t);
      } else {
        assert SplitCommas(s) == [[s[0]] + t[0]] + t[1..];
        assert PieceCharacters(t) == Characters(t[0]) + PieceCharacters(t[1..]);
        assert Characters([s[0]] + t[0]) == [[s[0]]] + Characters(t[0]);
        assert PieceCharacters(SplitCommas(s)) == Characters([s[0]] + t[0]) + PieceCharacters(t[1..]);
        assert NoCommas(s) == [s[0]] + NoCommas(s[1..]);
        assert Characters(NoCommas(s)) == [[s[0]]] + Characters(NoCommas(s[1..]));
      }
    }
  }

  lemma {:induction false} NoCommasOfCommaFree(s: string)
    requires ',' !in s
    ensures NoCommas(s) == s
    decreases |s|
  {
    if s != [] {
      NoCommasOfCommaFree(s[1..]);
    }
  }

  /** With or without commas, a string argument gives one operator per character that
      is neither a space nor a comma, in order. */
  lemma TextOperators(text: string)
    ensures ParseOperators(TextArg(text)) == Ok(Characters(NoCommas(RemoveBlanks(text))))
  {
    var normalized := RemoveBlanks(text);
    if ',' in normalized {
      SplitCommasCharacters(normalized);
    } else {
      NoCommasOfCommaFree(normalized);
    }
  }

  lemma {:induction false} InvalidOperatorsEmpty(ops: seq<string>)
    ensures InvalidOperators(ops) == [] <==> forall k :: 0 <= k < |ops| ==> ops[k] in Operators
    decreases |ops|
  {
    if ops != [] {
      InvalidOperatorsEmpty(ops[1..]);
      assert forall k :: 1 <= k < |ops| ==> ops[k] == ops[1..][k - 1];
    }
  }

  /** The setter accepts exactly a non-empty list of known operators; a refusal that is
      not a `TypeError` names the invalid elements, and there are some. */
  lemma CheckedOperatorsMeaning(arg: OperatorsArg)
    ensures CheckedOperators(arg).Ok? <==>
      && ParseOperators(arg).Ok?
      && |ParseOperators(arg).value| > 0
      && InvalidOperators(ParseOperators(arg).value) == []
    ensures CheckedOperators(arg).Ok? ==> CheckedOperators(arg).value == ParseOperators(arg).value
    ensures CheckedOperators(arg).Err? && ParseOperators(arg).Ok? && ParseOperators(arg).value != [] ==>
      && InvalidOperators(ParseOperators(arg).value) != []
      && CheckedOperators(arg).error == ValueError(InvalidMessage(InvalidOperators(ParseOperators(arg).value)))
  {
    if ParseOperators(arg).Ok? {
      InvalidOperatorsEmpty(ParseOperators(arg).value);
    }
  }

  // ---------------------------------------------------------------------------------
  // Random draws

  /** A drawn value and the oracle left after it. */
  // ---------------------------------------------------------------------------------
  // The generated expressions

  /** What `generate_random_expression` builds: a power `b ^ p` or a number at the
      deepest level, and above it one or two operators between generated parts. */
  datatype Piece =
    | PowerLeaf(base: int, power: int)
    | NumberLeaf(n: int)
    | Pair(left: Piece, op: string, right: Piece)
    | Triple(left: Piece, op1: string, middle: Piece, op2: string, right: Piece)

  /** The settings the generator reads. */
  datatype GenSettings = GenSettings(nested: int, frequency: real, negation: string, ops: seq<string>)

  /** The text of a piece without outer brackets. */
  function Body(p: Piece): string
    decreases p, 1
  {
    match p
    case PowerLeaf(b, q) => IntToString(b) + " ^ " + IntToString(q)
    case NumberLeaf(n) => IntToString(n)
    case Pair(l, op, r) => Sub(l) + " " + op + " " + Sub(r)
    case Triple(l, op1, m, op2, r) => Sub(l) + " " + op1 + " " + Sub(m) + " " + op2 + " " + Sub(r)
  }

  /** The text of a piece below the top: an operation is bracketed, a leaf is not. */
  function Sub(p: Piece): string
    decreases p, 2
  {
    if p.Pair? || p.Triple? then "(" + Body(p) + ")" else Body(p)
  }

  /** What the call at `depth` returns for piece `p`: the top-level call leaves out the
      outer brackets. */
  function TextAt(p: Piece, depth: nat): string {
    if depth == 0 then Body(p) else Sub(p)
  }

  /** The deepest level: with `^` allowed and a draw below `frequency_exponential`,
      `b ^ p` (2 <= b <= 5, 2 <= p <= 3); otherwise a number from 1 to 10, negated when
      negation is "Yes". */
  function LeafPiece(s: GenSettings, oracle: seq<nat>): (r: Option<Draw<Piece>>)
    ensures r.Some? ==> |r.value.rest| < |oracle|
  {
    if "^" in s.ops then
      var x :- Random(oracle);
      if x.value < s.frequency then
        var b :- RandInt(2, 5, x.rest);
        var q :- RandInt(2, 3, b.rest);
        Some(Draw(PowerLeaf(b.value, q.value), q.rest))
      else NumberPiece(s, x.rest)
    else NumberPiece(s, oracle)
  }

  function NumberPiece(s: GenSettings, oracle: seq<nat>): (r: Option<Draw<Piece>>)
    ensures r.Some? ==> |r.value.rest| < |oracle|
  {
    var n :- RandInt(1, 10, oracle);
    Some(Draw(NumberLeaf(if s.negation == "Yes" then n.value * -1 else n.value), n.rest))
  }

  /** The redraw loop: two operators are drawn until they are not both `^`. */
  function DrawPair(ops: seq<string>, oracle: seq<nat>): (r: Option<Draw<(string, string)>>)
    requires |ops| > 0
    ensures r.Some? ==> r.value.value.0 in ops && r.value.value.1 in ops
    ensures r.Some? ==> !(r.value.value.0 == "^" && r.value.value.1 == "^")
    ensures r.Some? ==> |r.value.rest| < |oracle|
    decreases |oracle|
  {
    var first :- Choice(ops, oracle);
    var second :- Choice(ops, first.rest);
    if first.value == "^" && second.value == "^" then DrawPair(ops, second.rest)
    else Some(Draw((first.value, second.value), second.rest))
  }

  /** The right operand of `^`: `str(random.randint(2, 3))`. */
  function ExponentPiece(oracle: seq<nat>): (r: Option<Draw<Piece>>)
    ensures r.Some? ==> |r.value.rest| < |oracle|
  {
    var q :- RandInt(2, 3, oracle);
    Some(Draw(NumberLeaf(q.value), q.rest))
  }

  /** A generated part unless `op` is `^`, whose right operand is an exponent. */
  function OperandAfter(s: GenSettings, depth: nat, op: string, oracle: seq<nat>): (r: Option<Draw<Piece>>)
    requires |s.ops| > 0 && depth < s.nested
    ensures r.Some? ==> |r.value.rest| < |oracle|
    decreases s.nested - depth, 0
  {
    if op == "^" then ExponentPiece(oracle) else GenPiece(s, depth + 1, oracle)
  }

  /** `generate_random_expression(depth)` as the piece it builds. */
  function GenPiece(s: GenSettings, depth: nat, oracle: seq<nat>): (r: Option<Draw<Piece>>)
    requires |s.ops| > 0
    ensures r.Some? ==> |r.value.rest| < |oracle|
    decreases s.nested - depth, 3
  {
    if depth >= s.nested then LeafPiece(s, oracle)
    else
      var split :- RandInt(1, 1000, oracle);
      if split.value % 2 == 0 then PairPiece(s, depth, split.rest) else TriplePiece(s, depth, split.rest)
  }

  // ---------------------------------------------------------------------------------
  // What the generator builds

  /** The exponent of a `^`: the bare literal 2 or 3. */
  predicate IsExponent(p: Piece) {
    p.NumberLeaf? && 2 <= p.n <= 3
  }

  /** The part after an operator: an exponent after `^`, a generated part otherwise. */
  predicate OperandFits(s: GenSettings, op: string, p: Piece)
    decreases p, 1
  {
    if op == "^" then IsExponent(p) else Formed(s, p)
  }

  /** The shapes the generator produces: powers `b ^ p` with 2 <= b <= 5 and
      2 <= p <= 3 only when `^` is allowed and its frequency is positive; numbers 1..10, negated exactly when negation
      is "Yes"; allowed operators; a literal 2 or 3 after every `^`; never `^` twice in
      one three-part expression. */
  predicate Formed(s: GenSettings, p: Piece)
    decreases p, 0
  {
    match p
    case PowerLeaf(b, q) => "^" in s.ops && s.frequency > 0.0 && 2 <= b <= 5 && 2 <= q <= 3
    case NumberLeaf(n) => if s.negation == "Yes" then -10 <= n <= -1 else 1 <= n <= 10
    case Pair(l, op, r) => op in s.ops && Formed(s, l) && OperandFits(s, op, r)
    case Triple(l, op1, m, op2, r) =>
      && op1 in s.ops && op2 in s.ops && !(op1 == "^" && op2 == "^")
      && Formed(s, l) && OperandFits(s, op1, m) && OperandFits(s, op2, r)
  }

  /** How deeply operations nest in a piece. */
  function Height(p: Piece): nat {
    match p
    case PowerLeaf(_, _) => 0
    case NumberLeaf(_) => 0
    case Pair(l, _, r) => 1 + Max(Height(l), Height(r))
    case Triple(l, _, m, _, r) => 1 + Max(Height(l), Max(Height(m), Height(r)))
  }

  function Max(a: nat, b: nat): nat { if a < b then b else a }

  /** At the deepest level the generator returns a power (only when `^` is allowed and
      its frequency is positive) or a
      number from 1 to 10, negated exactly when negation is "Yes". */
  lemma LeafShapes(s: GenSettings, depth: nat, oracle: seq<nat>)
    requires |s.ops| > 0 && depth >= s.nested
    requires GenPiece(s, depth, oracle).Some?
    ensures var p := GenPiece(s, depth, oracle).value.value;
      || (p.PowerLeaf? && "^" in s.ops && s.frequency > 0.0 && 2 <= p.base <= 5 && 2 <= p.power <= 3)
      || (p.NumberLeaf? && (if s.negation == "Yes" then -10 <= p.n <= -1 else 1 <= p.n <= 10))
  {
  }

  lemma {:induction false} OperandAfterFormed(s: GenSettings, depth: nat, op: string, oracle: seq<nat>)
    requires |s.ops| > 0 && depth < s.nested
    requires OperandAfter(s, depth, op, oracle).Some?
    ensures var p := OperandAfter(s, depth, op, oracle).value.value;
      OperandFits(s, op, p) && Height(p) <= s.nested - depth - 1
    decreases s.nested - depth, 0
  {
    if op != "^" {
      GenPieceFormed(s, depth + 1, oracle);
    }
  }

  /** Every generated piece has the generator's shapes, and operations nest at most as
      many levels as remain below `number_of_nested`. */
  lemma {:induction false} GenPieceFormed(s: GenSettings, depth: nat, oracle: seq<nat>)
    requires |s.ops| > 0
    requires GenPiece(s, depth, oracle).Some?
    ensures var p := GenPiece(s, depth, oracle).value.value;
      Formed(s, p) && Height(p) <= if depth >= s.nested then 0 else s.nested - depth
    decreases s.nested - depth, 3
  {
    if depth < s.nested {
      var split := RandInt(1, 1000, oracle).value;
      if split.value % 2 == 0 {
        PairFormed(s, depth, split.rest);
      } else {
        TripleFormed(s, depth, split.rest);
      }
    }
  }

  /** The two-part branch of `GenPiece`, after the split draw. */
  function PairPiece(s: GenSettings, depth: nat, oracle: seq<nat>): (r: Option<Draw<Piece>>)
    requires |s.ops| > 0 && depth < s.nested
    ensures r.Some? ==> |r.value.rest| < |oracle| && r.value.value.Pair?
    decreases s.nested - depth, 2
  {
    var left :- GenPiece(s, depth + 1, oracle);
    var op :- Choice(s.ops, left.rest);
    var right :- OperandAfter(s, depth, op.value, op.rest);
    Some(Draw(Pair(left.value, op.value, right.value), right.rest))
  }

  /** The three-part branch of `GenPiece`, after the split draw: the operators first. */
  function TriplePiece(s: GenSettings, depth: nat, oracle: seq<nat>): (r: Option<Draw<Piece>>)
    requires |s.ops| > 0 && depth < s.nested
    ensures r.Some? ==> |r.value.rest| < |oracle| && r.value.value.Triple?
    decreases s.nested - depth, 2
  {
    var pair :- DrawPair(s.ops, oracle);
    TripleParts(s, depth, pair.value.0, pair.value.1, pair.rest)
  }

  /** The three parts around two drawn operators. */
  function TripleParts(s: GenSettings, depth: nat, op1: string, op2: string, oracle: seq<nat>): (r: Option<Draw<Piece>>)
    requires |s.ops| > 0 && depth < s.nested
    ensures r.Some? ==> |r.value.rest| < |oracle| && r.value.value.Triple?
    decreases s.nested - depth, 1
  {
    var left :- GenPiece(s, depth + 1, oracle);
    var middle :- OperandAfter(s, depth, op1, left.rest);
    var right :- OperandAfter(s, depth, op2, middle.rest);
    Some(Draw(Triple(left.value, op1, middle.value, op2, right.value), right.rest))
  }

  lemma {:induction false} PairFormed(s: GenSettings, depth: nat, oracle: seq<nat>)
    requires |s.ops| > 0 && depth < s.nested
    requires PairPiece(s, depth, oracle).Some?
    ensures var p := PairPiece(s, depth, oracle).value.value;
      Formed(s, p) && Height(p) <= s.nested - depth
    decreases s.nested - depth, 2
  {
    var left := GenPiece(s, depth + 1, oracle).value;
    GenPieceFormed(s, depth + 1, oracle);
    var op := Choice(s.ops, left.rest).value;
    OperandAfterFormed(s, depth, op.value, op.rest);
  }

  lemma {:induction false} TripleFormed(s: GenSettings, depth: nat, oracle: seq<nat>)
    requires |s.ops| > 0 && depth < s.nested
    requires TriplePiece(s, depth, oracle).Some?
    ensures var p := TriplePiece(s, depth, oracle).value.value;
      Formed(s, p) && Height(p) <= s.nested - depth
    decreases s.nested - depth, 2
  {
    var pair := DrawPair(s.ops, oracle).value;
    TriplePartsFormed(s, depth, pair.value.0, pair.value.1, pair.rest);
  }

  lemma {:induction false} TriplePartsFormed(s: GenSettings, depth: nat, op1: string, op2: string, oracle: seq<nat>)
    requires |s.ops| > 0 && depth < s.nested
    requires op1 in s.ops && op2 in s.ops && !(op1 == "^" && op2 == "^")
    requires TripleParts(s, depth, op1, op2, oracle).Some?
    ensures var p := TripleParts(s, depth, op1, op2, oracle).value.value;
      Formed(s, p) && Height(p) <= s.nested - depth
    decreases s.nested - depth, 1
  {
    var left := GenPiece(s, depth + 1, oracle).value;
    GenPieceFormed(s, depth + 1, oracle);
    var middle := OperandAfter(s, depth, op1, left.rest).value;
    OperandAfterFormed(s, depth, op1, left.rest);
    var right := OperandAfter(s, depth, op2, middle.rest).value;
    OperandAfterFormed(s, depth, op2, middle.rest);
    assert TripleParts(s, depth, op1, op2, oracle).value.value
      == Triple(left.value, op1, middle.value, op2, right.value);
  }

  /** With `^` the only allowed operator the redraw loop never ends: every oracle runs
      out inside it. */
  lemma {:induction false} OnlyPowerNeverDraws(oracle: seq<nat>)
    ensures DrawPair(["^"], oracle) == None
    decreases |oracle|
  {
    if |oracle| >= 2 {
      OnlyPowerNeverDraws(oracle[2..]);
      assert oracle[1..][1..] == oracle[2..];
    }
  }

  /** With any other operator allowed, the loop can end at once. */
  lemma OtherOperatorDraws(ops: seq<string>, k: nat, rest: seq<nat>)
    requires k < |ops| && ops[k] != "^"
    ensures DrawPair(ops, [k, k] + rest) == Some(Draw((ops[k], ops[k]), rest))
  {
    var o := [k, k] + rest;
    assert k % |ops| == k;
    assert o[0] == k && o[1..][0] == k && o[1..][1..] == rest;
  }

  // ---------------------------------------------------------------------------------
  // Brackets in the generated text

  /** Open minus closed brackets in `s`. */
  function Nest(s: string): int
    decreases |s|
  {
    if s == [] then 0
    else Nest(s[..|s| - 1]) + (if s[|s| - 1] == '(' then 1 else if s[|s| - 1] == ')' then -1 else 0)
  }

  /** Balanced brackets nested at most `k` deep. */
  predicate BracketsWithin(s: string, k: int) {
    Nest(s) == 0 && forall j :: 0 <= j <= |s| ==> 0 <= Nest(s[..j]) <= k
  }

  predicate NoBrackets(s: string) {
    forall j :: 0 <= j < |s| ==> s[j] != '(' && s[j] != ')'
  }

  lemma {:induction false} NestAppend(a: string, b: string)
    ensures Nest(a + b) == Nest(a) + Nest(b)
    decreases |b|
  {
    if b == [] {
      assert a + b == a;
    } else {
      var b' := b[..|b| - 1];
      NestAppend(a, b');
      assert (a + b)[..|a + b| - 1] == a + b';
      assert (a + b)[|a + b| - 1] == b[|b| - 1];
    }
  }

  lemma {:induction false} NoBracketsNest(s: string)
    requires NoBrackets(s)
    ensures BracketsWithin(s, 0)
    decreases |s|
  {
    if s != [] {
      var s' := s[..|s| - 1];
      NoBracketsNest(s');
      forall j | 0 <= j <= |s|
        ensures Nest(s[..j]) == 0
      {
        if j < |s| {
          assert s[..j] == s'[..j];
        } else {
          assert s[..j] == s;
        }
      }
    }
  }

  lemma WithinWeaken(s: string, k: int, k': int)
    requires BracketsWithin(s, k) && k <= k'
    ensures BracketsWithin(s, k')
  {
  }

  lemma WithinConcat(a: string, b: string, k: int)
    requires BracketsWithin(a, k) && BracketsWithin(b, k)
    ensures BracketsWithin(a + b, k)
  {
    NestAppend(a, b);
    forall j | 0 <= j <= |a + b|
      ensures 0 <= Nest((a + b)[..j]) <= k
    {
      if j <= |a| {
        assert (a + b)[..j] == a[..j];
      } else {
        assert (a + b)[..j] == a + b[..j - |a|];
        NestAppend(a, b[..j - |a|]);
      }
    }
  }

  lemma WithinWrap(a: string, k: int)
    requires BracketsWithin(a, k)
    ensures BracketsWithin("(" + a + ")", k + 1)
  {
    var w := "(" + a + ")";
    assert Nest("(") == 1 by { assert "("[..0] == []; }
    assert Nest(")") == -1 by { assert ")"[..0] == []; }
    NestAppend("(", a);
    NestAppend("(" + a, ")");
    forall j | 0 <= j <= |w|
      ensures 0 <= Nest(w[..j]) <= k + 1
    {
      if j == 0 {
        assert w[..j] == [];
        assert 0 <= Nest(a[..0]) <= k;
      } else if j <= |a| + 1 {
        assert w[..j] == "(" + a[..j - 1];
        NestAppend("(", a[..j - 1]);
        assert 0 <= Nest(a[..j - 1]) <= k;
      } else {
        assert w[..j] == w;
        assert a[..|a|] == a;
      }
    }
  }

  /** Two bracket-balanced operands joined by a spaced operator. */
  lemma WithinJoin(a: string, op: string, b: string, k: int)
    requires BracketsWithin(a, k) && BracketsWithin(b, k) && op in Operators && k >= 0
    ensures BracketsWithin(a + " " + op + " " + b, k)
  {
    NoBracketsNest(" " + op + " ");
    WithinWeaken(" " + op + " ", 0, k);
    WithinConcat(a, " " + op + " ", k);
    assert a + " " + op + " " == a + (" " + op + " ");
    WithinConcat(a + " " + op + " ", b, k);
  }

  lemma IntTextPlain(n: int)
    ensures NoBrackets(IntToString(n))
  {
  }

  /** Every operator of a piece is one of `_OPERATORS`. */
  predicate KnownOps(p: Piece) {
    match p
    case PowerLeaf(_, _) => true
    case NumberLeaf(_) => true
    case Pair(l, op, r) => op in Operators && KnownOps(l) && KnownOps(r)
    case Triple(l, op1, m, op2, r) =>
      op1 in Operators && op2 in Operators && KnownOps(l) && KnownOps(m) && KnownOps(r)
  }

  lemma {:induction false} FormedKnownOps(s: GenSettings, p: Piece)
    requires Formed(s, p) && forall k :: 0 <= k < |s.ops| ==> s.ops[k] in Operators
    ensures KnownOps(p)
  {
    match p
    case PowerLeaf(_, _) =>
    case NumberLeaf(_) =>
    case Pair(l, op, r) =>
      FormedKnownOps(s, l);
      if op != "^" { FormedKnownOps(s, r); }
    case Triple(l, op1, m, op2, r) =>
      FormedKnownOps(s, l);
      if op1 != "^" { FormedKnownOps(s, m); }
      if op2 != "^" { FormedKnownOps(s, r); }
  }

  /** The text of a piece has balanced brackets, one level per nested operation; the
      bracketed form one level more than the bare one. */
  lemma {:induction false} PieceBrackets(p: Piece)
    requires KnownOps(p)
    ensures BracketsWithin(Body(p), if Height(p) == 0 then 0 else Height(p) - 1)
    ensures BracketsWithin(Sub(p), Height(p))
    decreases p
  {
    match p
    case PowerLeaf(b, q) =>
      IntTextPlain(b);
      IntTextPlain(q);
      NoBracketsNest(Body(p));
    case NumberLeaf(n) =>
      IntTextPlain(n);
      NoBracketsNest(Body(p));
    case Pair(l, op, r) =>
      PieceBrackets(l);
      PieceBrackets(r);
      PairBrackets(l, op, r);
    case Triple(l, op1, m, op2, r) =>
      PieceBrackets(l);
      PieceBrackets(m);
      PieceBrackets(r);
      TripleBrackets(l, op1, m, op2, r);
  }

  lemma PairBrackets(l: Piece, op: string, r: Piece)
    requires op in Operators
    requires BracketsWithin(Sub(l), Height(l)) && BracketsWithin(Sub(r), Height(r))
    ensures BracketsWithin(Body(Pair(l, op, r)), Height(Pair(l, op, r)) - 1)
    ensures BracketsWithin(Sub(Pair(l, op, r)), Height(Pair(l, op, r)))
  {
    var h := Max(Height(l), Height(r));
    WithinWeaken(Sub(l), Height(l), h);
    WithinWeaken(Sub(r), Height(r), h);
    WithinJoin(Sub(l), op, Sub(r), h);
    WithinWrap(Body(Pair(l, op, r)), h);
  }

  lemma TripleBrackets(l: Piece, op1: string, m: Piece, op2: string, r: Piece)
    requires op1 in Operators && op2 in Operators
    requires BracketsWithin(Sub(l), Height(l)) && BracketsWithin(Sub(m), Height(m))
    requires BracketsWithin(Sub(r), Height(r))
    ensures BracketsWithin(Body(Triple(l, op1, m, op2, r)), Height(Triple(l, op1, m, op2, r)) - 1)
    ensures BracketsWithin(Sub(Triple(l, op1, m, op2, r)), Height(Triple(l, op1, m, op2, r)))
  {
    var h := Max(Height(l), Max(Height(m), Height(r)));
    WithinWeaken(Sub(l), Height(l), h);
    WithinWeaken(Sub(m), Height(m), h);
    WithinWeaken(Sub(r), Height(r), h);
    WithinJoin(Sub(l), op1, Sub(m), h);
    WithinJoin(Sub(l) + " " + op1 + " " + Sub(m), op2, Sub(r), h);
    WithinWrap(Body(Triple(l, op1, m, op2, r)), h);
  }

  /** A generated expression has balanced brackets nested at most
      `number_of_nested - 1` deep: the top level is left bare and every operation below
      it is bracketed once. */
  lemma GeneratedBrackets(s: GenSettings, oracle: seq<nat>)
    requires |s.ops| > 0 && s.nested >= 1
    requires forall k :: 0 <= k < |s.ops| ==> s.ops[k] in Operators
    requires GenPiece(s, 0, oracle).Some?
    ensures BracketsWithin(Body(GenPiece(s, 0, oracle).value.value), s.nested - 1)
  {
    var p := GenPiece(s, 0, oracle).value.value;
    GenPieceFormed(s, 0, oracle);
    FormedKnownOps(s, p);
    PieceBrackets(p);
    WithinWeaken(Body(p), if Height(p) == 0 then 0 else Height(p) - 1, s.nested - 1);
  }

  // ---------------------------------------------------------------------------------
  // How the generated text reads

  /** The reading of a piece's text without outer brackets. The piece's own nesting is
      not the reading: a bare power `b ^ q` next to another operator is two operands,
      so `2 ^ 3 ^ 2` reads as `2 ^ (3 ^ 2)` and `4 * 2 ^ 3` as `4 * (2 ^ 3)`. */
  function BodyShape(p: Piece): Shape
    decreases p, 1
  {
    match p
    case PowerLeaf(b, q) => Op("^", Atom(IntToString(b)), Atom(IntToString(q)))
    case NumberLeaf(n) => Atom(IntToString(n))
    case Pair(l, op, r) => Attach(SubShape(l), op, SubShape(r))
    case Triple(l, op1, m, op2, r) => Attach(Attach(SubShape(l), op1, SubShape(m)), op2, SubShape(r))
  }

  /** The reading of a piece's text below the top: an operation is a bracketed group. */
  function SubShape(p: Piece): Shape
    decreases p, 2
  {
    if p.Pair? || p.Triple? then Group(BodyShape(p)) else BodyShape(p)
  }

  /** The reading of `x op y` where `y` is an operand, a group, or a bare power whose
      two operands are read one after the other. */
  function Attach(x: Shape, op: string, y: Shape): Shape {
    if y.Op? then Insert(Insert(x, op, y.left), y.op, y.right) else Insert(x, op, y)
  }

  /** The tree the text of a piece stands for. */
  function PieceTree(p: Piece): Expr {
    Tree(BodyShape(p))
  }

  /** Operands are integer literals. */
  predicate IntAtoms(x: Shape) {
    match x
    case Atom(t) => IsIntText(t)
    case Group(y) => IntAtoms(y)
    case Op(_, l, r) => IntAtoms(l) && IntAtoms(r)
  }

  /** What a part after an operator reads as: one operand, a group, or a bare power. */
  predicate Operand(y: Shape) {
    y.Op? ==> !y.left.Op? && !y.right.Op?
  }

  lemma {:induction false} InsertIntAtoms(x: Shape, op: string, a: Shape)
    requires IntAtoms(x) && IntAtoms(a)
    ensures IntAtoms(Insert(x, op, a))
    decreases x
  {
    if x.Op? && !LeftFits(LeftToRight, Binding(x), op) {
      InsertIntAtoms(x.right, op, a);
    }
  }

  lemma AttachReads(x: Shape, op: string, y: Shape)
    requires Reads(LeftToRight, x) && Reads(LeftToRight, y) && Operand(y) && IsOperator(op)
    requires IntAtoms(x) && IntAtoms(y)
    ensures Reads(LeftToRight, Attach(x, op, y)) && IntAtoms(Attach(x, op, y))
    ensures Infix(Attach(x, op, y)) == Infix(x) + " " + op + " " + Infix(y)
  {
    if y.Op? {
      var a, o, b := y.left, y.op, y.right;
      InsertReads(x, op, a);
      InsertIntAtoms(x, op, a);
      InsertReads(Insert(x, op, a), o, b);
      InsertIntAtoms(Insert(x, op, a), o, b);
      InsertText(Infix(x), op, Infix(a), o, Infix(b));
    } else {
      InsertReads(x, op, y);
      InsertIntAtoms(x, op, y);
    }
  }

  lemma KnownIsOperator(op: string)
    requires op in Operators
    ensures IsOperator(op)
  {
  }

  /** A leaf reads as itself, at the top and below it. */
  lemma LeafReads(p: Piece)
    requires p.PowerLeaf? || p.NumberLeaf?
    ensures Reads(LeftToRight, BodyShape(p)) && IntAtoms(BodyShape(p)) && Infix(BodyShape(p)) == Body(p)
    ensures Reads(LeftToRight, SubShape(p)) && IntAtoms(SubShape(p)) && Infix(SubShape(p)) == Sub(p)
    ensures Operand(SubShape(p))
  {
    if p.PowerLeaf? {
      var tb, tq := IntToString(p.base), IntToString(p.power);
      IntOperand(p.base);
      IntOperand(p.power);
      IntToStringLiteral(p.base);
      IntToStringLiteral(p.power);
      PowerShapeReads(tb, tq);
    } else {
      IntOperand(p.n);
      IntToStringLiteral(p.n);
    }
  }

  /** `b ^ q` for two integer literals reads as one power. */
  lemma PowerShapeReads(tb: string, tq: string)
    requires OperandToken(tb) && OperandToken(tq) && IsIntText(tb) && IsIntText(tq)
    ensures var x := Op("^", Atom(tb), Atom(tq));
      Reads(LeftToRight, x) && IntAtoms(x) && Infix(x) == tb + " ^ " + tq && Operand(x)
  {
    assert IsOperator("^") && Prec("^") == 3;
  }

  /** Below the top, a compound piece is read as a bracketed group. */
  lemma GroupReads(p: Piece)
    requires p.Pair? || p.Triple?
    requires Reads(LeftToRight, BodyShape(p)) && IntAtoms(BodyShape(p)) && Infix(BodyShape(p)) == Body(p)
    ensures Reads(LeftToRight, SubShape(p)) && IntAtoms(SubShape(p)) && Infix(SubShape(p)) == Sub(p)
    ensures Operand(SubShape(p))
  {
  }

  /** The text of a piece is the text of its reading, a standard reading of it with
      integer operands. */
  lemma {:induction false} PieceReads(p: Piece)
    requires KnownOps(p)
    ensures Reads(LeftToRight, BodyShape(p)) && IntAtoms(BodyShape(p)) && Infix(BodyShape(p)) == Body(p)
    ensures Reads(LeftToRight, SubShape(p)) && IntAtoms(SubShape(p)) && Infix(SubShape(p)) == Sub(p)
    ensures Operand(SubShape(p))
    decreases p, 1
  {
    if p.Pair? {
      PairReads(p.left, p.op, p.right);
      GroupReads(p);
    } else if p.Triple? {
      TripleReads(p.left, p.op1, p.middle, p.op2, p.right);
      GroupReads(p);
    } else {
      LeafReads(p);
    }
  }

  lemma {:induction false} PairReads(l: Piece, op: string, r: Piece)
    requires KnownOps(Pair(l, op, r))
    ensures var x := BodyShape(Pair(l, op, r));
      Reads(LeftToRight, x) && IntAtoms(x) && Infix(x) == Body(Pair(l, op, r))
    decreases Pair(l, op, r), 0
  {
    PieceReads(l);
    PieceReads(r);
    KnownIsOperator(op);
    AttachReads(SubShape(l), op, SubShape(r));
  }

  lemma {:induction false} TripleReads(l: Piece, op1: string, m: Piece, op2: string, r: Piece)
    requires KnownOps(Triple(l, op1, m, op2, r))
    ensures var x := BodyShape(Triple(l, op1, m, op2, r));
      Reads(LeftToRight, x) && IntAtoms(x) && Infix(x) == Body(Triple(l, op1, m, op2, r))
    decreases Triple(l, op1, m, op2, r), 0
  {
    PieceReads(l);
    PieceReads(m);
    PieceReads(r);
    KnownIsOperator(op1);
    KnownIsOperator(op2);
    var x1 := Attach(SubShape(l), op1, SubShape(m));
    AttachReads(SubShape(l), op1, SubShape(m));
    AttachReads(x1, op2, SubShape(r));
    assert Infix(x1) + " " + op2 + " " + Sub(r) == Body(Triple(l, op1, m, op2, r));
  }

  /** The first token of the postfix form of a reading with integer operands is an
      integer literal, and its tree evaluates literal by literal. */
  lemma {:induction false} IntAtomsTree(x: Shape)
    requires Reads(LeftToRight, x) && IntAtoms(x)
    ensures Evaluable(Tree(x))
    ensures |PostfixOf(Tree(x))| > 0 && IsIntText(PostfixOf(Tree(x))[0])
  {
    match x
    case Atom(t) =>
      IntTextIsFloatText(t);
    case Group(y) =>
      IntAtomsTree(y);
    case Op(op, l, r) =>
      IntAtomsTree(l);
      IntAtomsTree(r);
      SymbolsAreNotNumeric(op);
  }

  /** A postfix string that starts with an integer literal is no error message. */
  lemma IntFirstNotError(ts: seq<string>)
    requires |ts| > 0 && IsIntText(ts[0])
    ensures !StartsWith(Join(ts), "Error")
  {
    assert Join(ts)[0] == ts[0][0];
    assert "Error"[0] == 'E';
  }

  /** One attempt's answer for a piece with known operators: the exact value of the
      tree its text stands for, when that tree is an operation and every operation
      passes the rules; nothing otherwise. */
  lemma PieceAnswer(rules: Rules, p: Piece)
    requires KnownOps(p)
    ensures IntAnswer(rules, Body(p)) ==
      if PieceTree(p).Node? && Admissible(rules, PieceTree(p)) then Some(Exact(PieceTree(p))) else None
  {
    var x := BodyShape(p);
    var e := PieceTree(p);
    PieceReads(p);
    ReadsWritten(LeftToRight, x);
    ConvertReading(x);
    assert InfixToPostfixText(Body(p)) == Join(PostfixOf(e));
    IntAtomsTree(x);
    IntFirstNotError(PostfixOf(e));
    EvaluationsAgree(rules, e);
    EvalTreeMeaning(rules, e);
  }

  // ---------------------------------------------------------------------------------
  // The text the generator returns, and the problem search

  /** A drawn piece as the text `generate_random_expression(depth)` returns. */
  function TextOf(d: Option<Draw<Piece>>, depth: nat): (r: Option<Draw<string>>)
    ensures r.Some? <==> d.Some?
  {
    match d
    case None => None
    case Some(Draw(p, rest)) => Some(Draw(TextAt(p, depth), rest))
  }

  /** Below the top level a compound piece is bracketed. */
  lemma CompoundText(d: Option<Draw<Piece>>, depth: nat)
    requires d.Some? ==> d.value.value.Pair? || d.value.value.Triple?
    ensures TextOf(d, depth) ==
      if d.None? || depth == 0 then BodyOf(d)
      else Some(Draw("(" + BodyOf(d).value.value + ")", d.value.rest))
  {
  }

  /** A drawn piece as the text without outer brackets. */
  function BodyOf(d: Option<Draw<Piece>>): Option<Draw<string>> {
    TextOf(d, 0)
  }

  /** What one attempt of `generate_problem` finds: the value of the expression when its
      postfix form is not an error message and evaluates to an `int`. */
  function IntAnswer(rules: Rules, e: string): Option<int> {
    var postfix := InfixToPostfixText(e);
    if StartsWith(postfix, "Error") then None
    else match EvaluatePostfix(rules, postfix)
      case Ok(PyInt(v)) => Some(v)
      case _ => None
  }

  /** The problem text and the answer text for an accepted expression, or what the
      formatter does instead of returning. */
  function Posed(e: string, v: int): Outcome<(string, string)> {
    match FormatUnicode(e)
    case Returns(t) => Returns((t + " =", IntToString(v)))
    case KeyError(k) => KeyError(k)
    case Hangs => Hangs
  }

  /** `generate_problem`: expressions are drawn until one has an `int` value; `None`
      when the oracle runs out first. */
  function ProblemSearch(s: GenSettings, rules: Rules, oracle: seq<nat>): Option<Outcome<(string, string)>>
    requires |s.ops| > 0
    decreases |oracle|
  {
    var e :- TextOf(GenPiece(s, 0, oracle), 0);
    match IntAnswer(rules, e.value)
    case None => ProblemSearch(s, rules, e.rest)
    case Some(v) => Some(Posed(e.value, v))
  }

  /** An expression without an `int` value is skipped. */
  lemma SearchSkips(s: GenSettings, rules: Rules, oracle: seq<nat>, d: Draw<string>)
    requires |s.ops| > 0
    requires TextOf(GenPiece(s, 0, oracle), 0) == Some(d) && IntAnswer(rules, d.value).None?
    ensures ProblemSearch(s, rules, oracle) == ProblemSearch(s, rules, d.rest)
  {
  }

  /** The first expression with an `int` value is posed. */
  lemma SearchStops(s: GenSettings, rules: Rules, oracle: seq<nat>, d: Draw<string>)
    requires |s.ops| > 0
    requires TextOf(GenPiece(s, 0, oracle), 0) == Some(d) && IntAnswer(rules, d.value).Some?
    ensures ProblemSearch(s, rules, oracle) == Some(Posed(d.value, IntAnswer(rules, d.value).value))
  {
  }

  /** A conversion error always reads as one and is skipped. */
  lemma RefusedIsSkipped(rules: Rules, e: string)
    requires InfixToPostfix(e).Err?
    ensures StartsWith(InfixToPostfixText(e), "Error")
    ensures IntAnswer(rules, e) == None
  {
    var m := InfixToPostfixText(e);
    assert m[..5] == "Error";
  }

  /** An answer the search settles on is an `int` the rules let through: within the
      limits, not negative unless negation is allowed, and its postfix form converted. */
  lemma IntAnswerMeaning(rules: Rules, e: string)
    requires IntAnswer(rules, e).Some?
    ensures InfixToPostfix(e).Ok?
    ensures var v := IntAnswer(rules, e).value;
      rules.lower <= v <= rules.upper && (rules.negation == "No" ==> v >= 0)
  {
    if InfixToPostfix(e).Err? {
      RefusedIsSkipped(rules, e);
    }
    EvaluatePostfixChecked(rules, InfixToPostfixText(e));
  }

  /** A posed problem and its answer come from the generated piece `p`: the answer is
      the exact value of the tree its text stands for, an operation every step of which
      the rules accept, and the problem text is that tree's unicode term followed by
      " =". */
  predicate PosesPiece(s: GenSettings, rules: Rules, pa: (string, string), p: Piece) {
    && Formed(s, p) && PieceTree(p).Node? && Admissible(rules, PieceTree(p))
    && pa.1 == IntToString(Exact(PieceTree(p)))
    && Render(Term, PieceTree(p)).Returns?
    && pa.0 == StripOuter(Render(Term, PieceTree(p)).value) + " ="
  }

  /** The attempt that poses a problem. */
  lemma PosedPiece(s: GenSettings, rules: Rules, p: Piece, v: int)
    requires Formed(s, p) && KnownOps(p)
    requires IntAnswer(rules, Body(p)) == Some(v) && Posed(Body(p), v).Returns?
    ensures PosesPiece(s, rules, Posed(Body(p), v).value, p)
    ensures rules.lower <= v <= rules.upper
  {
    PieceAnswer(rules, p);
    PieceReads(p);
    FormatReading(BodyShape(p));
    IntAnswerMeaning(rules, Body(p));
  }

  /** A problem the search returns comes from a generated piece: its answer is the
      exact value of the tree the piece's text stands for, within the limits, and its
      text is that tree's unicode term followed by " =". */
  lemma {:induction false} ProblemMeaning(s: GenSettings, rules: Rules, oracle: seq<nat>)
    requires |s.ops| > 0 && forall k :: 0 <= k < |s.ops| ==> s.ops[k] in Operators
    requires ProblemSearch(s, rules, oracle).Some? && ProblemSearch(s, rules, oracle).value.Returns?
    ensures var pa := ProblemSearch(s, rules, oracle).value.value;
      && (exists p :: PosesPiece(s, rules, pa, p))
      && (exists v :: rules.lower <= v <= rules.upper && pa.1 == IntToString(v))
      && |pa.0| >= 2 && pa.0[|pa.0| - 2..] == " ="
    decreases |oracle|
  {
    var d := GenPiece(s, 0, oracle).value;
    var e := TextOf(GenPiece(s, 0, oracle), 0).value;
    match IntAnswer(rules, e.value)
    case None =>
      ProblemMeaning(s, rules, e.rest);
    case Some(v) =>
      GenPieceFormed(s, 0, oracle);
      FormedKnownOps(s, d.value);
      PosedProblem(s, rules, d.value, v);
  }

  /** The problem posed from one generated piece with an `int` answer. */
  lemma PosedProblem(s: GenSettings, rules: Rules, p: Piece, v: int)
    requires Formed(s, p) && KnownOps(p)
    requires IntAnswer(rules, Body(p)) == Some(v) && Posed(Body(p), v).Returns?
    ensures var pa := Posed(Body(p), v).value;
      && PosesPiece(s, rules, pa, p)
      && rules.lower <= v <= rules.upper && pa.1 == IntToString(v)
      && |pa.0| >= 2 && pa.0[|pa.0| - 2..] == " ="
  {
    PosedPiece(s, rules, p, v);
    var t := FormatUnicode(Body(p)).value;
    assert (t + " =")[|t + " ="| - 2..] == " =";
  }

  // ---------------------------------------------------------------------------------
  // The class

  /** `OrderOfOperations`: the settings it inherits from `Expression`, its title and
      its allowed operators. */
  class OrderOfOperations {
    const settings: Expression
    var title: string
    var allowedOperators: seq<string>

    /** The engine's settings hold, and the operator list is one the setter accepts. */
    predicate Valid()
      reads this, settings
    {
      && settings.Valid()
      && |allowedOperators| > 0
      && forall k :: 0 <= k < |allowedOperators| ==> allowedOperators[k] in Operators
    }

    /** The settings the generator reads. */
    function Gen(): (r: GenSettings)
      reads this, settings
      ensures r.ops == allowedOperators && r.nested == settings.numberOfNested
      ensures r.frequency == settings.frequencyExponential && r.negation == settings.ruleNegation
    {
      GenSettings(settings.numberOfNested, settings.frequencyExponential, settings.ruleNegation, allowedOperators)
    }

    constructor()
      ensures Valid() && fresh(settings)
      ensures title == "Order Of Operations" && allowedOperators == Operators
      ensures settings.numberOfNested == 2 && settings.frequencyExponential == 0.5
      ensures settings.ruleNegation == "No"
      ensures settings.ruleLowerLimit == -1000 && settings.ruleUpperLimit == 1000
    {
      settings := new Expression();
      title := "Order Of Operations";
      allowedOperators := Operators;
    }

    /** The `allowed_operators` setter: the parsed list when it is a non-empty list of
        known operators; otherwise the `TypeError` or `ValueError`, the object unchanged. */
    method SetAllowedOperators(arg: OperatorsArg) returns (r: Result<(), SetterError>)
      modifies this
      ensures r.Ok? <==> CheckedOperators(arg).Ok?
      ensures r.Ok? ==> allowedOperators == CheckedOperators(arg).value && title == old(title)
      ensures r.Err? ==> r.error == CheckedOperators(arg).error && unchanged(this)
      ensures old(Valid()) ==> Valid()
    {
      var parsed := ParseOperators(arg);
      if parsed.Err? {
        return Err(parsed.error);
      }
      var opList := parsed.value;
      if opList == [] {
        return Err(ValueError(EmptyOperatorsMessage));
      }
      if !(forall k :: 0 <= k < |opList| ==> opList[k] in Operators) {
        var invalidOps := InvalidOperators(opList);
        return Err(ValueError(InvalidMessage(invalidOps)));
      }
      allowedOperators := opList;
      r := Ok(());
    }

    /** The redraw loop of the three-part branch. */
    method DrawOperatorPair(operators: seq<string>, oracle: seq<nat>) returns (r: Option<Draw<(string, string)>>)
      requires |operators| > 0
      ensures r == DrawPair(operators, oracle)
    {
      var o := oracle;
      while true
        invariant DrawPair(operators, o) == DrawPair(operators, oracle)
        decreases |o|
      {
        var operator1 := Choice(operators, o);
        if operator1.None? {
          return None;
        }
        var operator2 := Choice(operators, operator1.value.rest);
        if operator2.None? {
          return None;
        }
        if operator1.value.value == "^" && operator2.value.value == "^" {
          o := operator2.value.rest;
        } else {
          return Some(Draw((operator1.value.value, operator2.value.value), operator2.value.rest));
        }
      }
    }

    /** `generate_random_expression(depth)`: the text of the piece `GenPiece` draws, bare
        at depth 0 and bracketed below. */
    method GenerateRandomExpression(depth: nat, oracle: seq<nat>) returns (r: Option<Draw<string>>)
      requires Valid()
      ensures r == TextOf(GenPiece(Gen(), depth, oracle), depth)
      decreases settings.numberOfNested - depth, 3
    {
      if depth >= settings.numberOfNested {
        r := LeafExpression(oracle);
        return;
      }
      var split := RandInt(1, 1000, oracle);
      if split.None? {
        return None;
      }
      var expression: Option<Draw<string>>;
      if split.value.value % 2 == 0 {
        expression := PairExpression(depth, split.value.rest);
      } else {
        expression := TripleExpression(depth, split.value.rest);
      }
      ghost var d := if split.value.value % 2 == 0 then PairPiece(Gen(), depth, split.value.rest)
        else TriplePiece(Gen(), depth, split.value.rest);
      CompoundText(d, depth);
      if expression.None? || depth == 0 {
        r := expression;
      } else {
        r := Some(Draw("(" + expression.value.value + ")", expression.value.rest));
      }
    }

    /** The deepest level of `generate_random_expression`. */
    method LeafExpression(oracle: seq<nat>) returns (r: Option<Draw<string>>)
      requires Valid()
      ensures r == BodyOf(LeafPiece(Gen(), oracle))
    {
      var o := oracle;
      if "^" in allowedOperators {
        var x := Random(o);
        if x.None? {
          return None;
        }
        if x.value.value < settings.frequencyExponential {
          var base := RandInt(2, 5, x.value.rest);
          if base.None? {
            return None;
          }
          var power := RandInt(2, 3, base.value.rest);
          if power.None? {
            return None;
          }
          return Some(Draw(IntToString(base.value.value) + " ^ " + IntToString(power.value.value), power.value.rest));
        }
        o := x.value.rest;
      }
      var number := RandInt(1, 10, o);
      if number.None? {
        return None;
      }
      var n := number.value.value;
      if settings.ruleNegation == "Yes" {
        n := n * -1;
      }
      r := Some(Draw(IntToString(n), number.value.rest));
    }

    /** The part after an operator: `str(random.randint(2, 3))` after `^`, a generated
        part otherwise. */
    method OperandExpression(depth: nat, op: string, oracle: seq<nat>) returns (r: Option<Draw<string>>)
      requires Valid() && depth < settings.numberOfNested
      ensures r == TextOf(OperandAfter(Gen(), depth, op, oracle), depth + 1)
      decreases settings.numberOfNested - depth, 0
    {
      if op == "^" {
        var power := RandInt(2, 3, oracle);
        if power.None? {
          return None;
        }
        r := Some(Draw(IntToString(power.value.value), power.value.rest));
      } else {
        r := GenerateRandomExpression(depth + 1, oracle);
      }
    }

    /** `f"{left_part} {operator} {right_part}"`, before the depth decides on brackets. */
    method PairExpression(depth: nat, oracle: seq<nat>) returns (r: Option<Draw<string>>)
      requires Valid() && depth < settings.numberOfNested
      ensures r == BodyOf(PairPiece(Gen(), depth, oracle))
      decreases settings.numberOfNested - depth, 2
    {
      var leftPart := GenerateRandomExpression(depth + 1, oracle);
      if leftPart.None? {
        return None;
      }
      var operator := Choice(allowedOperators, leftPart.value.rest);
      if operator.None? {
        return None;
      }
      var rightPart := OperandExpression(depth, operator.value.value, operator.value.rest);
      if rightPart.None? {
        return None;
      }
      r := Some(Draw(leftPart.value.value + " " + operator.value.value + " " + rightPart.value.value,
        rightPart.value.rest));
    }

    /** The three-part branch: the operator pair first, then the parts. */
    method TripleExpression(depth: nat, oracle: seq<nat>) returns (r: Option<Draw<string>>)
      requires Valid() && depth < settings.numberOfNested
      ensures r == BodyOf(TriplePiece(Gen(), depth, oracle))
      decreases settings.numberOfNested - depth, 2
    {
      var pair := DrawOperatorPair(allowedOperators, oracle);
      if pair.None? {
        return None;
      }
      r := TripleText(depth, pair.value.value.0, pair.value.value.1, pair.value.rest);
    }

    /** `f"{left_part} {operator1} {middle_part} {operator2} {right_part}"`. */
    method TripleText(depth: nat, operator1: string, operator2: string, oracle: seq<nat>) returns (r: Option<Draw<string>>)
      requires Valid() && depth < settings.numberOfNested
      ensures r == BodyOf(TripleParts(Gen(), depth, operator1, operator2, oracle))
      decreases settings.numberOfNested - depth, 1
    {
      var leftPart := GenerateRandomExpression(depth + 1, oracle);
      if leftPart.None? {
        return None;
      }
      var middlePart := OperandExpression(depth, operator1, leftPart.value.rest);
      if middlePart.None? {
        return None;
      }
      var rightPart := OperandExpression(depth, operator2, middlePart.value.rest);
      if rightPart.None? {
        return None;
      }
      r := Some(Draw(leftPart.value.value + " " + operator1 + " " + middlePart.value.value + " " + operator2
        + " " + rightPart.value.value, rightPart.value.rest));
    }

    /** One attempt's check: the postfix form is not an error message and evaluates to
        an `int`. */
    method IntResult(e: string) returns (a: Option<int>)
      ensures a == IntAnswer(settings.CurrentRules(), e)
      ensures a.Some? ==> InfixToPostfix(e).Ok?
      ensures a.Some? ==> settings.ruleLowerLimit <= a.value <= settings.ruleUpperLimit
      ensures a.Some? && settings.ruleNegation == "No" ==> a.value >= 0
    {
      var postfix := settings.InfixToPostfix(e);
      if StartsWith(postfix, "Error") {
        return None;
      }
      var evaluationResult := settings.EvaluatePostfix(postfix);
      if evaluationResult.Ok? && evaluationResult.value.PyInt? {
        a := Some(evaluationResult.value.value);
      } else {
        a := None;
      }
      if a.Some? {
        IntAnswerMeaning(settings.CurrentRules(), e);
      }
    }

    /** The accepted expression's problem text, followed by " =", and its answer text. */
    method Pose(e: string, v: int) returns (r: Outcome<(string, string)>)
      ensures r == Posed(e, v)
      ensures r.Returns? <==> FormatUnicode(e).Returns?
      ensures r.Returns? ==> IsIntText(r.value.1) && IntTextValue(r.value.1) == v
    {
      IntToStringLiteral(v);
      var problemText := InfixToUnicodeFormat(e);
      match problemText {
        case Returns(t) => r := Returns((t + " =", IntToString(v)));
        case KeyError(k) => r := KeyError(k);
        case Hangs => r := Hangs;
      }
    }

    /** `generate_problem`: draws expressions until one converts and evaluates to an
        `int`, then returns its formatted text followed by " =", and its value, which
        is the exact value of the tree the drawn text stands for. */
    method GenerateProblem(oracle: seq<nat>) returns (r: Option<Outcome<(string, string)>>)
      requires Valid()
      ensures r == ProblemSearch(Gen(), settings.CurrentRules(), oracle)
      ensures r.Some? && r.value.Returns? ==> exists p :: PosesPiece(Gen(), settings.CurrentRules(), r.value.value, p)
    {
      ghost var gen, rules := Gen(), settings.CurrentRules();
      var o := oracle;
      while true
        invariant gen == Gen() && rules == settings.CurrentRules()
        invariant ProblemSearch(gen, rules, o) == ProblemSearch(gen, rules, oracle)
        decreases |o|
      {
        var randomExpression := GenerateRandomExpression(0, o);
        if randomExpression.None? {
          return None;
        }
        var e := randomExpression.value.value;
        var answer := IntResult(e);
        assert randomExpression == TextOf(GenPiece(gen, 0, o), 0);
        assert answer == IntAnswer(rules, e);
        if answer.Some? {
          SearchStops(gen, rules, o, randomExpression.value);
          var posed := Pose(e, answer.value);
          if posed.Returns? {
            ProblemMeaning(gen, rules, oracle);
          }
          return Some(posed);
        }
        SearchSkips(gen, rules, o, randomExpression.value);
        o := randomExpression.value.rest;
      }
    }
  }
}
