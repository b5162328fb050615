/** The tokenizer of the expression engine (`Expression.tokenize_expression`) as a
    specification function, and what it guarantees about the tokens it produces.
    The imperative scan itself is `ExpressionEngine.Expression.TokenizeExpression`. */
module Tokenizer {
  import opened Text
  import opened Unicodes

  /** A character that may belong to an operand: alphanumeric or a superscript digit. */
  predicate IsOperandChar(c: char) {
    IsAlnumChar(c) || IsSuperscriptDigit(c)
  }

  /** The operator symbols the tokenizer knows (`operators`); the dot operator is not one. */
  const TokenizerOperators: seq<string> :=
    ["+", "-", "*", "/", "^", [MultiplicationSign], [DivisionSign]]

  /** The end of the run of operand characters that starts at `j`. */
  function OperandEnd(s: string, j: nat): (k: nat)
    requires j <= |s|
    ensures j <= k <= |s|
    ensures forall m :: j <= m < k ==> IsOperandChar(s[m])
    ensures k == |s| || !IsOperandChar(s[k])
    decreases |s| - j
  {
    if j == |s| || !IsOperandChar(s[j]) then j else OperandEnd(s, j + 1)
  }

  /** A `-` at index `i` is a sign, not an operator, when it is the very first character
      of the input or the token before it is `(` or an operator. */
  predicate MinusIsUnary(s: string, i: nat, tokens: seq<string>) {
    i == 0 || (|tokens| > 0 && (tokens[|tokens| - 1] == "(" || tokens[|tokens| - 1] in TokenizerOperators))
  }

  /** The tokens produced from index `i` on, after `tokens` have been produced already. */
  function TokenizeFrom(s: string, i: nat, tokens: seq<string>): seq<string>
    requires i <= |s|
    decreases |s| - i
  {
    if i == |s| then tokens
    else if IsSpace(s[i]) then TokenizeFrom(s, i + 1, tokens)
    else if s[i] == '-' && MinusIsUnary(s, i, tokens) then
      var j := OperandEnd(s, i + 1);
      if j == i + 1 then TokenizeFrom(s, i + 1, tokens + ["-"])
      else TokenizeFrom(s, j, tokens + [s[i..j]])
    else if IsOperandChar(s[i]) then
      var j := OperandEnd(s, i + 1);
      TokenizeFrom(s, j, tokens + [s[i..j]])
    else
      TokenizeFrom(s, i + 1, tokens + [[s[i]]])
  }

  /** One step of the index-based scan over a run. */
  lemma TokenizeRunStep(s: string, i: nat, tokens: seq<string>)
    requires i < |s| && !IsSpace(s[i])
    requires (s[i] == '-' && MinusIsUnary(s, i, tokens)) || IsOperandChar(s[i])
    ensures var j := OperandEnd(s, i + 1);
            if s[i] == '-' && MinusIsUnary(s, i, tokens) && j == i + 1 then
              TokenizeFrom(s, i, tokens) == TokenizeFrom(s, i + 1, tokens + ["-"])
            else
              TokenizeFrom(s, i, tokens) == TokenizeFrom(s, j, tokens + [s[i..j]])
  {
  }

  /** One step of the scan over a character that is neither a space nor the start of
      an operand: it becomes a token of its own. */
  lemma TokenizeCharStep(s: string, i: nat, tokens: seq<string>, next: seq<string>)
    requires i < |s| && !IsSpace(s[i]) && !IsOperandChar(s[i])
    requires !(s[i] == '-' && MinusIsUnary(s, i, tokens))
    requires next == tokens + [[s[i]]]
    ensures TokenizeFrom(s, i, tokens) == TokenizeFrom(s, i + 1, next)
  {
  }

  /** One step of the scan over a space: it is skipped. */
  lemma TokenizeSpaceStep(s: string, i: nat, tokens: seq<string>)
    requires i < |s| && IsSpace(s[i])
    ensures TokenizeFrom(s, i, tokens) == TokenizeFrom(s, i + 1, tokens)
  {
  }

  /** One step of the scan over a one-character operand. */
  lemma TokenizeDigitStep(s: string, i: nat, tokens: seq<string>, next: seq<string>)
    requires i < |s| && IsOperandChar(s[i]) && (i + 1 == |s| || !IsOperandChar(s[i + 1]))
    requires next == tokens + [[s[i]]]
    ensures TokenizeFrom(s, i, tokens) == TokenizeFrom(s, i + 1, next)
  {
    assert OperandEnd(s, i + 1) == i + 1;
    assert s[i..i + 1] == [s[i]];
    TokenizeRunStep(s, i, tokens);
  }

  /** One step of the scan over a sign and a one-character operand. */
  lemma TokenizeSignedStep(s: string, i: nat, tokens: seq<string>, next: seq<string>)
    requires i + 1 < |s| && s[i] == '-' && MinusIsUnary(s, i, tokens)
    requires IsOperandChar(s[i + 1]) && (i + 2 == |s| || !IsOperandChar(s[i + 2]))
    requires next == tokens + [['-', s[i + 1]]]
    ensures TokenizeFrom(s, i, tokens) == TokenizeFrom(s, i + 2, next)
  {
    assert OperandEnd(s, i + 2) == i + 2;
    assert OperandEnd(s, i + 1) == i + 2;
    assert s[i..i + 2] == ['-', s[i + 1]];
    TokenizeRunStep(s, i, tokens);
  }

  /** One step of the scan over a sign with no operand character after it: a lone `-`. */
  lemma TokenizeLoneStep(s: string, i: nat, tokens: seq<string>, next: seq<string>)
    requires i < |s| && s[i] == '-' && MinusIsUnary(s, i, tokens)
    requires i + 1 == |s| || !IsOperandChar(s[i + 1])
    requires next == tokens + ["-"]
    ensures TokenizeFrom(s, i, tokens) == TokenizeFrom(s, i + 1, next)
  {
    assert OperandEnd(s, i + 1) == i + 1;
  }

  /** `tokenize_expression(s)`. */
  function Tokenize(s: string): seq<string> {
    TokenizeFrom(s, 0, [])
  }

  function Concat(ts: seq<string>): string
    decreases |ts|
  {
    if ts == [] then "" else Concat(ts[..|ts| - 1]) + ts[|ts| - 1]
  }

  function RemoveSpaces(s: string): string
    decreases |s|
  {
    if s == [] then "" else (if IsSpace(s[0]) then "" else [s[0]]) + RemoveSpaces(s[1..])
  }

  /** A token as the tokenizer makes it: a run of operand characters, a `-` sign followed
      by such a run, or one character that is neither whitespace nor an operand character. */
  predicate WellShaped(t: string) {
    || (|t| > 0 && forall m :: 0 <= m < |t| ==> IsOperandChar(t[m]))
    || (|t| > 1 && t[0] == '-' && forall m :: 1 <= m < |t| ==> IsOperandChar(t[m]))
    || (|t| == 1 && !IsSpace(t[0]) && !IsOperandChar(t[0]))
  }

  /** A sign merged into an operand only where a sign can stand: at the very start of
      the input, or right after `(` or an operator. */
  predicate SignsMergedInPlace(s: string, ts: seq<string>) {
    && (|ts| > 0 && |ts[0]| > 1 && ts[0][0] == '-' ==> |s| > 0 && s[0] == '-')
    && (forall k :: 1 <= k < |ts| && |ts[k]| > 1 && ts[k][0] == '-' ==>
          ts[k - 1] == "(" || ts[k - 1] in TokenizerOperators)
  }

  lemma ConcatSnoc(ts: seq<string>, t: string)
    ensures Concat(ts + [t]) == Concat(ts) + t
  {
    assert (ts + [t])[..|ts|] == ts;
  }

  lemma {:induction false} RemoveSpacesAppend(x: string, y: string)
    ensures RemoveSpaces(x + y) == RemoveSpaces(x) + RemoveSpaces(y)
    decreases |x|
  {
    if x == [] {
      assert x + y == y;
    } else {
      assert (x + y)[1..] == x[1..] + y;
      RemoveSpacesAppend(x[1..], y);
    }
  }

  lemma {:induction false} RemoveSpacesOfWord(x: string)
    requires NoSpace(x)
    ensures RemoveSpaces(x) == x
    decreases |x|
  {
    if x != [] {
      RemoveSpacesOfWord(x[1..]);
      assert x == [x[0]] + x[1..];
    }
  }

  lemma OperandCharNotSpace(c: char)
    requires IsOperandChar(c)
    ensures !IsSpace(c)
  {
  }

  /** One step of the scan: the input from `i` splits into the consumed part and the rest. */
  lemma RemoveSpacesSplitAt(s: string, i: nat, j: nat)
    requires i <= j <= |s|
    ensures RemoveSpaces(s[i..]) == RemoveSpaces(s[i..j]) + RemoveSpaces(s[j..])
  {
    assert s[i..] == s[i..j] + s[j..];
    RemoveSpacesAppend(s[i..j], s[j..]);
  }

  lemma RunHasNoSpace(s: string, i: nat, j: nat)
    requires i <= j <= |s|
    requires forall m :: i <= m < j ==> IsOperandChar(s[m])
    ensures NoSpace(s[i..j])
  {
    forall m | 0 <= m < j - i ensures !IsSpace(s[i..j][m]) {
      OperandCharNotSpace(s[i + m]);
    }
  }

  /** `r` keeps `tokens` in front and adds well-shaped tokens that spell out `rest`. */
  predicate Extends(r: seq<string>, tokens: seq<string>, rest: string) {
    && |r| >= |tokens| && r[..|tokens|] == tokens
    && (forall k :: |tokens| <= k < |r| ==> WellShaped(r[k]))
    && Concat(r) == Concat(tokens) + rest
  }

  lemma ExtendsSnoc(r: seq<string>, tokens: seq<string>, t: string, rest: string)
    requires Extends(r, tokens + [t], rest) && WellShaped(t)
    ensures Extends(r, tokens, t + rest)
  {
    assert r[..|tokens| + 1][..|tokens|] == tokens;
    ConcatSnoc(tokens, t);
  }

  /** What the scan from `i` adds to the tokens already produced: the old tokens stay,
      every new token is non-empty and well shaped, and the new tokens concatenated give
      back the rest of the input with its whitespace removed. */
  lemma {:induction false} TokenizeFromSpec(s: string, i: nat, tokens: seq<string>)
    requires i <= |s|
    ensures Extends(TokenizeFrom(s, i, tokens), tokens, RemoveSpaces(s[i..]))
    decreases |s| - i, 1
  {
    if i == |s| {
      assert s[i..] == [];
    } else if IsSpace(s[i]) {
      TokenizeFromSpec(s, i + 1, tokens);
      RemoveSpacesSplitAt(s, i, i + 1);
      assert s[i..i + 1] == [s[i]];
    } else if s[i] == '-' && MinusIsUnary(s, i, tokens) {
      var j := OperandEnd(s, i + 1);
      if j == i + 1 {
        StepLemma(s, i, i + 1, tokens, "-");
      } else {
        StepLemma(s, i, j, tokens, s[i..j]);
      }
    } else if IsOperandChar(s[i]) {
      var j := OperandEnd(s, i + 1);
      StepLemma(s, i, j, tokens, s[i..j]);
    } else {
      StepLemma(s, i, i + 1, tokens, [s[i]]);
    }
  }

  /** The inductive step of `TokenizeFromSpec` for a token `t` spanning `s[i..j]`. */
  lemma {:induction false} StepLemma(s: string, i: nat, j: nat, tokens: seq<string>, t: string)
    requires i < j <= |s| && t == s[i..j] && WellShaped(t) && !IsSpace(s[i])
    requires j > i + 1 ==> forall m :: i < m < j ==> IsOperandChar(s[m])
    requires TokenizeFrom(s, i, tokens) == TokenizeFrom(s, j, tokens + [t])
    ensures Extends(TokenizeFrom(s, i, tokens), tokens, RemoveSpaces(s[i..]))
    decreases |s| - i, 0
  {
    TokenizeFromSpec(s, j, tokens + [t]);
    ExtendsSnoc(TokenizeFrom(s, j, tokens + [t]), tokens, t, RemoveSpaces(s[j..]));
    TokenSpaces(s, i, j);
  }

  /** A token's characters are kept whole when the spaces are removed. */
  lemma TokenSpaces(s: string, i: nat, j: nat)
    requires i < j <= |s| && !IsSpace(s[i])
    requires j > i + 1 ==> forall m :: i < m < j ==> IsOperandChar(s[m])
    ensures RemoveSpaces(s[i..]) == s[i..j] + RemoveSpaces(s[j..])
  {
    RemoveSpacesSplitAt(s, i, j);
    RunHasNoSpace(s, i + 1, j);
    assert s[i..j] == [s[i]] + s[i + 1..j];
    assert NoSpace(s[i..j]);
    RemoveSpacesOfWord(s[i..j]);
  }

  /** The tokens are non-empty and well shaped, and together they are the input with its
      whitespace removed. */
  lemma TokenizeConcat(s: string)
    ensures forall k :: 0 <= k < |Tokenize(s)| ==> |Tokenize(s)[k]| > 0 && WellShaped(Tokenize(s)[k])
    ensures Concat(Tokenize(s)) == RemoveSpaces(s)
  {
    TokenizeFromSpec(s, 0, []);
    assert s[0..] == s;
  }

  lemma SignsMergedSnoc(s: string, tokens: seq<string>, t: string)
    requires SignsMergedInPlace(s, tokens)
    requires |t| > 1 && t[0] == '-' ==>
      if tokens == [] then |s| > 0 && s[0] == '-'
      else tokens[|tokens| - 1] == "(" || tokens[|tokens| - 1] in TokenizerOperators
    ensures SignsMergedInPlace(s, tokens + [t])
  {
    var ts := tokens + [t];
    if tokens != [] {
      assert ts[0] == tokens[0];
    }
    forall k | 1 <= k < |ts| && |ts[k]| > 1 && ts[k][0] == '-'
      ensures ts[k - 1] == "(" || ts[k - 1] in TokenizerOperators
    {
      if k < |tokens| {
        assert ts[k] == tokens[k];
        assert ts[k - 1] == tokens[k - 1];
      } else {
        assert ts[k] == t;
        assert ts[k - 1] == tokens[|tokens| - 1];
      }
    }
  }

  lemma {:induction false} SignsMergedFrom(s: string, i: nat, tokens: seq<string>)
    requires i <= |s|
    requires i == 0 ==> tokens == []
    requires SignsMergedInPlace(s, tokens)
    ensures SignsMergedInPlace(s, TokenizeFrom(s, i, tokens))
    decreases |s| - i
  {
    if i == |s| {
    } else if IsSpace(s[i]) {
      SignsMergedFrom(s, i + 1, tokens);
    } else if s[i] == '-' && MinusIsUnary(s, i, tokens) {
      var j := OperandEnd(s, i + 1);
      if j == i + 1 {
        SignsMergedSnoc(s, tokens, "-");
        SignsMergedFrom(s, i + 1, tokens + ["-"]);
      } else {
        var t := s[i..j];
        assert t[0] == '-';
        assert i == 0 ==> |s| > 0 && s[0] == '-';
        SignsMergedSnoc(s, tokens, t);
        SignsMergedFrom(s, j, tokens + [t]);
      }
    } else if IsOperandChar(s[i]) {
      var j := OperandEnd(s, i + 1);
      assert s[i..j][0] == s[i] != '-';
      SignsMergedSnoc(s, tokens, s[i..j]);
      SignsMergedFrom(s, j, tokens + [s[i..j]]);
    } else {
      SignsMergedSnoc(s, tokens, [s[i]]);
      SignsMergedFrom(s, i + 1, tokens + [[s[i]]]);
    }
  }

  /** Three one-character operands and two operator characters, separated by single spaces. */
  lemma TokenizeSpacedChain(s: string)
    requires |s| == 9 && s[1] == ' ' && s[3] == ' ' && s[5] == ' ' && s[7] == ' '
    requires IsOperandChar(s[0]) && IsOperandChar(s[4]) && IsOperandChar(s[8])
    requires !IsOperandChar(s[2]) && !IsSpace(s[2]) && !IsOperandChar(s[6]) && !IsSpace(s[6])
    ensures Tokenize(s) == [[s[0]], [s[2]], [s[4]], [s[6]], [s[8]]]
  {
    var t0, t2, t4, t6, t8 := [s[0]], [s[2]], [s[4]], [s[6]], [s[8]];
    OperandTokenIsNoOperator(s[0]);
    OperandTokenIsNoOperator(s[4]);
    TokenizeDigitStep(s, 0, [], [t0]);
    TokenizeOperatorOperand(s, 1, [t0], [t0, t2, t4]);
    TokenizeOperatorOperand(s, 5, [t0, t2, t4], [t0, t2, t4, t6, t8]);
  }

  /** A space, an operator character, a space and a one-character operand. */
  lemma TokenizeOperatorOperand(s: string, i: nat, tokens: seq<string>, next: seq<string>)
    requires i + 4 <= |s| && s[i] == ' ' && s[i + 2] == ' '
    requires !IsOperandChar(s[i + 1]) && !IsSpace(s[i + 1]) && !(s[i + 1] == '-' && MinusIsUnary(s, i + 1, tokens))
    requires IsOperandChar(s[i + 3]) && (i + 4 == |s| || !IsOperandChar(s[i + 4]))
    requires next == tokens + [[s[i + 1]], [s[i + 3]]]
    ensures TokenizeFrom(s, i, tokens) == TokenizeFrom(s, i + 4, next)
  {
    TokenizeSpaceStep(s, i, tokens);
    TokenizeCharStep(s, i + 1, tokens, tokens + [[s[i + 1]]]);
    TokenizeSpaceStep(s, i + 2, tokens + [[s[i + 1]]]);
    TokenizeDigitStep(s, i + 3, tokens + [[s[i + 1]]], next);
  }

  /** A one-character operand token is neither `(` nor an operator. */
  lemma OperandTokenIsNoOperator(c: char)
    requires IsOperandChar(c)
    ensures [c] != "(" && [c] !in TokenizerOperators
  {
    assert "("[0] == '(';
    forall t | t in TokenizerOperators ensures t != [c] {
      assert |t| == 1 && !IsOperandChar(t[0]);
    }
  }

  /** A sign is merged into the operand after it only at the very start of the input or
      right after `(` or an operator. */
  lemma TokenizeMergesSignsInPlace(s: string)
    ensures SignsMergedInPlace(s, Tokenize(s))
  {
    SignsMergedFrom(s, 0, []);
  }

  /** A sign at the very start of the input is merged into the operand after it. */
  lemma TokenizeLeadingSign()
    ensures Tokenize("-5 + 3") == ["-5", "+", "3"]
  {
    var a := "-5 + 3";
    assert a[0] == '-' && a[1] == '5' && a[2] == ' ' && a[3] == '+' && a[4] == ' ' && a[5] == '3';
    assert IsOperandChar('5') && IsOperandChar('3') && !IsOperandChar(' ') && !IsOperandChar('+');
    assert OperandEnd(a, 2) == 2;
    assert OperandEnd(a, 1) == 2;
    assert a[0..2] == "-5";
    assert TokenizeFrom(a, 0, []) == TokenizeFrom(a, 2, ["-5"]);
    assert TokenizeFrom(a, 2, ["-5"]) == TokenizeFrom(a, 3, ["-5"]);
    assert TokenizeFrom(a, 3, ["-5"]) == TokenizeFrom(a, 4, ["-5", "+"]);
    assert TokenizeFrom(a, 4, ["-5", "+"]) == TokenizeFrom(a, 5, ["-5", "+"]);
    assert OperandEnd(a, 6) == 6;
    assert a[5..6] == "3";
    assert TokenizeFrom(a, 5, ["-5", "+"]) == TokenizeFrom(a, 6, ["-5", "+", "3"]);
  }

  /** A minus after an operand is an operator; a minus after an operator is a sign. */
  lemma TokenizeSignAfterOperator()
    ensures Tokenize("2 - -3") == ["2", "-", "-3"]
  {
    SignAfterOperatorSteps("2 - -3");
  }

  lemma SignAfterOperatorSteps(b: string)
    requires b == "2 - -3"
    ensures Tokenize(b) == ["2", "-", "-3"]
  {
    assert |b| == 6 && b[0] == '2' && b[1] == ' ' && b[2] == '-' && b[3] == ' ' && b[4] == '-' && b[5] == '3';
    assert IsOperandChar('2') && IsOperandChar('3') && !IsOperandChar('-');
    OperandTokenIsNoOperator('2');
    assert "-" in TokenizerOperators;
    TokenizeDigitStep(b, 0, [], ["2"]);
    TokenizeSpaceStep(b, 1, ["2"]);
    TokenizeCharStep(b, 2, ["2"], ["2", "-"]);
    TokenizeSpaceStep(b, 3, ["2", "-"]);
    TokenizeSignedStep(b, 4, ["2", "-"], ["2", "-", "-3"]);
  }

  /** A minus right after `(` is a sign. */
  lemma TokenizeSignAfterParen()
    ensures Tokenize("(-4)") == ["(", "-4", ")"]
  {
    var c := "(-4)";
    assert c[0] == '(' && c[1] == '-' && c[2] == '4' && c[3] == ')';
    assert IsOperandChar('4') && !IsOperandChar('(') && !IsOperandChar(')') && !IsOperandChar('-');
    assert TokenizeFrom(c, 0, []) == TokenizeFrom(c, 1, ["("]);
    assert OperandEnd(c, 3) == 3;
    assert OperandEnd(c, 2) == 3;
    assert c[1..3] == "-4";
    assert TokenizeFrom(c, 1, ["("]) == TokenizeFrom(c, 3, ["(", "-4"]);
    assert TokenizeFrom(c, 3, ["(", "-4"]) == TokenizeFrom(c, 4, ["(", "-4", ")"]);
  }

  /** A sign with no operand character right after it stays a lone `-`. */
  lemma TokenizeLoneSign()
    ensures Tokenize("2 * - 3") == ["2", "*", "-", "3"]
  {
    var a := "2 * - 3";
    assert a[0] == '2' && a[1] == ' ' && a[2] == '*' && a[3] == ' ';
    assert IsOperandChar('2') && !IsOperandChar(' ') && !IsOperandChar('*');
    assert OperandEnd(a, 1) == 1;
    assert a[0..1] == "2";
    assert TokenizeFrom(a, 0, []) == TokenizeFrom(a, 1, ["2"]);
    assert TokenizeFrom(a, 1, ["2"]) == TokenizeFrom(a, 2, ["2"]);
    assert TokenizeFrom(a, 2, ["2"]) == TokenizeFrom(a, 3, ["2", "*"]);
    assert TokenizeFrom(a, 3, ["2", "*"]) == TokenizeFrom(a, 4, ["2", "*"]);
    TokenizeLoneSignTail();
  }

  lemma TokenizeLoneSignTail()
    ensures TokenizeFrom("2 * - 3", 4, ["2", "*"]) == ["2", "*", "-", "3"]
  {
    var a := "2 * - 3";
    assert a[4] == '-' && a[5] == ' ' && a[6] == '3';
    assert IsOperandChar('3') && !IsOperandChar(' ') && !IsOperandChar('-');
    assert "*" in TokenizerOperators;
    assert OperandEnd(a, 5) == 5;
    assert TokenizeFrom(a, 4, ["2", "*"]) == TokenizeFrom(a, 5, ["2", "*", "-"]);
    assert TokenizeFrom(a, 5, ["2", "*", "-"]) == TokenizeFrom(a, 6, ["2", "*", "-"]);
    assert OperandEnd(a, 7) == 7;
    assert a[6..7] == "3";
    assert TokenizeFrom(a, 6, ["2", "*", "-"]) == TokenizeFrom(a, 7, ["2", "*", "-", "3"]);
  }

  /** A `-` after leading whitespace is not at index 0 and follows no token: not a sign. */
  lemma TokenizeIndentedMinus()
    ensures Tokenize(" -5") == ["-", "5"]
  {
    var b := " -5";
    assert b[0] == ' ' && b[1] == '-' && b[2] == '5';
    assert IsOperandChar('5') && !IsOperandChar(' ') && !IsOperandChar('-');
    assert TokenizeFrom(b, 0, []) == TokenizeFrom(b, 1, []);
    assert TokenizeFrom(b, 1, []) == TokenizeFrom(b, 2, ["-"]);
    assert OperandEnd(b, 3) == 3;
    assert b[2..3] == "5";
    assert TokenizeFrom(b, 2, ["-"]) == TokenizeFrom(b, 3, ["-", "5"]);
  }
}
