/** The text Python's `float()` accepts (ASCII only), and the integer literals among it.
    The engine uses `float(token)` twice: `is_numeric` asks whether it succeeds, and
    `evaluate_postfix` pushes the value it returns. */
module FloatSyntax {
  import opened Text

  predicate IsDigit(c: char) { '0' <= c <= '9' }

  predicate IsSign(c: char) { c == '+' || c == '-' }

  /** Digits with single underscores between them, as in `1_000`. */
  predicate IsDigitPart(s: string) {
    && |s| > 0 && IsDigit(s[0]) && IsDigit(s[|s| - 1])
    && (forall i :: 0 <= i < |s| ==> IsDigit(s[i]) || s[i] == '_')
    && (forall i :: 0 <= i < |s| - 1 ==> IsDigit(s[i]) || IsDigit(s[i + 1]))
  }

  function Lower(c: char): char {
    if 'A' <= c <= 'Z' then (c as int + 32) as char else c
  }

  function LowerText(s: string): (r: string)
    ensures |r| == |s|
    decreases |s|
  {
    if s == [] then [] else [Lower(s[0])] + LowerText(s[1..])
  }

  function StripRight(s: string): (r: string)
    ensures |r| <= |s|
    decreases |s|
  {
    if s != [] && IsSpace(s[|s| - 1]) then StripRight(s[..|s| - 1]) else s
  }

  /** `inf`, `infinity` or `nan` in any case, then only whitespace. */
  predicate IsSpecialRest(s: string) {
    LowerText(StripRight(s)) in ["inf", "infinity", "nan"]
  }

  /** The states of a left-to-right scan of `float()`'s syntax:
      `[ws] [sign] (digits ["." [digits]] | "." digits) [("e"|"E") [sign] digits] [ws]`,
      or a sign and a special word, where digits may hold single underscores between them. */
  datatype FloatState =
    | Lead        // leading whitespace
    | Signed      // after the sign
    | Int         // in the integer digits
    | IntSep      // after an underscore of the integer digits
    | PointOnly   // a point with no digit before it
    | PointAfter  // a point after integer digits
    | Frac        // in the fraction digits
    | FracSep     // after an underscore of the fraction digits
    | ExpMark     // after `e` or `E`
    | ExpSigned   // after the exponent's sign
    | Exp         // in the exponent digits
    | ExpSep      // after an underscore of the exponent digits
    | Trail       // trailing whitespace

  predicate Accepting(q: FloatState) {
    q == Int || q == PointAfter || q == Frac || q == Exp || q == Trail
  }

  /** The scan of `t[i..]` from state `q` accepts. */
  predicate FloatScan(t: string, i: nat, q: FloatState)
    requires i <= |t|
    decreases |t| - i
  {
    if i == |t| then Accepting(q)
    else
      var c := t[i];
      match q
      case Lead =>
        if IsSpace(c) then FloatScan(t, i + 1, Lead)
        else if IsSign(c) then FloatScan(t, i + 1, Signed)
        else if IsDigit(c) then FloatScan(t, i + 1, Int)
        else if c == '.' then FloatScan(t, i + 1, PointOnly)
        else IsSpecialRest(t[i..])
      case Signed =>
        if IsDigit(c) then FloatScan(t, i + 1, Int)
        else if c == '.' then FloatScan(t, i + 1, PointOnly)
        else IsSpecialRest(t[i..])
      case Int =>
        if IsDigit(c) then FloatScan(t, i + 1, Int)
        else if c == '_' then FloatScan(t, i + 1, IntSep)
        else if c == '.' then FloatScan(t, i + 1, PointAfter)
        else if c == 'e' || c == 'E' then FloatScan(t, i + 1, ExpMark)
        else IsSpace(c) && FloatScan(t, i + 1, Trail)
      case IntSep => IsDigit(c) && FloatScan(t, i + 1, Int)
      case PointOnly => IsDigit(c) && FloatScan(t, i + 1, Frac)
      case PointAfter =>
        if IsDigit(c) then FloatScan(t, i + 1, Frac)
        else if c == 'e' || c == 'E' then FloatScan(t, i + 1, ExpMark)
        else IsSpace(c) && FloatScan(t, i + 1, Trail)
      case Frac =>
        if IsDigit(c) then FloatScan(t, i + 1, Frac)
        else if c == '_' then FloatScan(t, i + 1, FracSep)
        else if c == 'e' || c == 'E' then FloatScan(t, i + 1, ExpMark)
        else IsSpace(c) && FloatScan(t, i + 1, Trail)
      case FracSep => IsDigit(c) && FloatScan(t, i + 1, Frac)
      case ExpMark =>
        if IsSign(c) then FloatScan(t, i + 1, ExpSigned)
        else IsDigit(c) && FloatScan(t, i + 1, Exp)
      case ExpSigned => IsDigit(c) && FloatScan(t, i + 1, Exp)
      case Exp =>
        if IsDigit(c) then FloatScan(t, i + 1, Exp)
        else if c == '_' then FloatScan(t, i + 1, ExpSep)
        else IsSpace(c) && FloatScan(t, i + 1, Trail)
      case ExpSep => IsDigit(c) && FloatScan(t, i + 1, Exp)
      case Trail => IsSpace(c) && FloatScan(t, i + 1, Trail)
  }

  /** `float(t)` succeeds. */
  predicate IsFloatText(t: string) {
    FloatScan(t, 0, Lead)
  }

  /** An integer literal: an optional sign and digits, with no point and no exponent. */
  predicate IsIntText(t: string) {
    if |t| > 0 && IsSign(t[0]) then IsDigitPart(t[1..]) else IsDigitPart(t)
  }

  /** The value of a digit part, underscores skipped. */
  function DigitPartValue(s: string): nat
    decreases |s|
  {
    if s == [] then 0
    else if IsDigit(s[|s| - 1]) then DigitPartValue(s[..|s| - 1]) * 10 + (s[|s| - 1] as int - '0' as int)
    else DigitPartValue(s[..|s| - 1])
  }

  /** The value `float()` gives an integer literal. */
  function IntTextValue(t: string): int {
    if |t| > 0 && t[0] == '-' then -(DigitPartValue(t[1..]) as int)
    else if |t| > 0 && t[0] == '+' then DigitPartValue(t[1..])
    else DigitPartValue(t)
  }

  /** The digits and underscores of a digit part keep the scan in the integer states
      and end it in an accepting one. */
  lemma {:induction false} DigitPartScan(t: string, i: nat, q: FloatState)
    requires i < |t| && IsDigitPart(t[i..])
    requires q == Int || q == IntSep
    ensures FloatScan(t, i, q)
    decreases |t| - i
  {
    var u := t[i..];
    assert t[i] == u[0];
    if i + 1 < |t| {
      assert t[i + 1] == u[1];
      if IsDigit(t[i + 1]) {
        assert t[i + 1..] == u[1..];
        DigitPartScan(t, i + 1, Int);
      } else {
        assert IsDigit(u[2]);
        assert t[i + 2..] == u[2..];
        DigitPartScan(t, i + 2, IntSep);
      }
    }
  }

  /** Every integer literal is text `float()` accepts. */
  lemma IntTextIsFloatText(t: string)
    requires IsIntText(t)
    ensures IsFloatText(t)
  {
    if IsSign(t[0]) {
      DigitPartScan(t, 1, Int);
      assert FloatScan(t, 1, Signed) == FloatScan(t, 1, Int);
    } else {
      assert t[0..] == t;
      DigitPartScan(t, 0, Int);
      assert FloatScan(t, 0, Lead) == FloatScan(t, 0, Int);
    }
  }

  /** A lone symbol other than a digit is never a number to `float()`: this keeps
      operators and brackets apart from operands. */
  lemma SymbolNotFloatText(c: char)
    requires !IsDigit(c)
    ensures !IsFloatText([c])
  {
    var t := [c];
    assert t[0] == c;
    assert |LowerText(StripRight(t[0..]))| <= 1;
    if IsSpace(c) {
      assert FloatScan(t, 1, Lead) == Accepting(Lead);
    } else if IsSign(c) {
      assert FloatScan(t, 1, Signed) == Accepting(Signed);
    } else if c == '.' {
      assert FloatScan(t, 1, PointOnly) == Accepting(PointOnly);
    }
  }

  /** A run of decimal digits is a digit part, and `float()` reads it as its value. */
  lemma {:induction false} DigitsArePart(s: string)
    requires |s| > 0 && forall i :: 0 <= i < |s| ==> '0' <= s[i] <= '9'
    ensures IsDigitPart(s) && DigitPartValue(s) == DigitsValue(s)
    decreases |s|
  {
    if |s| > 1 {
      DigitsArePart(s[..|s| - 1]);
    }
  }

  /** `str(n)` is an integer literal that `float()` reads as `n`. */
  lemma IntToStringLiteral(n: int)
    ensures IsIntText(IntToString(n)) && IntTextValue(IntToString(n)) == n
  {
    if n < 0 {
      NegativeLiteral(NatToString(-n), -n);
    } else {
      NaturalLiteral(n);
    }
  }

  /** `str(m)` of a natural number is an unsigned literal valued `m`. */
  lemma NaturalLiteral(m: nat)
    ensures IsIntText(NatToString(m)) && IntTextValue(NatToString(m)) == m
  {
    var s := NatToString(m);
    DigitsArePart(s);
    NatToStringValue(m);
    assert !IsSign(s[0]) && s[0] != '-' && s[0] != '+';
  }

  /** A minus before the digits of `m` is a literal valued `-m`. */
  lemma NegativeLiteral(digits: string, m: nat)
    requires digits == NatToString(m)
    ensures IsIntText("-" + digits) && IntTextValue("-" + digits) == -(m as int)
  {
    var s := "-" + digits;
    assert s[0] == '-' && s[1..] == digits;
    NaturalLiteral(m);
    assert !IsSign(digits[0]);
  }
}
