/** The "Writing Fractions As Decimals" worksheet: draw a signed fraction, reduce it,
    write it as a decimal with its repeating block overlined, and label it terminating
    or repeating. Draws that give an error text, or a fraction equal to 1, are redrawn. */
module WritingFractionsAsDecimals {
  import opened Results
  import opened Text
  import opened Randomness
  import opened Fractions

  // ---------------------------------------------------------------------------------
  // One attempt of `generate_problem`

  /** The expansion of `num / den` ends: `den` divides `num`, or the long division stops
      on a zero remainder rather than on a repeated one. */
  predicate Terminates(num: int, den: int)
    requires den != 0
  {
    FloorMod(num, den) == 0 || Rem(num, den, Stop(num, den)) == 0
  }

  /** The label of the answer. */
  function DecimalType(terminating: bool): string {
    if terminating then "terminating decimal" else "repeating decimal"
  }

  /** The problem statement for the drawn, unreduced fraction. */
  function ProblemText(numerator: int, denominator: int): string {
    "Convert the fraction to a decimal, and determine the type of decimal: \\\\ \\par \\qquad \\qquad $\\frac{"
    + IntToString(numerator) + "}{" + IntToString(denominator) + "}$"
  }

  /** How the decimal of a negative fraction is written: as `to_decimal_string` writes
      it, with Python's floored integer part (-1/4 is `-1.75`), or with the sign in front
      of the decimal of the magnitude (-1/4 is `-0.25`). */
  datatype Writing = Floored | SignInFront

  function WrittenDecimal(w: Writing, num: int, den: int, maxNumberRepeating: int): string
    requires den != 0
  {
    match w
    case Floored => DecimalText(num, den, maxNumberRepeating)
    case SignInFront => SignedDecimalText(num, den, maxNumberRepeating)
  }

  /** What one pass of the loop computes: the drawn fraction, its decimal text and its
      label. */
  datatype Attempt = Attempt(numerator: int, denominator: int, decimalValue: string, decimalType: string)

  /** One pass of the loop of `generate_problem`: `randint(1, 100)` for the numerator,
      `choice([True, False])` to negate it, `randint(2, 100)` for the denominator; the
      label and the decimal come from the reduced fraction. */
  function AttemptDraw(w: Writing, maxNumberRepeating: int, oracle: seq<nat>): (r: Option<Draw<Attempt>>)
    ensures r.Some? ==> |r.value.rest| < |oracle|
  {
    var n :- RandInt(1, 100, oracle);
    var negation :- Choice([true, false], n.rest);
    var numerator := if negation.value then n.value * -1 else n.value;
    var d :- RandInt(2, 100, negation.rest);
    var (simplifiedNumerator, simplifiedDenominator) := SimplifyFraction(numerator, d.value);
    SimplifyMeaning(numerator, d.value);
    var decimalType := DecimalType(Terminating(simplifiedDenominator));
    var decimalValue := WrittenDecimal(w, simplifiedNumerator, simplifiedDenominator, maxNumberRepeating);
    Some(Draw(Attempt(numerator, d.value, decimalValue, decimalType), d.rest))
  }

  /** The loop leaves with this attempt: its decimal is not an error text and the drawn
      fraction is not `n/n`. */
  predicate Accepted(a: Attempt) {
    !StartsWith(a.decimalValue, "Error") && a.numerator != a.denominator
  }

  /** What `generate_problem` returns, drawing from `oracle` until an attempt is
      accepted; `None` when the oracle runs out first. */
  function FractionSearch(w: Writing, maxNumberRepeating: int, oracle: seq<nat>): Option<(string, string)>
    decreases |oracle|
  {
    match AttemptDraw(w, maxNumberRepeating, oracle)
    case None => None
    case Some(d) =>
      if Accepted(d.value) then
        Some((ProblemText(d.value.numerator, d.value.denominator), d.value.decimalValue + ", " + d.value.decimalType))
      else FractionSearch(w, maxNumberRepeating, d.rest)
  }

  // ---------------------------------------------------------------------------------
  // What an attempt means

  /** The label `is_terminating_decimal` gives the reduced denominator agrees with the
      way the long division of the reduced fraction ends. */
  lemma LabelMatchesExpansion(numerator: int, denominator: int)
    requires numerator != 0 && denominator != 0
    ensures var (n, d) := SimplifyFraction(numerator, denominator);
            d > 0 && (Terminating(d) <==> Terminates(n, d))
  {
    SimplifyMeaning(numerator, denominator);
    var (n, d) := SimplifyFraction(numerator, denominator);
    if d >= 2 {
      TerminatingBranch(n, d);
    } else {
      assert d == 1;
      assert FloorMod(n, d) == 0;
    }
  }

  /** An attempt as the source builds it: a numerator of size 1 to 100 with either sign,
      a denominator from 2 to 100, the decimal of the reduced fraction, and the label that
      says whether that decimal terminates. */
  ghost predicate WellDrawn(w: Writing, maxNumberRepeating: int, a: Attempt) {
    1 <= Abs(a.numerator) <= 100 && 2 <= a.denominator <= 100
    && var (n, d) := SimplifyFraction(a.numerator, a.denominator);
       d > 0 && Coprime(Abs(n), d) && a.numerator * d == n * a.denominator
       && a.decimalValue == WrittenDecimal(w, n, d, maxNumberRepeating)
       && (a.decimalType == "terminating decimal" <==> Terminates(n, d))
       && (a.decimalType == "terminating decimal" || a.decimalType == "repeating decimal")
  }

  lemma AttemptMeaning(w: Writing, maxNumberRepeating: int, oracle: seq<nat>)
    requires AttemptDraw(w, maxNumberRepeating, oracle).Some?
    ensures WellDrawn(w, maxNumberRepeating, AttemptDraw(w, maxNumberRepeating, oracle).value.value)
  {
    var a := AttemptDraw(w, maxNumberRepeating, oracle).value.value;
    SimplifyMeaning(a.numerator, a.denominator);
    LabelMatchesExpansion(a.numerator, a.denominator);
  }

  /** Every problem `generate_problem` poses comes from a well-drawn attempt that is not
      `n/n`, whose decimal is no error text and so has at most `maxNumberRepeating`
      digits; the answer is that decimal and its label. */
  lemma {:induction false} ProblemMeaning(w: Writing, maxNumberRepeating: int, oracle: seq<nat>)
    requires FractionSearch(w, maxNumberRepeating, oracle).Some?
    ensures exists a: Attempt ::
              WellDrawn(w, maxNumberRepeating, a) && Accepted(a) &&
              FractionSearch(w, maxNumberRepeating, oracle).value
                == (ProblemText(a.numerator, a.denominator), a.decimalValue + ", " + a.decimalType)
    decreases |oracle|
  {
    var d := AttemptDraw(w, maxNumberRepeating, oracle).value;
    if Accepted(d.value) {
      AttemptMeaning(w, maxNumberRepeating, oracle);
    } else {
      ProblemMeaning(w, maxNumberRepeating, d.rest);
    }
  }

  /** The decimal of an accepted attempt is short: the integer part alone, or at most
      `maxNumberRepeating` digits after the point, in the long division of the reduced
      fraction (of its magnitude, when the sign is written in front). */
  lemma AcceptedIsShort(w: Writing, maxNumberRepeating: int, a: Attempt)
    requires WellDrawn(w, maxNumberRepeating, a) && Accepted(a)
    ensures var (n, d) := SimplifyFraction(a.numerator, a.denominator);
            var k := if w == Floored then n else Abs(n);
            FloorMod(k, d) == 0 || Stop(k, d) <= maxNumberRepeating
  {
    var (n, d) := SimplifyFraction(a.numerator, a.denominator);
    if w == SignInFront {
      SignedShort(n, d, maxNumberRepeating);
    }
  }

  /** The words before the fraction in the problem text. */
  const Lead := "Convert the fraction to a decimal, and determine the type of decimal: \\\\ \\par \\qquad \\qquad "

  /** The problem text is `$\frac{n}{d}$` after a fixed lead-in. */
  lemma ProblemTextShape(n: int, d: int)
    requires d != 0
    ensures ProblemText(n, d) == Lead + LatexFraction(n, d)
  {
    var a, b := IntToString(n), IntToString(d);
    assert Lead + "$\\frac{" == "Convert the fraction to a decimal, and determine the type of decimal: \\\\ \\par \\qquad \\qquad $\\frac{";
    assert Lead + ("$\\frac{" + a + "}{" + b + "}$") == Lead + "$\\frac{" + a + "}{" + b + "}$";
  }

  lemma DropLead(a: string, b: string)
    requires Lead + a == Lead + b
    ensures a == b
  {
    assert a == (Lead + a)[|Lead|..];
    assert b == (Lead + b)[|Lead|..];
  }

  /** The problem text names the drawn fraction: different draws give different texts. */
  lemma ProblemTextInjective(n1: int, d1: int, n2: int, d2: int)
    requires d1 != 0 && d2 != 0 && ProblemText(n1, d1) == ProblemText(n2, d2)
    ensures n1 == n2 && d1 == d2
  {
    ProblemTextShape(n1, d1);
    ProblemTextShape(n2, d2);
    DropLead(LatexFraction(n1, d1), LatexFraction(n2, d2));
    LatexFractionInjective(n1, d1, n2, d2);
  }

  // ---------------------------------------------------------------------------------
  // A negative fraction, written with its sign in front

  /** The sign of a fraction moved to its numerator. */
  function Normalized(num: int, den: int): (r: (int, int))
    requires den != 0
    ensures r.1 > 0 && r.0 * den == num * r.1
    ensures Abs(r.0) == Abs(num) && r.1 == Abs(den)
  {
    if den < 0 then (-num, -den) else (num, den)
  }

  /** The decimal `to_decimal_string` evidently means for the negative numerators
      `generate_problem` draws: a minus sign, then the decimal of `|num| / |den|`. */
  function SignedDecimalText(num: int, den: int, maxNumberRepeating: int): string
    requires den != 0
  {
    var (n, d) := Normalized(num, den);
    if n >= 0 then DecimalText(n, d, maxNumberRepeating)
    else
      var t := DecimalText(-n, d, maxNumberRepeating);
      if StartsWith(t, "Error") then t else "-" + t
  }

  lemma SignedNegative(num: int, den: int, maxNumberRepeating: int)
    requires num < 0 && den > 0 && !StartsWith(DecimalText(-num, den, maxNumberRepeating), "Error")
    ensures SignedDecimalText(num, den, maxNumberRepeating) == "-" + DecimalText(-num, den, maxNumberRepeating)
  {
  }

  /** A signed decimal that is no error text comes from a magnitude whose decimal is no
      error text. */
  lemma SignedShort(num: int, den: int, maxNumberRepeating: int)
    requires den > 0 && !StartsWith(SignedDecimalText(num, den, maxNumberRepeating), "Error")
    ensures !StartsWith(DecimalText(Abs(num), den, maxNumberRepeating), "Error")
  {
  }

  lemma StartsWithConcat(a: string, b: string)
    ensures StartsWith(a + b, a)
  {
    assert (a + b)[..|a|] == a;
  }

  lemma StartsWithExtend(a: string, b: string, w: string)
    requires StartsWith(a, w)
    ensures StartsWith(a + b, w)
  {
    assert (a + b)[..|w|] == a[..|w|];
  }

  lemma ErrorTexts(x: string)
    ensures StartsWith("Error: decimal points is too large. " + x, "Error")
    ensures StartsWith("Error: repeating part is too large. " + x, "Error")
  {
    StartsWithExtend("Error: decimal points is too large. ", x, "Error");
    StartsWithExtend("Error: repeating part is too large. ", x, "Error");
  }

  /** A decimal text that is not an error text begins with the floored integer part. */
  lemma DecimalTextHead(num: int, den: int, maxNumberRepeating: int)
    requires den != 0
    ensures var t := DecimalText(num, den, maxNumberRepeating);
            !StartsWith(t, "Error") ==> StartsWith(t, IntToString(FloorDiv(num, den)))
  {
    var ip := IntToString(FloorDiv(num, den));
    StartsWithConcat(ip, "");
    assert ip + "" == ip;
    if FloorMod(num, den) != 0 {
      var n := Stop(num, den);
      var decimalStr := DigitText(num, den, n);
      var r := Rem(num, den, n);
      StartsWithConcat(ip, ".");
      if r == 0 {
        ErrorTexts(decimalStr);
        StartsWithExtend(ip + ".", decimalStr, ip);
      } else {
        var startPos := Position(num, den, n, r);
        var rep := decimalStr[startPos..];
        var non := decimalStr[..startPos];
        ErrorTexts(rep);
        StartsWithExtend(ip + ".", non, ip);
        StartsWithExtend(ip + "." + non, "$\\overline{", ip);
        StartsWithExtend(ip + "." + non + "$\\overline{", rep, ip);
        StartsWithExtend(ip + "." + non + "$\\overline{" + rep, "}$", ip);
        StartsWithExtend(ip, ".$\\overline{", ip);
        StartsWithExtend(ip + ".$\\overline{", rep, ip);
        StartsWithExtend(ip + ".$\\overline{" + rep, "}$", ip);
      }
    }
  }

  lemma StartsWithSign(t: string, w: string)
    requires StartsWith(t, w)
    ensures StartsWith("-" + t, "-" + w)
  {
    assert ("-" + t)[..|"-" + w|] == "-" + t[..|w|];
  }

  /** Where the sign goes: moving it between numerator and denominator changes nothing;
      a positive fraction is written as `to_decimal_string` writes it; a negative one is
      the text of its magnitude with a minus in front, error texts passed on as they
      are. The integer part written is the magnitude's, rounded toward zero. */
  lemma SignedDecimalMeaning(num: int, den: int, maxNumberRepeating: int)
    requires den != 0
    ensures SignedDecimalText(num, den, maxNumberRepeating) == SignedDecimalText(-num, -den, maxNumberRepeating)
    ensures (num >= 0) == (den > 0) ==>
              SignedDecimalText(num, den, maxNumberRepeating) == DecimalText(Abs(num), Abs(den), maxNumberRepeating)
    ensures num != 0 && (num > 0) != (den > 0) ==>
              var t, u := SignedDecimalText(num, den, maxNumberRepeating), SignedDecimalText(-num, den, maxNumberRepeating);
              t == if StartsWith(u, "Error") then u else "-" + u
    ensures var t := SignedDecimalText(num, den, maxNumberRepeating);
            !StartsWith(t, "Error") ==>
              StartsWith(t, (if num != 0 && (num > 0) != (den > 0) then "-" else "") + IntToString(FloorDiv(Abs(num), Abs(den))))
  {
    SignedAsMagnitude(num, den, maxNumberRepeating);
    SignedAsMagnitude(-num, -den, maxNumberRepeating);
    SignedAsMagnitude(-num, den, maxNumberRepeating);
    DecimalTextHead(Abs(num), Abs(den), maxNumberRepeating);
    SignedHead(DecimalText(Abs(num), Abs(den), maxNumberRepeating),
      IntToString(FloorDiv(Abs(num), Abs(den))), num != 0 && (num > 0) != (den > 0));
  }

  /** The signed text is the magnitude's text, with a minus in front when the fraction
      is negative and that text is not an error. */
  lemma SignedAsMagnitude(num: int, den: int, maxNumberRepeating: int)
    requires den != 0
    ensures var a := DecimalText(Abs(num), Abs(den), maxNumberRepeating);
            SignedDecimalText(num, den, maxNumberRepeating)
              == if num == 0 || (num > 0) == (den > 0) || StartsWith(a, "Error") then a else "-" + a
  {
    var (n, d) := Normalized(num, den);
    assert Abs(n) == Abs(num) && d == Abs(den);
    assert n >= 0 <==> num == 0 || (num > 0) == (den > 0);
  }

  /** A sign put in front of a text that starts with `h` (an error text left as it is)
      starts with the sign and then `h`. */
  lemma SignedHead(a: string, h: string, negative: bool)
    requires !StartsWith(a, "Error") ==> StartsWith(a, h)
    ensures var t := if !negative || StartsWith(a, "Error") then a else "-" + a;
            !StartsWith(t, "Error") ==> StartsWith(t, (if negative then "-" else "") + h)
  {
    if !negative {
      assert "" + h == h;
    } else if !StartsWith(a, "Error") {
      StartsWithSign(a, h);
    }
  }

  // ---------------------------------------------------------------------------------
  // The generator

  class WritingFractionsAsDecimals {
    var title: string
    /** The most digits a decimal may have before it is reported as an error. */
    const maxNumberRepeating: int

    constructor()
      ensures title == "Writing Fractions As Decimals" && maxNumberRepeating == 4
    {
      title := "Writing Fractions As Decimals";
      maxNumberRepeating := 4;
    }

    /** `to_decimal_string(num, den)`: the same long division as `to_latex_decimal`,
        bounded by `maxNumberRepeating`, with Python's floored integer part, so that a
        negative fraction is written as its floor plus a positive fraction (see
        `SignedDecimalText` for the sign written in front). */
    method ToDecimalString(num: int, den: int) returns (text: string)
      requires den != 0
      ensures text == DecimalText(num, den, maxNumberRepeating)
    {
      text := ToLatexDecimal(num, den, maxNumberRepeating);
    }

    /** `generate_problem`: draw until an attempt is accepted, then pose it, with the
        decimal `to_decimal_string` writes. */
    method GenerateProblem(oracle: seq<nat>) returns (r: Option<(string, string)>)
      ensures r == FractionSearch(Floored, maxNumberRepeating, oracle)
    {
      var o := oracle;
      var numerator, denominator, decimalValue, decimalType := 0, 0, "", "";
      while true
        invariant FractionSearch(Floored, maxNumberRepeating, o) == FractionSearch(Floored, maxNumberRepeating, oracle)
        decreases |o|
      {
        var n := RandInt(1, 100, o);
        if n.None? {
          return None;
        }
        numerator := n.value.value;
        var boolNegation := Choice([true, false], n.value.rest);
        if boolNegation.None? {
          return None;
        }
        if boolNegation.value.value {
          numerator := numerator * -1;
        }
        var d := RandInt(2, 100, boolNegation.value.rest);
        if d.None? {
          return None;
        }
        denominator := d.value.value;
        var simplified := SimplifyFraction(numerator, denominator);
        var simplifiedNumerator, simplifiedDenominator := simplified.0, simplified.1;
        SimplifyMeaning(numerator, denominator);
        var boolTerminatingDecimal := IsTerminatingDecimal(simplifiedDenominator);
        decimalType := if boolTerminatingDecimal then "terminating decimal" else "repeating decimal";
        decimalValue := ToDecimalString(simplifiedNumerator, simplifiedDenominator);
        ghost var attempt := Attempt(numerator, denominator, decimalValue, decimalType);
        assert AttemptDraw(Floored, maxNumberRepeating, o) == Some(Draw(attempt, d.value.rest));
        ghost var previous := o;
        o := d.value.rest;
        if StartsWith(decimalValue, "Error") {
          continue;
        } else if numerator == denominator {
          continue;
        } else {
          assert FractionSearch(Floored, maxNumberRepeating, previous)
            == Some((ProblemText(numerator, denominator), decimalValue + ", " + decimalType));
          break;
        }
      }
      var problemText := "Convert the fraction to a decimal, and determine the type of decimal: \\\\ \\par \\qquad \\qquad $\\frac{"
        + IntToString(numerator) + "}{" + IntToString(denominator) + "}$";
      var answerText := decimalValue + ", " + decimalType;
      r := Some((problemText, answerText));
    }
  }
}
