/** Worked cases of the fraction utilities, fixed by the definitions. */
module FractionsExamples {
  import opened Text
  import opened Results
  import opened Fractions
  import opened Randomness
  import opened WritingFractionsAsDecimals

  /** The integer part is floored and the digits come from the non-negative
      remainder, so -1/4 is written as -1 + 0.75. */
  lemma NegativeQuarter()
    ensures DecimalText(-1, 4, 4) == "-1.75"
  {
    assert Rem(-1, 4, 0) == 3;
    assert Rem(-1, 4, 1) == 2;
    assert Rem(-1, 4, 2) == 0;
    assert Stops(-1, 4, 2) && Runs(-1, 4, 2);
    StopFromUnique(-1, 4, 0, 2);
    assert DigitText(-1, 4, 2) == "75";
  }

  /** A denominator that divides the numerator gives the integer part alone. */
  lemma WholeNumber()
    ensures DecimalText(-8, 4, 4) == "-2"
  {
  }

  lemma FractionTexts()
    ensures LatexFraction(3, 0) == "0"
    ensures LatexFraction(-3, 4) == "$\\frac{-3}{4}$"
  {
  }

  /** A positive quarter: the integer part 0 and the digits 25. */
  lemma PositiveQuarter()
    ensures DecimalText(1, 4, 4) == "0.25"
  {
    assert Rem(1, 4, 0) == 1;
    assert Rem(1, 4, 1) == 2;
    assert Rem(1, 4, 2) == 0;
    assert Stops(1, 4, 2) && Runs(1, 4, 2);
    StopFromUnique(1, 4, 0, 2);
    assert DigitText(1, 4, 2) == "25";
  }

  lemma NotErrorText(t: string)
    requires |t| > 0 && t[0] != 'E'
    ensures !StartsWith(t, "Error")
  {
  }

  lemma QuarterReduced()
    ensures SimplifyFraction(-1, 4) == (-1, 4) && Terminating(4)
  {
    assert Gcd(4, 1) == Gcd(1, 0);
    assert Gcd(1, 4) == 1;
    assert StripTwos(2) == 1;
    assert StripTwos(4) == 1 && StripFives(1) == 1;
  }

  lemma QuarterDrawn()
    ensures AttemptDraw(Floored, 4, [0, 0, 2])
      == Some(Draw(Attempt(-1, 4, DecimalText(-1, 4, 4), "terminating decimal"), []))
  {
    QuarterReduced();
    var o: seq<nat> := [0, 0, 2];
    assert RandInt(1, 100, o) == Some(Draw(1, [0, 2]));
    assert Choice([true, false], [0, 2]) == Some(Draw(true, [2]));
    assert RandInt(2, 100, [2]) == Some(Draw(4, []));
  }

  lemma SearchAccepts(w: Writing, m: int, o: seq<nat>, a: Attempt, rest: seq<nat>)
    requires AttemptDraw(w, m, o) == Some(Draw(a, rest)) && Accepted(a)
    ensures FractionSearch(w, m, o) == Some((ProblemText(a.numerator, a.denominator), a.decimalValue + ", " + a.decimalType))
  {
  }

  /** The draws 1, negate, 4 pose -1/4 and answer "-1.75": the floored integer part -1
      with the digits of the remainder 3/4, where -0.25 is meant. */
  lemma NegativeDrawMisread()
    ensures FractionSearch(Floored, 4, [0, 0, 2]) == Some((ProblemText(-1, 4), "-1.75" + ", " + "terminating decimal"))
  {
    NegativeQuarter();
    QuarterDrawn();
    NotErrorText("-1.75");
    SearchAccepts(Floored, 4, [0, 0, 2], Attempt(-1, 4, "-1.75", "terminating decimal"), []);
  }

  lemma DiffersAt(x: string, y: string, i: nat)
    requires i < |x| && i < |y| && x[i] != y[i]
    ensures x != y
  {
  }

  lemma SignLost(x: string, y: string)
    requires x == "-1.75" && y == "0.25"
    ensures x != "-" + y
  {
    DiffersAt("-1.75", "-" + "0.25", 1);
  }

  /** Negating the numerator does not just put a minus sign in front of the decimal. */
  lemma QuarterSignLost()
    ensures DecimalText(-1, 4, 4) != "-" + DecimalText(1, 4, 4)
  {
    NegativeQuarter();
    PositiveQuarter();
    SignLost(DecimalText(-1, 4, 4), DecimalText(1, 4, 4));
  }

  lemma SameText(x: string, y: string)
    requires |x| == |y| && forall i :: 0 <= i < |x| ==> x[i] == y[i]
    ensures x == y
  {
  }

  lemma SignAdded(t: string, u: string)
    requires t == "-" + u && u == "0.25"
    ensures t == "-0.25"
  {
    SameText("-" + "0.25", "-0.25");
  }

  /** Written with the sign in front, -1/4 is -0.25. */
  lemma SignedQuarter()
    ensures SignedDecimalText(-1, 4, 4) == "-0.25"
  {
    PositiveQuarter();
    NotErrorText("0.25");
    SignedNegative(-1, 4, 4);
    SignAdded(SignedDecimalText(-1, 4, 4), DecimalText(1, 4, 4));
  }

  lemma SignedQuarterDrawn()
    ensures AttemptDraw(SignInFront, 4, [0, 0, 2])
      == Some(Draw(Attempt(-1, 4, SignedDecimalText(-1, 4, 4), "terminating decimal"), []))
  {
    QuarterReduced();
    var o: seq<nat> := [0, 0, 2];
    assert RandInt(1, 100, o) == Some(Draw(1, [0, 2]));
    assert Choice([true, false], [0, 2]) == Some(Draw(true, [2]));
    assert RandInt(2, 100, [2]) == Some(Draw(4, []));
  }

  /** With the sign written in front, the same draws pose -1/4 and answer "-0.25". */
  lemma NegativeDrawSigned()
    ensures FractionSearch(SignInFront, 4, [0, 0, 2]) == Some((ProblemText(-1, 4), "-0.25" + ", " + "terminating decimal"))
  {
    SignedQuarter();
    SignedQuarterDrawn();
    NotErrorText("-0.25");
    SearchAccepts(SignInFront, 4, [0, 0, 2], Attempt(-1, 4, "-0.25", "terminating decimal"), []);
  }
}
