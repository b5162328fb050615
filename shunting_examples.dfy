/** The converters on the inputs the engine's own documentation uses: `^` groups to the
    right, `-` to the left. */
module ShuntingExamples {
  import opened Results
  import opened Unicodes
  import opened Tokenizer
  import opened Shunting

  lemma DigitsAreNumeric(t: string)
    requires |t| == 1 && '0' <= t[0] <= '9'
    ensures IsNumeric(t)
  {
    assert IsAsciiDigit(t[0]) && t[1..] == [];
    assert AlnumChars(t[1..]);
    assert AlnumChars(t);
    assert IsAlnum(t);
  }

  lemma TokenizeChainedPower()
    ensures Tokenize("2 ^ 3 ^ 2") == ["2", "^", "3", "^", "2"]
  {
    var a := "2 ^ 3 ^ 2";
    assert a[0] == '2' && a[1] == ' ' && a[2] == '^' && a[3] == ' ' && a[4] == '3';
    assert a[5] == ' ' && a[6] == '^' && a[7] == ' ' && a[8] == '2';
    assert IsOperandChar('2') && IsOperandChar('3') && !IsOperandChar('^');
    TokenizeSpacedChain(a);
  }

  lemma TokenizeChainedMinus()
    ensures Tokenize("8 - 3 - 2") == ["8", "-", "3", "-", "2"]
  {
    var a := "8 - 3 - 2";
    assert a[0] == '8' && a[1] == ' ' && a[2] == '-' && a[3] == ' ' && a[4] == '3';
    assert a[5] == ' ' && a[6] == '-' && a[7] == ' ' && a[8] == '2';
    assert IsOperandChar('8') && IsOperandChar('3') && IsOperandChar('2') && !IsOperandChar('-');
    TokenizeSpacedChain(a);
  }

  /** `^` is right-associative: the later `^` is applied first. */
  lemma PostfixOfChainedPower()
    ensures InfixToPostfix("2 ^ 3 ^ 2") == Ok(["2", "3", "2", "^", "^"])
  {
    TokenizeChainedPower();
    DigitsAreNumeric("2");
    DigitsAreNumeric("3");
    assert !Yields(LeftToRight, "^", "^");
    ShuntChain(LeftToRight, "2", "^", "3", "^", "2");
  }

  /** In prefix form the first `^` takes the second power as its right operand. */
  lemma PrefixOfChainedPower()
    ensures InfixToPrefix("2 ^ 3 ^ 2") == Ok(["^", "2", "^", "3", "2"])
  {
    TokenizeChainedPower();
    DigitsAreNumeric("2");
    DigitsAreNumeric("3");
    assert Yields(RightToLeft, "^", "^");
    ShuntPrefixChain("2", "^", "3", "^", "2");
  }

  /** `-` is left-associative: the earlier `-` is applied first. */
  lemma PostfixOfChainedMinus()
    ensures InfixToPostfix("8 - 3 - 2") == Ok(["8", "3", "-", "2", "-"])
  {
    TokenizeChainedMinus();
    DigitsAreNumeric("8");
    DigitsAreNumeric("3");
    DigitsAreNumeric("2");
    assert Yields(LeftToRight, "-", "-");
    ShuntChain(LeftToRight, "8", "-", "3", "-", "2");
  }

  /** In prefix form the outer `-` takes `8 - 3` as its left operand. */
  lemma PrefixOfChainedMinus()
    ensures InfixToPrefix("8 - 3 - 2") == Ok(["-", "-", "8", "3", "2"])
  {
    TokenizeChainedMinus();
    DigitsAreNumeric("8");
    DigitsAreNumeric("3");
    DigitsAreNumeric("2");
    assert !Yields(RightToLeft, "-", "-");
    ShuntPrefixChain("8", "-", "3", "-", "2");
  }
}
