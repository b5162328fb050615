/** The unicode formatter on small trees: products and quotients take their glyphs, a
    power raises its exponent, a chained power brackets its inner base, a two-digit
    exponent has no superscript key, and three operands with no operator never leave the
    collapse loop. */
module FormatterExamples {
  import opened Unicodes
  import opened ExprTree
  import opened Rebuild
  import opened Formatter
  import opened Precedence

  /** A digit is a plain operand; as a token it is a key of `SUPERSCRIPT_NUMBERS`, so
      its type is `Superscript`, not `Number`. */
  lemma DigitLeaf(t: string)
    requires |t| == 1 && IsAsciiDigit(t[0])
    ensures Written(Leaf(t))
    ensures IdentifyTokenType(t) == Superscript
  {
    assert t[1..] == [];
    assert AlnumChars(t);
    assert IsAlnum(t);
    IdentifyTokenTypeByShape(t);
  }

  const Product := Node("*", Leaf("2"), Node("+", Leaf("3"), Leaf("4")))
  const Power := Node("^", Leaf("2"), Leaf("3"))
  const ChainedPower := Node("^", Leaf("2"), Node("^", Leaf("3"), Leaf("2")))
  const TwoDigitPower := Node("^", Leaf("2"), Leaf("10"))

  lemma RenderProduct()
    ensures Render(Term, Product) == Returns("(2 " + [MultiplicationSign] + " (3 + 4))")
  {
    assert "(" + "3" + " " + "+" + " " + "4" + ")" == "(3 + 4)";
    assert Render(Term, Product.right) == Returns("(3 + 4)");
    assert "(" + "2" + " " + [MultiplicationSign] + " " + "(3 + 4)" + ")"
      == "(2 " + [MultiplicationSign] + " (3 + 4))";
  }

  lemma RenderPower()
    ensures Render(Term, Power) == Returns("2\U{B3}")
  {
    DigitLeaf("2");
    DigitLeaf("3");
    assert !HasSuperscript("3");
    assert "2" + SuperscriptNumbers["3"] == "2\U{B3}";
  }

  lemma RenderChainedPower()
    ensures Render(Term, ChainedPower) == Returns("(2\U{B3})\U{B2}")
  {
    RenderInnerSquare();
    DigitLeaf("2");
    RaiseToSquaredThree();
  }

  /** The inner power `3 ^ 2` renders as `3²`. */
  lemma RenderInnerSquare()
    ensures Render(Term, ChainedPower.right) == Returns("3\U{B2}")
  {
    DigitLeaf("3");
    DigitLeaf("2");
    assert !HasSuperscript("2");
    assert "3" + SuperscriptNumbers["2"] == "3\U{B2}";
  }

  /** Raising `2` to `3²` brackets the base with the first glyph and keeps the rest. */
  lemma RaiseToSquaredThree()
    ensures Term("^", "2", "3\U{B2}") == Returns("(2\U{B3})\U{B2}")
  {
    DigitLeaf("2");
    var x := "3\U{B2}";
    assert [x[1]] in SuperscriptNumbers.Values;
    assert AlnumChars(x[1..][1..]);
    assert IsAlnum(x);
    IdentifyTokenTypeByShape(x);
    assert "(" + "2" + SuperscriptNumbers[[x[0]]] + ")" + x[1..] == "(2\U{B3})\U{B2}";
  }

  lemma RenderTwoDigitPower()
    ensures Render(Term, TwoDigitPower) == KeyError("10")
  {
    DigitLeaf("2");
    var t := "10";
    assert t[1..][1..] == [];
    assert AlnumChars(t);
    IdentifyTokenTypeByShape(t);
    assert !HasSuperscript(t);
    assert t !in SuperscriptNumbers;
  }

  lemma ProductWritten()
    ensures Written(Product)
  {
    DigitLeaf("2");
    DigitLeaf("3");
    DigitLeaf("4");
  }

  lemma StripProduct()
    ensures StripOuter("(2 " + [MultiplicationSign] + " (3 + 4))") == "2 " + [MultiplicationSign] + " (3 + 4)"
  {
    var v := "(2 " + [MultiplicationSign] + " (3 + 4))";
    assert v[0] == '(' && v[|v| - 1] == ')';
    assert v[1..|v| - 1] == "2 " + [MultiplicationSign] + " (3 + 4)";
  }

  /** `2 * (3 + 4)` is shown as `2 × (3 + 4)`. */
  lemma FormatProduct()
    ensures FormatUnicode(FullParen(Product)) == Returns("2 " + [MultiplicationSign] + " (3 + 4)")
  {
    ProductWritten();
    FormatFullParen(Product);
    RenderProduct();
    StripProduct();
  }

  /** `2 ^ 3` is shown as `2³`. */
  lemma FormatPower()
    ensures FormatUnicode(FullParen(Power)) == Returns("2\U{B3}")
  {
    DigitLeaf("2");
    DigitLeaf("3");
    FormatFullParen(Power);
    RenderPower();
  }

  /** `2 ^ (3 ^ 2)` is shown as `(2³)²`, which reads as `(2 ^ 3) ^ 2`. */
  lemma FormatChainedPower()
    ensures FormatUnicode(FullParen(ChainedPower)) == Returns("(2\U{B3})\U{B2}")
  {
    DigitLeaf("2");
    DigitLeaf("3");
    FormatFullParen(ChainedPower);
    RenderChainedPower();
  }

  /** `2 ^ 10`: "10" is no key of `SUPERSCRIPT_NUMBERS`. */
  lemma FormatTwoDigitExponent()
    ensures FormatUnicode(FullParen(TwoDigitPower)) == KeyError("10")
  {
    DigitLeaf("2");
    var t := "10";
    assert t[1..][1..] == [];
    assert AlnumChars(t);
    FormatFullParen(TwoDigitPower);
    RenderTwoDigitPower();
  }

  /** Three operands and no operator: the loop resets its index forever. */
  lemma CollapseNoOperator()
    ensures Collapse(Term, ["1", "2", "3"]) == Hangs
  {
    var ts := ["1", "2", "3"];
    assert !IsOp(ts[0]);
    assert FirstPattern(ts, 0) == FirstPattern(ts, 1);
  }
}
