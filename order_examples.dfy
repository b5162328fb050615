/** The order-of-operations generator on two small pieces whose text does not read the
    way the piece nests: a bare power next to another operator is two operands. */
module OrderExamples {
  import opened Text
  import opened FloatSyntax
  import opened Shunting
  import opened ExprTree
  import opened Evaluation
  import opened Precedence
  import opened OrderOfOperations

  lemma SmallTexts()
    ensures IntToString(2) == "2" && IntToString(3) == "3" && IntToString(4) == "4"
  {
    assert NatToString(2) == [DigitChar(2)];
    assert NatToString(3) == [DigitChar(3)];
    assert NatToString(4) == [DigitChar(4)];
  }

  /** `2 ^ 3 ^ 2`, built as the power `2 ^ 3` raised to 2, reads as `2 ^ (3 ^ 2)`,
      whose exponent 9 the evaluator refuses under any rules. */
  lemma ChainedPowerReading(rules: Rules)
    ensures Body(Pair(PowerLeaf(2, 3), "^", NumberLeaf(2))) == "2 ^ 3 ^ 2"
    ensures PieceTree(Pair(PowerLeaf(2, 3), "^", NumberLeaf(2)))
      == Node("^", Leaf("2"), Node("^", Leaf("3"), Leaf("2")))
    ensures Exact(PieceTree(Pair(PowerLeaf(2, 3), "^", NumberLeaf(2)))) == 512
    ensures !Admissible(rules, PieceTree(Pair(PowerLeaf(2, 3), "^", NumberLeaf(2))))
  {
    SmallTexts();
    var x := Op("^", Atom("2"), Atom("3"));
    assert SubShape(PowerLeaf(2, 3)) == x;
    assert SubShape(NumberLeaf(2)) == Atom("2");
    assert Binding(x) == 3 && !LeftFits(LeftToRight, 3, "^");
    assert Insert(Atom("3"), "^", Atom("2")) == Op("^", Atom("3"), Atom("2"));
    var y := Op("^", Atom("2"), Op("^", Atom("3"), Atom("2")));
    assert Insert(x, "^", Atom("2")) == y;
    assert BodyShape(Pair(PowerLeaf(2, 3), "^", NumberLeaf(2))) == y;
    IntToStringLiteral(2);
    IntToStringLiteral(3);
    assert Exact(Node("^", Leaf("3"), Leaf("2"))) == 9;
  }

  /** `4 * 2 ^ 3`, the number 4 times the power `2 ^ 3`, reads as `4 * (2 ^ 3)`. */
  lemma ProductOfPowerReading()
    ensures Body(Pair(NumberLeaf(4), "*", PowerLeaf(2, 3))) == "4 * 2 ^ 3"
    ensures PieceTree(Pair(NumberLeaf(4), "*", PowerLeaf(2, 3)))
      == Node("*", Leaf("4"), Node("^", Leaf("2"), Leaf("3")))
    ensures Exact(PieceTree(Pair(NumberLeaf(4), "*", PowerLeaf(2, 3)))) == 32
  {
    SmallTexts();
    var x := Op("*", Atom("4"), Atom("2"));
    assert SubShape(NumberLeaf(4)) == Atom("4");
    assert SubShape(PowerLeaf(2, 3)) == Op("^", Atom("2"), Atom("3"));
    assert Insert(Atom("4"), "*", Atom("2")) == x;
    assert Binding(x) == 2 && !LeftFits(LeftToRight, 2, "^");
    assert Insert(Atom("2"), "^", Atom("3")) == Op("^", Atom("2"), Atom("3"));
    var y := Op("*", Atom("4"), Op("^", Atom("2"), Atom("3")));
    assert Insert(x, "^", Atom("3")) == y;
    assert BodyShape(Pair(NumberLeaf(4), "*", PowerLeaf(2, 3))) == y;
    IntToStringLiteral(2);
    IntToStringLiteral(3);
    IntToStringLiteral(4);
    assert Exact(Node("^", Leaf("2"), Leaf("3"))) == 8;
  }
}
