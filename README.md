# Math worksheet generator: expression engine and fraction arithmetic

This project models the computational core of a generator of printable math
worksheets. It has four parts.

- **The expression engine** (`utils/expression.py`, class `Expression`). It holds
  validated settings:
  - nesting depth, difficulty, frequency of powers;
  - whether negative results are allowed;
  - lower and upper bounds on results.

  Its conversions and checks are:
  - a tokenizer that folds a unary minus into the following operand;
  - two shunting-yard converters (infix to postfix and infix to prefix) over one precedence table in which `^` is right-associative;
  - two stack rebuilders, prefix to fully bracketed infix and postfix to minimally bracketed infix;
  - a postfix evaluator that refuses, rather than approximates, any result that is not a whole number, is negative when that is forbidden, or falls outside the bounds;
  - a formatter that collapses the prefix form into a display string with `×`, `÷` and superscript exponents.
- **The token classifier** (`utils/unicodes.py`, `identify_token_type`) and the tables it reads.
- **The order-of-operations worksheet** (`order_of_operations.py`):
  - the parser for the list of allowed operators;
  - the recursive random expression generator;
  - the retry loop that keeps an expression only when the evaluator gives a whole answer.
- **Fraction arithmetic** (`utils/fractions.py`) and the **fractions-as-decimals worksheet**
  (`writing_fractions_as_decimals.py`). This covers:
  - reduction to lowest terms;
  - the test for a terminating decimal (the denominator has no prime factor other than 2 and 5);
  - LaTeX display of a fraction;
  - long division with remainder-cycle detection, which writes the repeating block under `\overline{}`;
  - the worksheet's retry loop.

  The fractions-as-decimals worksheet writes a negative fraction wrongly (see
  "## Findings"). Its draws are defined for both writings, `Floored` (the source as
  written) and `SignInFront` (corrected). The worksheet class follows the source as
  written; the corrected writing is defined and proved beside it.

The model has the following layout.
- **Modules holding pure definitions:**
  - `Text`: splitting on whitespace, joining, `str` of an integer;
  - `Unicodes`;
  - `FloatSyntax`: the strings Python's `float()` accepts;
  - `Tokenizer`;
  - `Shunting`;
  - `Scans`: the shunting and tokenizing scans read from the front of their input;
  - `Precedence`: the standard reading of an infix text (precedence, associativity,
    brackets, signed literals) and the proof that both converters compute it;
  - `ExprTree`: parsing a postfix or prefix token list to a tree;
  - `Rebuild`;
  - `Evaluation`;
  - `Pipeline`: the methods that compose the others;
  - `Formatter`;
  - `Fractions`.
- **Classes whose methods update fields or run loops:**
  - `Expression` in `ExpressionEngine`;
  - `OrderOfOperations`;
  - `WritingFractionsAsDecimals`.

  Every method is proved equal to the pure definition. The lemmas then state what the definitions mean:
  - conversion outcomes are characterised exactly, both when they succeed and when they fail;
  - every converter is tied to a parse tree: any infix text that reads as a tree under
    the usual precedence rules (with `^` right-associative) converts to that tree's
    postfix and prefix forms, whatever brackets it carries;
  - a tree's full bracketing survives every conversion;
  - the evaluator computes the exact value of the tree;
  - each generated expression stands for a tree, and the posed answer is its exact value;
  - long division keeps the value of the fraction and repeats its period forever.

Error strings of the source (`"Error: ..."`) are modelled as error values of a
`Result`. Where a string result is returned, the message text is modelled too, so that
the feed-back of an error message into the next stage behaves as in the source.
Randomness is a finite sequence of numbers (an oracle) passed in. A draw from an exhausted oracle yields `None`.

Two further points about the source:
- `evaluate_infix` hands an error message from `infix_to_postfix` on to `evaluate_postfix`, which reports it as "not enough operands". `Pipeline.EvaluateInfixOfRefused` states this.
- The formatter writes `2 ^ 3 ^ 2`, which is `2^(3^2)`, as `(2³)²`. `FormatterExamples.FormatChainedPower` states this. For the expressions the generator can produce and the evaluator accepts, the only such chains are `b ^ 2 ^ 2`, and there both readings agree.

## Model

| member | source | states |
|---|---|---|
| ExpressionEngine.Expression.constructor | utils/expression.py:18-25 | the default settings: nesting 2, difficulty 0.2, frequency 0.5, negation "No", bounds -1000 and 1000 |
| ExpressionEngine.Expression.SetNumberOfNested | utils/expression.py:31-35 | accepted exactly for an int >= 1, which is then stored; otherwise the error message, with nothing changed |
| ExpressionEngine.Expression.SetDifficultyLevel | utils/expression.py:41-45 | accepted exactly for a number in [0, 1]; otherwise the error message, with nothing changed |
| ExpressionEngine.Expression.SetFrequencyExponential | utils/expression.py:51-55 | accepted exactly for a number in [0, 1]; otherwise the error message, with nothing changed |
| ExpressionEngine.Expression.SetRuleNegation | utils/expression.py:61-65 | accepted exactly for "Yes" or "No"; otherwise the error message, with nothing changed |
| ExpressionEngine.Expression.SetRuleLowerUpperLimit | utils/expression.py:71-94 | accepted exactly for a pair of ints with lower < upper, which are stored; otherwise the matching error message, with nothing changed |
| ExpressionEngine.Expression.CurrentRules | utils/expression.py:443-449 | the negation rule and bounds the evaluator reads are the object's current fields |
| ExpressionEngine.Expression.TokenizeExpression | utils/expression.py:96-181 | the index-walking loop yields exactly the token list of the tokenizer's definition |
| ExpressionEngine.Expression.OperandRun | utils/expression.py:156-169 | the inner loop stops at the end of the run of operand characters |
| Tokenizer.OperandEnd | utils/expression.py:156-169 | the run end: every character before it is an operand character, the one at it is not |
| Tokenizer.TokenizeFromSpec | utils/expression.py:107-179 | the tokens, joined, are the input with whitespace removed, and no token is empty |
| Tokenizer.TokenizeConcat | utils/expression.py:107-179 | every token is non-empty and well shaped, and the tokens joined are the input without whitespace |
| Tokenizer.TokenizeMergesSignsInPlace | utils/expression.py:114-154 | a token starting with `-` and longer than one character occurs only at the start or right after `(` or an operator |
| Tokenizer.TokenizeRunStep | utils/expression.py:114-169 | one step over a sign or operand run: a unary `-` with no operand after it stays a lone `-`, otherwise the whole run becomes one token |
| Tokenizer.TokenizeLeadingSign | utils/expression.py:114-154 | `"-5 + 3"` gives `-5`, `+`, `3` |
| Tokenizer.TokenizeSignAfterOperator | utils/expression.py:114-154 | `"2 - -3"` gives `2`, `-`, `-3` |
| Tokenizer.TokenizeSignAfterParen | utils/expression.py:114-154 | `"(-4)"` gives `(`, `-4`, `)` |
| Tokenizer.TokenizeLoneSign | utils/expression.py:147-150 | `"2 * - 3"` keeps the `-` apart: `2`, `*`, `-`, `3` |
| Tokenizer.TokenizeIndentedMinus | utils/expression.py:114-125 | a `-` after leading whitespace is not at index 0 and stays binary: `" -5"` gives `-`, `5` |
| Unicodes.IdentifyTokenTypeByShape | utils/unicodes.py:33-45 | each of the six answers holds exactly for its shape of token (one operator character, one bracket, one ASCII digit, `10`..`16`, another alphanumeric string, anything else), so the answers are exclusive and cover every token |
| Unicodes.SuperscriptKeys | utils/unicodes.py:2-5 | the superscript table's keys are exactly the ten single digits |
| Unicodes.SubscriptKeys | utils/unicodes.py:7-12 | the subscript table's keys are the single digits and `10`..`16` |
| Unicodes.OperatorStrings | utils/unicodes.py:30 | the operator table holds exactly the one-character operators `+ - * / ^ × ⋅ ÷` |
| Unicodes.BracketStrings | utils/unicodes.py:31 | the bracket table holds exactly the six one-character brackets |
| Unicodes.SuperscriptGlyphsDistinct | utils/unicodes.py:2-5 | different digits have different superscript glyphs |
| Unicodes.SuperscriptGlyphIsDigit | utils/unicodes.py:2-5 | every superscript glyph is one superscript digit character |
| Unicodes.CharClassesDisjoint | utils/unicodes.py:30-31 | operator, bracket and alphanumeric characters are three disjoint classes |
| FloatSyntax.IntTextIsFloatText | utils/expression.py:183-193 | every integer literal is accepted by `float()`, so it is numeric |
| FloatSyntax.SymbolNotFloatText | utils/expression.py:183-193 | a single non-digit character is not numeric |
| Shunting.SymbolsAreNotNumeric | utils/expression.py:183-193 | an operator or bracket is never numeric |
| Shunting.PrecedenceTies | utils/expression.py:9-14 | every operator has precedence at least 1, and the top precedence 3 belongs to `^` alone |
| Shunting.Kept | utils/expression.py:228-233 | the popping loop stops below exactly the operators that yield to the incoming one |
| Shunting.ShuntTokenProduces | utils/expression.py:216-236 | one token is accepted exactly when it is valid and closes no bracket that was not opened, and the state then accounts for every token so far |
| Shunting.DepthNonNegative | utils/expression.py:238-242 | an operator stack holds a `(` exactly when its bracket depth is positive |
| Shunting.ShuntFromOutcome | utils/expression.py:216-236 | the token loop succeeds exactly when no prefix of the tokens closes more brackets than it opens and every token is valid; a refused token is an invalid one from the input |
| Shunting.DrainOutcome | utils/expression.py:238-244 | draining the stack succeeds exactly when every bracket is closed; the output then keeps the operands in input order and holds every non-bracket token once |
| Shunting.ShuntOutcome | utils/expression.py:195-244 | infix to postfix succeeds exactly on valid, balanced tokens; the output keeps operand order, is a permutation of the non-bracket tokens, and holds only numbers and operators |
| Shunting.ShuntPrefixOutcome | utils/expression.py:246-295 | the same for infix to prefix |
| Shunting.InfixConvertersAgree | utils/expression.py:195-295 | both converters succeed on the same strings, keep operands in order, emit the same multiset of tokens, and report mismatched brackets on valid but unbalanced tokens |
| Shunting.MirrorBalanced | utils/expression.py:252-270 | reversing the tokens and swapping the bracket kinds keeps them balanced both ways |
| Shunting.MirrorMirror | utils/expression.py:252-270 | reversing and swapping twice gives the tokens back |
| Shunting.PrefixOfMirror | utils/expression.py:293-295 | reversing the postfix output of the mirrored tokens keeps operand order and the multiset |
| Shunting.MirrorHolds | utils/expression.py:284-286 | a token refused on the mirrored tokens occurs in the input |
| Shunting.ShuntChain | utils/expression.py:226-233 | `a o1 b o2 c` becomes `a b o1 c o2` when `o1` yields to `o2`, else `a b c o2 o1`: left association for equal precedence, right for `^` |
| Shunting.ShuntPrefixChain | utils/expression.py:278-283 | the prefix form of `a o1 b o2 c` |
| ShuntingExamples.PostfixOfChainedPower | utils/expression.py:195-244 | `"2 ^ 3 ^ 2"` gives `2 3 2 ^ ^` |
| ShuntingExamples.PrefixOfChainedPower | utils/expression.py:246-295 | `"2 ^ 3 ^ 2"` gives `^ 2 ^ 3 2` |
| ShuntingExamples.PostfixOfChainedMinus | utils/expression.py:195-244 | `"8 - 3 - 2"` gives `8 3 - 2 -` |
| ShuntingExamples.PrefixOfChainedMinus | utils/expression.py:246-295 | `"8 - 3 - 2"` gives `- - 8 3 2` |
| EngineExamples.UnclosedBracket | utils/expression.py:238-241 | `"(2 + 3"` is refused for mismatched brackets by both converters |
| EngineExamples.UnopenedBracket | utils/expression.py:220-225 | `"2 + 3)"` is refused for mismatched brackets by both converters |
| EngineExamples.MismatchRefused | utils/expression.py:216-241 | valid but unbalanced tokens are refused for mismatched brackets by both converters |
| ExpressionEngine.Expression.ShuntScan | utils/expression.py:216-236 | the token loop yields exactly the converter's definition |
| ExpressionEngine.Expression.PopYieldingLoop | utils/expression.py:228-233 | the pop loop moves exactly the yielding operators to the output |
| ExpressionEngine.Expression.PopToOpenLoop | utils/expression.py:220-225 | popping to `(` moves the operators above the last `(` to the output in stack order |
| ExpressionEngine.Expression.CloseBracket | utils/expression.py:220-225 | a `)` is handled as the definition says, including the unmatched case |
| ExpressionEngine.Expression.DrainLoop | utils/expression.py:238-242 | draining the stack is handled as the definition says, including a left-over `(` |
| ExpressionEngine.Expression.InfixToPostfix | utils/expression.py:195-244 | the method returns the joined postfix text or the error message of the definition; a text that reads as a tree under the usual precedence rules gives that tree's postfix form |
| ExpressionEngine.Expression.InfixToPrefix | utils/expression.py:246-295 | the method returns the joined, reversed prefix text or the error message of the definition; a text that reads as a tree gives that tree's prefix form |
| Precedence.ShuntReading | utils/expression.py:195-244 | the tokens of a text that reads as a tree (in either scan direction) shunt to exactly the tree's postfix form: higher precedence binds first, equal precedence associates to the left except `^`, brackets group |
| Precedence.MirrorShapeReads | utils/expression.py:252-270 | reversing a text that reads left to right, with brackets swapped, gives a text that reads right to left as the mirrored tree |
| Precedence.ShuntPrefixReading | utils/expression.py:246-295 | the tokens of a text that reads as a tree shunt, through the mirrored tokens, to exactly the tree's prefix form |
| Precedence.TokenizeReading | utils/expression.py:96-181 | a text that reads as a tree, signed literals included, tokenizes to its operands, operators and brackets in order |
| Precedence.ConvertReading | utils/expression.py:195-295 | a text that reads as a tree converts to exactly the tree's postfix and prefix forms |
| Precedence.SpelledWritten | utils/expression.py:96-181 | a tree of unsigned operand words is a tree of operand tokens |
| Precedence.MinShapeReads | utils/expression.py:330-388 | the minimal bracketing of a tree with operand-token leaves (signed literals included) reads as that tree |
| Precedence.FullShapeReads | utils/expression.py:297-328 | the full bracketing of such a tree reads as that tree |
| Precedence.ConvertMinParen | utils/expression.py:195-295 | the minimally bracketed text of such a tree converts to exactly its postfix and prefix forms |
| Precedence.ConvertFullParen | utils/expression.py:195-295 | the fully bracketed text of such a tree converts to exactly its postfix and prefix forms |
| Precedence.InsertReads | utils/expression.py:195-244 | appending ` op a` to a text that reads as a tree gives a text that reads as the tree with `a` attached where the precedence rules place it |
| Precedence.IntOperand | utils/expression.py:114-169 | `str` of any int, negative ones included, is one operand token |
| ExprTree.ParsePostfixExactly | utils/expression.py:341-388 | a postfix list parses to a tree exactly when it is that tree's postfix form |
| ExprTree.ParsePrefixExactly | utils/expression.py:299-328 | a prefix list parses to a tree exactly when it is that tree's prefix form |
| ExprTree.PostfixTreesSound | utils/expression.py:341-385 | every stack of trees built from postfix tokens spells those tokens |
| ExprTree.PrefixTreesSound | utils/expression.py:299-322 | every stack of trees built from reversed prefix tokens spells those tokens |
| Rebuild.PrefixToInfixMeaning | utils/expression.py:297-328 | prefix to infix succeeds exactly when the words parse to a tree, fails with the same error otherwise, and yields the tree fully bracketed, outer pair included |
| Rebuild.PrefixToInfixOfTree | utils/expression.py:297-328 | the prefix words of a tree rebuild to its fully bracketed text |
| Rebuild.PostfixToInfixMeaning | utils/expression.py:330-388 | postfix to infix succeeds exactly when the words parse to a tree, fails with the same error otherwise, and yields the tree with minimal brackets |
| Rebuild.PostfixToInfixOfTree | utils/expression.py:330-388 | the postfix words of a tree rebuild to its minimally bracketed text |
| Rebuild.PrefixInfixScanTracks | utils/expression.py:301-319 | the string stack of the rebuilder is the full bracketing of the tree stack, step for step |
| Rebuild.PostfixInfixScanTracks | utils/expression.py:343-382 | the string-and-precedence stack of the rebuilder is the minimal bracketing of the tree stack, step for step |
| EngineExamples.PostfixMinimalBrackets | utils/expression.py:363-376 | `"2 3 4 + *"` rebuilds to `2 * (3 + 4)` |
| EngineExamples.PrefixFullBrackets | utils/expression.py:310-314 | `"* 2 + 3 4"` rebuilds to `(2 * (3 + 4))` |
| EngineExamples.SignedLiteralRefused | utils/expression.py:317-319 | both rebuilders refuse `-5` as an invalid token |
| EngineExamples.TwoPartsLeft | utils/expression.py:321-322 | both rebuilders report too many operands for `"2 3"` |
| EngineExamples.OnePartForOperator | utils/expression.py:308-309 | an operator with one operand under it is reported as not enough operands |
| ExpressionEngine.Expression.PrefixToInfix | utils/expression.py:297-328 | the method returns the rebuilt text or the error message of the definition |
| ExpressionEngine.Expression.PostfixToInfix | utils/expression.py:330-388 | the method returns the rebuilt text or the error message of the definition |
| Evaluation.Apply | utils/expression.py:424-439 | an operator step is refused exactly for an unknown operator, a zero divisor, an exponent above 5 or zero to a negative power; otherwise it computes the exact result, a float exactly when an operand is one, after division, or after a negative power |
| Evaluation.Settle | utils/expression.py:441-450 | a result is pushed exactly when it is whole (if a float), non-negative under "No" and within the bounds, and then as an int within the bounds equal to it |
| Evaluation.DigitLiteral | utils/expression.py:415 | a one-digit token is an integer literal and is pushed as that digit's float |
| Evaluation.EvaluateOneOperation | utils/expression.py:409-457 | `"a b o"` with digits `a`, `b` evaluates to one operator step on their floats |
| Evaluation.CombineMeaning | utils/expression.py:424-449 | one operator step succeeds exactly when the exact result is whole, allowed in sign and within bounds, and pushes that value as an int |
| Evaluation.EvaluatePostfixOfTree | utils/expression.py:398-457 | evaluating the postfix words of a tree gives the tree's value or its first refusal |
| Evaluation.EvalTreeMeaning | utils/expression.py:424-457 | a tree evaluates exactly when every step is admissible, to its exact value, as an int within bounds for a compound and as the parsed float for a literal |
| Evaluation.EvalTokensChecked | utils/expression.py:442-449 | every int on the stack satisfies the sign rule and the bounds |
| Evaluation.EvaluatePostfixChecked | utils/expression.py:442-457 | an int answer lies within the bounds and is non-negative under "No" |
| EngineExamples.DivisionByZeroRefused | utils/expression.py:430-432 | `"4 0 /"` is refused for division by zero |
| EngineExamples.LargeExponentRefused | utils/expression.py:434-436 | `"5 6 ^"` is refused for an exponent above 5 |
| EngineExamples.FractionRefused | utils/expression.py:442-443 | `"3 2 /"` is refused, the result 1.5 not being whole |
| EngineExamples.NegativeRefused | utils/expression.py:445-446 | `"3 5 -"` is refused under "No" |
| EngineExamples.NegativeAllowed | utils/expression.py:445-449 | `"3 5 -"` gives the int -2 under "Yes" when -2 is within bounds |
| EngineExamples.OutOfBoundsRefused | utils/expression.py:448-449 | `"9 9 *"` is refused when the upper bound is below 81 |
| EngineExamples.TwoNumbersLeft | utils/expression.py:452-453 | `"2 3"` leaves too many operands |
| EngineExamples.OperatorAfterOneNumber | utils/expression.py:418-419 | `"2 +"` has not enough operands |
| EngineExamples.LoneLiteralUnchecked | utils/expression.py:455-457 | a lone literal is returned as the parsed float, unchecked |
| ExpressionEngine.Expression.EvaluatePostfix | utils/expression.py:398-457 | the stack loop returns exactly the evaluator's definition under the current settings |
| ExpressionEngine.Expression.EvaluateInfix | utils/expression.py:390-392 | evaluating infix is converting to postfix, then evaluating; a text that reads as an evaluable tree evaluates to the tree's value under the current settings |
| ExpressionEngine.Expression.EvaluatePrefix | utils/expression.py:394-396 | evaluating prefix is rebuilding infix, then evaluating it; the prefix text of an evaluable tree of unsigned operands evaluates to the tree's value |
| Pipeline.EvaluateReading | utils/expression.py:390-392 | a text that reads as an evaluable tree evaluates to the tree's value or its first refusal |
| Pipeline.WrittenWords | utils/expression.py:244 | the postfix and prefix tokens of a tree of operand tokens are words, so joining and splitting keeps them |
| Pipeline.EvaluationsAgree | utils/expression.py:390-457 | for any tree of operand tokens, its postfix text and its fully and minimally bracketed infix evaluate to the tree's value, and so does its prefix text when no leaf is signed |
| Pipeline.EvaluatePrefixMeaning | utils/expression.py:394-396 | the prefix text of a tree evaluates exactly when the tree is admissible, to its exact value |
| Pipeline.PrefixTextRoundTrip | utils/expression.py:195-388 | prefix of fully bracketed infix rebuilds to it; postfix of it rebuilds to its minimal bracketing; and the minimal bracketing rebuilt from postfix converts back to the same postfix text |
| Pipeline.EvaluateInfixOfRefused | utils/expression.py:390-392 | an infix string the converter refuses evaluates to "not enough operands", since its error text is fed on |
| Pipeline.EvaluatePrefixOfRefused | utils/expression.py:394-396 | likewise for a prefix string the rebuilder refuses |
| Pipeline.MessagesAreMessages | utils/expression.py:225-385 | every error text the converters return starts `Error:` |
| Formatter.InfixToUnicodeFormat | utils/expression.py:459-515 | the in-place collapse loop returns exactly the formatter's definition |
| Formatter.CollapseTokens | utils/expression.py:470-506 | the rewriting of the token list in place equals the collapse of the definition |
| Formatter.InPlaceCollapse | utils/expression.py:484-504 | assigning the new term and deleting the two tokens after it is replacing the triple by the term |
| Formatter.FirstPattern | utils/expression.py:471-480 | the scan finds the leftmost operator followed by two non-operators |
| Formatter.CollapseTree | utils/expression.py:470-506 | the collapse of a tree's prefix list is its rendering, a missing superscript, or a loop that never ends |
| Formatter.PowerTerm | utils/expression.py:485-493 | a rendered power always shows a superscript digit; a failed lookup names a key that is not a single digit; the rendering never diverges |
| Formatter.Term | utils/expression.py:485-499 | a non-power term is always built and bracketed, with `+` and `-` written as they are; only a power can fail, on a key that is not a single digit |
| Formatter.TermIsOperand | utils/expression.py:481-506 | a built term is never an operator token, so it can be an operand of the next collapse |
| Formatter.WrittenShaped | utils/expression.py:481 | the prefix tokens of a tree of operand tokens are operators exactly at its nodes |
| Formatter.FormatReading | utils/expression.py:459-515 | a text that reads as a tree formats to the tree's rendering with one outer bracket pair stripped, or fails on a missing superscript |
| Formatter.FormatFullParen | utils/expression.py:459-515 | the fully bracketed text of a tree of operand tokens formats to its rendering with one outer bracket pair stripped, or fails on a missing superscript |
| Formatter.FormatMinParen | utils/expression.py:459-515 | the same for the minimally bracketed text |
| Formatter.FormatRefused | utils/expression.py:463-465 | a string the prefix converter refuses formats to that converter's error text |
| FormatterExamples.FormatProduct | utils/expression.py:484-513 | `2 * (3 + 4)` formats as `2 × (3 + 4)` |
| FormatterExamples.FormatPower | utils/expression.py:486-493 | `2 ^ 3` formats as `2³` |
| FormatterExamples.FormatChainedPower | utils/expression.py:486-493 | `2 ^ 3 ^ 2` formats as `(2³)²` |
| FormatterExamples.FormatTwoDigitExponent | utils/expression.py:486-493 | an exponent of two digits has no superscript entry and fails |
| FormatterExamples.CollapseNoOperator | utils/expression.py:470-476 | three tokens with no operator never collapse |
| EngineExamples.FormatNothing | utils/expression.py:507-508 | an empty expression gives "no expression found" |
| OrderOfOperations.CheckedOperatorsMeaning | basic_algebra/order_of_operations/order_of_operations.py:55-84 | the operators are accepted exactly when the parsed list is non-empty and holds only `+ - * / ^`; otherwise the error names the invalid ones |
| OrderOfOperations.SplitCommasCharacters | basic_algebra/order_of_operations/order_of_operations.py:59-63 | with commas, the parsed list is the characters of the string without commas |
| OrderOfOperations.TextOperators | basic_algebra/order_of_operations/order_of_operations.py:55-66 | a string is parsed to its characters with blanks and commas dropped |
| OrderOfOperations.InvalidOperatorsEmpty | basic_algebra/order_of_operations/order_of_operations.py:80-82 | the list of invalid operators is empty exactly when all operators are allowed |
| OrderOfOperations.OrderOfOperations.constructor | basic_algebra/order_of_operations/order_of_operations.py:23-26 | the title, all five operators, and the engine's default settings |
| OrderOfOperations.OrderOfOperations.SetAllowedOperators | basic_algebra/order_of_operations/order_of_operations.py:45-84 | the list is stored exactly when accepted; otherwise the error, with nothing changed |
| OrderOfOperations.DrawPair | basic_algebra/order_of_operations/order_of_operations.py:117-123 | the two drawn operators are allowed ones and not both `^` |
| OrderOfOperations.OnlyPowerNeverDraws | basic_algebra/order_of_operations/order_of_operations.py:117-123 | with `^` the only operator the redraw never ends |
| OrderOfOperations.OtherOperatorDraws | basic_algebra/order_of_operations/order_of_operations.py:117-123 | any other operator ends the redraw |
| OrderOfOperations.OrderOfOperations.DrawOperatorPair | basic_algebra/order_of_operations/order_of_operations.py:117-123 | the redraw loop equals its definition |
| OrderOfOperations.GenPieceFormed | basic_algebra/order_of_operations/order_of_operations.py:86-141 | a generated expression is well formed: leaves are `b ^ p` with 2 <= b <= 5 and 2 <= p <= 3 or a literal 1..10 negated exactly under "Yes", every `^` has a bare 2 or 3 on its right, and it is no deeper than the nesting allows |
| OrderOfOperations.LeafShapes | basic_algebra/order_of_operations/order_of_operations.py:90-100 | at the nesting depth a leaf is `b ^ p` with 2 <= b <= 5 and 2 <= p <= 3, drawn only when `^` is allowed, or a literal 1..10, negated exactly under "Yes" |
| OrderOfOperations.GeneratedBrackets | basic_algebra/order_of_operations/order_of_operations.py:136-141 | the generated text has balanced brackets nested at most nesting - 1 deep |
| OrderOfOperations.CompoundText | basic_algebra/order_of_operations/order_of_operations.py:136-141 | a compound is bare at depth 0 and wrapped in one bracket pair below |
| OrderOfOperations.OrderOfOperations.GenerateRandomExpression | basic_algebra/order_of_operations/order_of_operations.py:86-141 | the recursive method equals the generator's definition at every depth |
| OrderOfOperations.OrderOfOperations.LeafExpression | basic_algebra/order_of_operations/order_of_operations.py:90-100 | the leaf branch equals its definition |
| OrderOfOperations.OrderOfOperations.PairExpression | basic_algebra/order_of_operations/order_of_operations.py:106-115 | the two-operand branch equals its definition |
| OrderOfOperations.OrderOfOperations.TripleExpression | basic_algebra/order_of_operations/order_of_operations.py:116-134 | the three-operand branch equals its definition |
| OrderOfOperations.OrderOfOperations.OperandExpression | basic_algebra/order_of_operations/order_of_operations.py:110-113 | the part after an operator, `2` or `3` after `^` and a generated part otherwise, equals its definition |
| OrderOfOperations.OrderOfOperations.TripleText | basic_algebra/order_of_operations/order_of_operations.py:124-134 | the three parts drawn after the operator pair equal their definition |
| OrderOfOperations.InsertIntAtoms | basic_algebra/order_of_operations/order_of_operations.py:115 | attaching an int literal keeps every operand an int literal |
| OrderOfOperations.AttachReads | basic_algebra/order_of_operations/order_of_operations.py:115 | writing `left op right` for texts that read as trees reads as the tree the precedence rules make of them, a bare power on the right being two operands |
| OrderOfOperations.PieceReads | basic_algebra/order_of_operations/order_of_operations.py:86-141 | the text of every generated piece reads as its tree, with int literals as operands, bracketed or bare |
| OrderOfOperations.IntAtomsTree | basic_algebra/order_of_operations/order_of_operations.py:147-150 | the tree of a generated text is evaluable and its postfix form starts with an int literal, never with `Error` |
| OrderOfOperations.PieceAnswer | basic_algebra/order_of_operations/order_of_operations.py:145-151 | a generated text has an int answer exactly when its tree is an operation every step of which is admissible, and the answer is the tree's exact value |
| OrderOfOperations.OrderOfOperations.IntResult | basic_algebra/order_of_operations/order_of_operations.py:147-151 | one attempt's check equals its definition; an accepted answer comes from a converted text and lies within the bounds, non-negative under "No" |
| OrderOfOperations.OrderOfOperations.Pose | basic_algebra/order_of_operations/order_of_operations.py:152-153 | a problem is posed exactly when the formatter returns; the answer text reads back as the value |
| OrderOfOperations.PosedPiece | basic_algebra/order_of_operations/order_of_operations.py:143-158 | an accepted attempt poses its piece: the answer is the exact value of its tree and the problem is the tree's unicode term followed by ` =` |
| OrderExamples.ChainedPowerReading | basic_algebra/order_of_operations/order_of_operations.py:106-115 | the piece `2 ^ 3` raised to 2 is written `2 ^ 3 ^ 2`, stands for `2 ^ (3 ^ 2)`, has the exact value 512, and is refused under any rules for its exponent 9 |
| OrderExamples.ProductOfPowerReading | basic_algebra/order_of_operations/order_of_operations.py:106-115 | `4` times the piece `2 ^ 3` is written `4 * 2 ^ 3`, stands for `4 * (2 ^ 3)` and has the value 32 |
| OrderOfOperations.IntAnswerMeaning | basic_algebra/order_of_operations/order_of_operations.py:147-151 | an accepted answer comes from a converted expression and lies within the bounds, non-negative under "No" |
| OrderOfOperations.RefusedIsSkipped | basic_algebra/order_of_operations/order_of_operations.py:147-149 | an expression the converter refuses starts `Error` and gives no answer |
| OrderOfOperations.SearchSkips | basic_algebra/order_of_operations/order_of_operations.py:145-156 | an expression with no int answer is skipped and the search goes on |
| OrderOfOperations.SearchStops | basic_algebra/order_of_operations/order_of_operations.py:145-156 | the first expression with an int answer is posed |
| OrderOfOperations.ProblemMeaning | basic_algebra/order_of_operations/order_of_operations.py:143-158 | a posed problem comes from a generated piece: its answer is `str` of the exact value of the piece's tree, within the bounds, and its text is the tree's unicode term followed by ` =` |
| OrderOfOperations.OrderOfOperations.GenerateProblem | basic_algebra/order_of_operations/order_of_operations.py:143-158 | the retry loop equals the search of the definition, and a posed problem is the unicode term of a generated piece's tree with the tree's exact value as answer |
| Fractions.FloorDiv | utils/fractions.py:97 | Python's floor division: the quotient times the divisor is the largest multiple at or below the dividend |
| Fractions.FloorMod | utils/fractions.py:98 | Python's remainder: the dividend is divisor times floor quotient plus it, and it has the divisor's sign |
| Fractions.IsTerminatingDecimal | utils/fractions.py:5-21 | true exactly for d <= 1 or when d has no prime factor other than 2 and 5 |
| Fractions.TerminatingMeaning | utils/fractions.py:5-21 | stripping twos and fives leaves 1 exactly when no other prime divides |
| Fractions.GcdDivides | utils/fractions.py:33 | the gcd divides both numbers |
| Fractions.GcdGreatest | utils/fractions.py:33 | every common divisor divides the gcd |
| Fractions.SimplifyMeaning | utils/fractions.py:23-43 | a zero numerator gives (0, 1); otherwise a positive denominator, lowest terms and the same value; a zero denominator gives (±1, 0) |
| Fractions.LatexFractionInjective | utils/fractions.py:83-86 | different fractions have different LaTeX texts, never `"0"` for a non-zero denominator |
| Fractions.Digit | utils/fractions.py:108-117 | every digit of the long division is in 0..9 |
| Fractions.RunsBound | utils/fractions.py:104-117 | the recorded remainders are distinct, non-zero and below the denominator, so the loop stops within den - 1 steps |
| Fractions.RunsDistinct | utils/fractions.py:108-112 | no remainder is recorded twice |
| Fractions.Stop | utils/fractions.py:108 | the loop stops within den - 1 steps, on a zero or a repeated remainder |
| Fractions.LongDivision | utils/fractions.py:104-117 | the loop ends at the stop position with that remainder, the digits so far, and the first position of a repeated remainder in the map |
| Fractions.DecimalText | utils/fractions.py:89-141 | the text is an error text exactly when the fraction is not whole and its digits, up to one period of the repeating block, are more than the bound |
| Fractions.ToLatexDecimal | utils/fractions.py:89-141 | the method returns the decimal text of the definition, covering the integer case, the two length errors and the two `\overline` forms |
| Fractions.ValueKept | utils/fractions.py:108-117 | after k digits, num · 10^k = den · (integer part · 10^k + digits) + remainder |
| Fractions.Repetend | utils/fractions.py:127-141 | after a repeated remainder the digits repeat with the recorded period forever |
| Fractions.TerminatingDividesPow10 | utils/fractions.py:5-21 | a denominator of twos and fives divides a power of ten |
| Fractions.EndsOnZeroTerminating | utils/fractions.py:121-126 | a reduced fraction whose division ends on zero has a terminating denominator |
| Fractions.TerminatingEndsOnZero | utils/fractions.py:121-126 | a terminating denominator makes the division end on zero |
| Fractions.TerminatingBranch | utils/fractions.py:108-126 | for a reduced fraction with den >= 2, the terminating branch is taken exactly when the denominator is terminating |
| WritingFractionsAsDecimals.WritingFractionsAsDecimals.constructor | rational_numbers/writing_fractions_as_decimals/writing_fractions_as_decimals.py:23-25 | the title and the bound 4 |
| WritingFractionsAsDecimals.WritingFractionsAsDecimals.ToDecimalString | rational_numbers/writing_fractions_as_decimals/writing_fractions_as_decimals.py:39-91 | the long-division decimal text with bound 4, as to_latex_decimal writes it, floor division included (as written, see Findings) |
| WritingFractionsAsDecimals.LabelMatchesExpansion | rational_numbers/writing_fractions_as_decimals/writing_fractions_as_decimals.py:112-117 | the "terminating" label of the reduced fraction is given exactly when its expansion terminates |
| WritingFractionsAsDecimals.AttemptMeaning | rational_numbers/writing_fractions_as_decimals/writing_fractions_as_decimals.py:101-118 | one attempt draws a numerator of magnitude 1..100 with either sign and a denominator 2..100, and labels and writes their reduced fraction |
| WritingFractionsAsDecimals.ProblemMeaning | rational_numbers/writing_fractions_as_decimals/writing_fractions_as_decimals.py:101-128 | a returned problem comes from a well-drawn attempt whose text is not an error and whose numerator differs from its denominator |
| WritingFractionsAsDecimals.AcceptedIsShort | rational_numbers/writing_fractions_as_decimals/writing_fractions_as_decimals.py:120-125 | an accepted fraction (its magnitude, when the sign is written in front) is whole or has an expansion within the bound |
| WritingFractionsAsDecimals.ProblemTextInjective | rational_numbers/writing_fractions_as_decimals/writing_fractions_as_decimals.py:127 | different fractions give different problem texts |
| WritingFractionsAsDecimals.WritingFractionsAsDecimals.GenerateProblem | rational_numbers/writing_fractions_as_decimals/writing_fractions_as_decimals.py:94-132 | the retry loop equals the search of the definition, with the fraction written as the source writes it (floored) |
| WritingFractionsAsDecimals.SignedDecimalMeaning | rational_numbers/writing_fractions_as_decimals/writing_fractions_as_decimals.py:47-91 | corrected writing of a signed fraction: independent of where the sign sits, the plain text for a non-negative fraction, and a `-` before the text of its magnitude for a negative one |
| FractionsExamples.NegativeDrawMisread | rational_numbers/writing_fractions_as_decimals/writing_fractions_as_decimals.py:101-128 | the draw -1/4 is answered `-1.75, terminating decimal` |
| FractionsExamples.QuarterSignLost | utils/fractions.py:97-126 | the text of -1/4 is not a `-` before the text of 1/4 |
| FractionsExamples.NegativeDrawSigned | rational_numbers/writing_fractions_as_decimals/writing_fractions_as_decimals.py:101-128 | with the sign in front the draw -1/4 is answered `-0.25, terminating decimal` |
| WritingFractionsAsDecimals.SignedShort | rational_numbers/writing_fractions_as_decimals/writing_fractions_as_decimals.py:120-121 | a signed text that is no error comes from a magnitude whose text is no error |
| FractionsExamples.SignedQuarter | rational_numbers/writing_fractions_as_decimals/writing_fractions_as_decimals.py:47-91 | the corrected text of -1/4 is `-0.25` |
| Randomness.RandInt | basic_algebra/order_of_operations/order_of_operations.py:92-96 | a drawn integer lies in the closed range and uses up the oracle |
| Randomness.Choice | basic_algebra/order_of_operations/order_of_operations.py:108 | a drawn item is one of the items |
| Text.SplitJoin | utils/expression.py:244 | joining words with spaces and splitting again gives the words back |
| FloatSyntax.IntToStringLiteral | basic_algebra/order_of_operations/order_of_operations.py:153 | `str` of any int is an integer literal whose value is that int |
| FloatSyntax.DigitsArePart | utils/expression.py:183-193 | a non-empty run of ASCII digits is a digit part valued as its digits |
| Text.IntToStringInjective | basic_algebra/order_of_operations/order_of_operations.py:153 | different integers have different decimal texts |

## Left out

- Floating point: the evaluator works on exact numbers over integer literals. A literal `float()` would accept that is not an integer (`2.5`, `1e3`, `inf`, `nan`) gives the outcome `LiteralNotModelled`. Exact arithmetic also gives up the rounding of Python floats, which differs from it only above 2^53: for an integer literal that large, which the generator never produces (its literals are at most 10 in magnitude), and for a step on a float operand whose result is that large, which the bounds refuse unless they are set beyond 2^53.
- Evaluation: `0 ^ -n` raises `ZeroDivisionError` in Python. Here it is the outcome `ZeroToNegativePower`.
- The unicode formatter: a missing superscript (`KeyError`) and the loop that never ends are modelled as the outcomes `KeyError` and `Hangs`. No exception or divergence is modelled.
- Randomness: `random.randint`, `random.choice` and `random.random` are draws from a finite oracle. An exhausted oracle gives `None`, so the retry loops are total. Probabilities are not modelled.
- `print` calls, the PDF export and the `generate_practice` and `get_problem_answer` wrappers: output only.
- The title setters: they store a non-empty string and carry no logic beyond it.
- `generate_random_fraction` (utils/fractions.py:45-81): randomness over float arguments, and not part of the modelled core.
- `difficulty_level` and the nesting counters in the converters (utils/expression.py:202-214): stored or counted but never read.
- The unused `gcd_value` of the fractions worksheet: computed but never read.
- `str.isalnum` and `str.isspace` are restricted to ASCII letters and digits plus the ten superscript digits, and to ASCII whitespace. Other Unicode characters are not modelled.
- The glyph strings of utils/unicodes.py appear double-encoded in the file. The model uses the superscript digits those entries stand for (`⁰ ¹ ² ³ ⁴`..`⁹`).
- Fractions.ToLatexDecimal: requires a non-zero denominator; the source raises `ZeroDivisionError` there.
- The non-integer parts of the setters' argument types (a float nesting depth, a non-tuple limit) are one `Value` datatype. Python's `bool` as an `int` is not modelled.

## Findings

| source | as written | input that shows it | evidently intended | confidence | as-written member | corrected member |
|---|---|---|---|---|---|---|
| rational_numbers/writing_fractions_as_decimals/writing_fractions_as_decimals.py:47-48 | the integer part is `num // den` and the digits come from `num % den`, Python's floor operations, so a negative fraction is written as its floor plus a positive fraction | numerator 1 negated, denominator 4: the answer is `-1.75, terminating decimal` for -1/4 | a negative fraction written as `-` before its magnitude: `-0.25` | high; not executed | FractionsExamples.NegativeDrawMisread | WritingFractionsAsDecimals.SignedDecimalMeaning |
