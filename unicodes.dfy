/** The symbol tables of the engine and the token classifier built on them
    (`identify_token_type`). Python's Unicode-wide `isalnum` is restricted here
    to ASCII letters and digits plus the ten superscript digits. */
module Unicodes {

  const MultiplicationSign: char := '\U{D7}'  // chr(215)
  const DotOperator: char := '\U{22C5}'       // chr(8901)
  const DivisionSign: char := '\U{F7}'        // chr(247)

  /** The superscript digits, indexed by their value. */
  const SuperscriptDigits: string :=
    ['\U{2070}', '\U{B9}', '\U{B2}', '\U{B3}', '\U{2074}',
     '\U{2075}', '\U{2076}', '\U{2077}', '\U{2078}', '\U{2079}']

  predicate IsAsciiDigit(c: char) { '0' <= c <= '9' }

  predicate IsAsciiLetter(c: char) { 'a' <= c <= 'z' || 'A' <= c <= 'Z' }

  /** One of the ten superscript digits: `⁰ ¹ ² ³` and the run `⁴`..`⁹`. */
  predicate IsSuperscriptDigit(c: char) {
    c == '\U{2070}' || c == '\U{B9}' || c == '\U{B2}' || c == '\U{B3}' || '\U{2074}' <= c <= '\U{2079}'
  }

  /** The test agrees with the glyph table. */
  lemma SuperscriptDigitsListed(c: char)
    ensures IsSuperscriptDigit(c) <==> c in SuperscriptDigits
  {
    if '\U{2074}' <= c <= '\U{2079}' {
      assert c == SuperscriptDigits[c as int - 0x2070];
    }
  }

  /** `c.isalnum()` for one character (ASCII letters and digits, superscript digits). */
  predicate IsAlnumChar(c: char) {
    IsAsciiDigit(c) || IsAsciiLetter(c) || IsSuperscriptDigit(c)
  }

  /** Every character alphanumeric, checked from the front. */
  predicate AlnumChars(s: string)
    decreases |s|
  {
    s == [] || (IsAlnumChar(s[0]) && AlnumChars(s[1..]))
  }

  /** `s.isalnum()`: non-empty and every character alphanumeric. */
  predicate IsAlnum(s: string) {
    |s| > 0 && AlnumChars(s)
  }

  lemma {:induction false} AlnumCharsEach(s: string)
    ensures AlnumChars(s) <==> forall i :: 0 <= i < |s| ==> IsAlnumChar(s[i])
    decreases |s|
  {
    if s != [] {
      AlnumCharsEach(s[1..]);
      assert forall i :: 1 <= i < |s| ==> s[i] == s[1..][i - 1];
    }
  }

  /** `SUPERSCRIPT_NUMBERS`: the digit strings "0".."9" and their superscript glyphs. */
  const SuperscriptNumbers: map<string, string> :=
    map["0" := "\U{2070}", "1" := "\U{B9}", "2" := "\U{B2}", "3" := "\U{B3}",
        "4" := "\U{2074}", "5" := "\U{2075}", "6" := "\U{2076}", "7" := "\U{2077}",
        "8" := "\U{2078}", "9" := "\U{2079}"]

  /** `SUBSCRIPT_NUMBERS`: the strings "0".."16" and their subscript glyphs. */
  const SubscriptNumbers: map<string, string> :=
    map["0" := "\U{2080}", "1" := "\U{2081}", "2" := "\U{2082}", "3" := "\U{2083}",
        "4" := "\U{2084}", "5" := "\U{2085}", "6" := "\U{2086}", "7" := "\U{2087}",
        "8" := "\U{2088}", "9" := "\U{2089}",
        "10" := "\U{2081}\U{2080}", "11" := "\U{2081}\U{2081}", "12" := "\U{2081}\U{2082}",
        "13" := "\U{2081}\U{2083}", "14" := "\U{2081}\U{2084}", "15" := "\U{2081}\U{2085}",
        "16" := "\U{2081}\U{2086}"]

  /** `OPERATORS_MAP`. */
  const OperatorsMap: seq<string> :=
    ["+", "-", "*", "/", "^", [MultiplicationSign], [DotOperator], [DivisionSign]]

  /** `PARENTHESES`. */
  const Parentheses: seq<string> := ["(", ")", "[", "]", "{", "}"]

  datatype TokenType = Operator | Parenthesis | Superscript | Subscript | Number | Unknown

  /** `identify_token_type`: the first table the token belongs to decides. */
  function IdentifyTokenType(token: string): TokenType {
    if token in OperatorsMap then Operator
    else if token in Parentheses then Parenthesis
    else if token in SuperscriptNumbers then Superscript
    else if token in SubscriptNumbers then Subscript
    else if IsAlnum(token) then Number
    else Unknown
  }

  predicate IsOperatorChar(c: char) {
    c in "+-*/^" || c == MultiplicationSign || c == DotOperator || c == DivisionSign
  }

  predicate IsBracketChar(c: char) { c in "()[]{}" }

  /** The strings "10".."16". */
  predicate IsTwoDigitSubscript(t: string) {
    |t| == 2 && t[0] == '1' && '0' <= t[1] <= '6'
  }

  lemma SuperscriptKeys(t: string)
    ensures t in SuperscriptNumbers <==> |t| == 1 && IsAsciiDigit(t[0])
  {
    if |t| == 1 && IsAsciiDigit(t[0]) {
      var d := t[0];
      assert t == [d];
      assert d == '0' || d == '1' || d == '2' || d == '3' || d == '4'
        || d == '5' || d == '6' || d == '7' || d == '8' || d == '9';
    }
  }

  lemma SubscriptKeys(t: string)
    ensures t in SubscriptNumbers <==> (|t| == 1 && IsAsciiDigit(t[0])) || IsTwoDigitSubscript(t)
  {
    if |t| == 1 && IsAsciiDigit(t[0]) {
      var d := t[0];
      assert t == [d];
      assert d == '0' || d == '1' || d == '2' || d == '3' || d == '4'
        || d == '5' || d == '6' || d == '7' || d == '8' || d == '9';
    } else if IsTwoDigitSubscript(t) {
      var d := t[1];
      assert t == ['1', d];
      assert d == '0' || d == '1' || d == '2' || d == '3' || d == '4' || d == '5' || d == '6';
    }
  }

  lemma OperatorStrings(t: string)
    ensures t in OperatorsMap <==> |t| == 1 && IsOperatorChar(t[0])
  {
    if |t| == 1 && IsOperatorChar(t[0]) {
      assert t == [t[0]];
    }
  }

  lemma BracketStrings(t: string)
    ensures t in Parentheses <==> |t| == 1 && IsBracketChar(t[0])
  {
    if |t| == 1 && IsBracketChar(t[0]) {
      assert t == [t[0]];
    }
  }

  /** The classifier by the shape of the token, one category per token: a lone operator
      symbol is an Operator, a lone bracket a Parenthesis, a lone ASCII digit a
      Superscript (not a Number), "10".."16" a Subscript, any other alphanumeric text
      a Number, and everything else (a signed literal, a parenthesised term) Unknown. */
  lemma {:induction false} IdentifyTokenTypeByShape(t: string)
    ensures IdentifyTokenType(t) == Operator <==> |t| == 1 && IsOperatorChar(t[0])
    ensures IdentifyTokenType(t) == Parenthesis <==> |t| == 1 && IsBracketChar(t[0])
    ensures IdentifyTokenType(t) == Superscript <==> |t| == 1 && IsAsciiDigit(t[0])
    ensures IdentifyTokenType(t) == Subscript <==> IsTwoDigitSubscript(t)
    ensures IdentifyTokenType(t) == Number <==>
      IsAlnum(t) && !(|t| == 1 && IsAsciiDigit(t[0])) && !IsTwoDigitSubscript(t)
    ensures IdentifyTokenType(t) == Unknown <==>
      !IsAlnum(t) && !(|t| == 1 && (IsOperatorChar(t[0]) || IsBracketChar(t[0])))
  {
    OperatorStrings(t);
    BracketStrings(t);
    SuperscriptKeys(t);
    SubscriptKeys(t);
    if |t| == 1 {
      CharClassesDisjoint(t[0]);
      assert t[1..] == [] && AlnumChars(t[1..]);
      assert IsAlnum(t) <==> IsAlnumChar(t[0]);
    }
  }

  /** Operator symbols, brackets and alphanumerics are three separate classes. */
  lemma CharClassesDisjoint(c: char)
    ensures IsOperatorChar(c) ==> !IsBracketChar(c) && !IsAlnumChar(c)
    ensures IsBracketChar(c) ==> !IsAlnumChar(c)
  {
  }

  /** The superscript glyph table is injective: distinct digits get distinct glyphs. */
  lemma SuperscriptGlyphsDistinct(a: string, b: string)
    requires a in SuperscriptNumbers && b in SuperscriptNumbers
    requires SuperscriptNumbers[a] == SuperscriptNumbers[b]
    ensures a == b
  {
    SuperscriptKeys(a);
    SuperscriptKeys(b);
    assert a == [a[0]] && b == [b[0]];
  }

  /** Every glyph of the table is one superscript digit character. */
  lemma SuperscriptGlyphIsDigit(d: string)
    requires d in SuperscriptNumbers
    ensures |SuperscriptNumbers[d]| == 1 && IsSuperscriptDigit(SuperscriptNumbers[d][0])
  {
    SuperscriptKeys(d);
    assert d == [d[0]];
  }
}
