/** Python string helpers the engine relies on: `str.isspace`, `str.split()`,
    `" ".join(...)` and `str(int)`, restricted to ASCII. */
module Text {

  /** Python's `str.isspace` on the ASCII range. */
  predicate IsSpace(c: char) {
    c == ' ' || c == '\t' || c == '\n' || c == '\r' || c == '\U{B}' || c == '\U{C}'
    || c == '\U{1C}' || c == '\U{1D}' || c == '\U{1E}' || c == '\U{1F}'
  }

  predicate NoSpace(s: string) {
    forall i :: 0 <= i < |s| ==> !IsSpace(s[i])
  }

  /** A token that `str.split()` hands back unchanged: non-empty, no whitespace. */
  predicate IsWord(s: string) {
    |s| > 0 && NoSpace(s)
  }

  /** The end of the run of non-space characters that starts at `i`. */
  function WordEnd(s: string, i: nat): (j: nat)
    requires i <= |s|
    ensures i <= j <= |s|
    ensures NoSpace(s[i..j])
    ensures j == |s| || IsSpace(s[j])
    decreases |s| - i
  {
    if i == |s| || IsSpace(s[i]) then i else WordEnd(s, i + 1)
  }

  /** Python's `s.split()`: the maximal runs of non-space characters, in order. */
  function Split(s: string): (r: seq<string>)
    ensures forall k :: 0 <= k < |r| ==> IsWord(r[k])
    decreases |s|
  {
    if s == [] then []
    else if IsSpace(s[0]) then Split(s[1..])
    else
      var j := WordEnd(s, 0);
      [s[..j]] + Split(s[j..])
  }

  /** Python's `" ".join(ts)`. */
  function Join(ts: seq<string>): string
    decreases |ts|
  {
    if ts == [] then ""
    else if |ts| == 1 then ts[0]
    else ts[0] + " " + Join(ts[1..])
  }

  lemma {:induction false} SplitWordThenRest(w: string, rest: string)
    requires IsWord(w)
    requires rest == [] || IsSpace(rest[0])
    ensures Split(w + rest) == [w] + Split(rest)
  {
    var s := w + rest;
    WordEndOfWord(w, rest, 0);
    assert s[..|w|] == w;
    assert s[|w|..] == rest;
  }

  lemma {:induction false} WordEndOfWord(w: string, rest: string, i: nat)
    requires IsWord(w) && i <= |w|
    requires rest == [] || IsSpace(rest[0])
    ensures WordEnd(w + rest, i) == |w|
    decreases |w| - i
  {
    var s := w + rest;
    if i < |w| {
      assert s[i] == w[i];
      WordEndOfWord(w, rest, i + 1);
    }
  }

  /** `str.split()` undoes `" ".join` on words: the round trip the engine relies on
      when one conversion's output string is fed to the next. */
  lemma {:induction false} SplitJoin(ts: seq<string>)
    requires forall k :: 0 <= k < |ts| ==> IsWord(ts[k])
    ensures Split(Join(ts)) == ts
    decreases |ts|
  {
    if ts == [] {
    } else if |ts| == 1 {
      SplitWordThenRest(ts[0], "");
      assert ts[0] + "" == ts[0];
    } else {
      var rest := " " + Join(ts[1..]);
      assert Join(ts) == ts[0] + rest;
      SplitWordThenRest(ts[0], rest);
      assert rest[1..] == Join(ts[1..]);
      SplitJoin(ts[1..]);
      assert Split(rest) == Split(Join(ts[1..]));
      assert ts == [ts[0]] + ts[1..];
    }
  }

  function DigitChar(d: nat): (c: char)
    requires d < 10
    ensures '0' <= c <= '9'
  {
    "0123456789"[d]
  }

  /** Decimal digits of a natural number, most significant first, no leading zeros. */
  function NatToString(n: nat): (s: string)
    ensures |s| > 0
    ensures forall i :: 0 <= i < |s| ==> '0' <= s[i] <= '9'
    decreases n
  {
    if n < 10 then [DigitChar(n)] else NatToString(n / 10) + [DigitChar(n % 10)]
  }

  /** Python's `str(n)` for an `int`. */
  function IntToString(n: int): (s: string)
    ensures |s| > 0 && (s[0] == '-' || '0' <= s[0] <= '9')
  {
    if n < 0 then "-" + NatToString(-n) else NatToString(n)
  }

  /** `s.startswith(w)`. */
  predicate StartsWith(s: string, w: string) {
    |w| <= |s| && s[..|w|] == w
  }

  /** The value of a run of ASCII decimal digits. */
  function DigitsValue(s: string): nat
    requires forall i :: 0 <= i < |s| ==> '0' <= s[i] <= '9'
    decreases |s|
  {
    if s == [] then 0 else DigitsValue(s[..|s| - 1]) * 10 + (s[|s| - 1] as int - '0' as int)
  }

  lemma {:induction false} NatToStringValue(n: nat)
    ensures DigitsValue(NatToString(n)) == n
    decreases n
  {
    var s := NatToString(n);
    if n >= 10 {
      NatToStringValue(n / 10);
      assert s[..|s| - 1] == NatToString(n / 10);
    }
  }

  lemma NatToStringInjective(a: nat, b: nat)
    requires NatToString(a) == NatToString(b)
    ensures a == b
  {
    NatToStringValue(a);
    NatToStringValue(b);
  }

  /** `str(n)` is injective: the text of an integer determines it. */
  lemma IntToStringInjective(m: int, n: int)
    requires IntToString(m) == IntToString(n)
    ensures m == n
  {
    var s := IntToString(m);
    assert s[0] == '-' <==> m < 0;
    assert s[0] == '-' <==> n < 0;
    if m < 0 {
      assert s[1..] == NatToString(-m) == NatToString(-n);
      NatToStringInjective(-m, -n);
    } else {
      NatToStringInjective(m, n);
    }
  }

  // ---------------------------------------------------------------------------------
  // Splitting short inputs

  lemma SplitWordFirst(c: char, rest: string)
    requires !IsSpace(c) && (rest == [] || IsSpace(rest[0]))
    ensures Split([c] + rest) == [[c]] + Split(rest)
  {
    SplitWordThenRest([c], rest);
  }

  lemma SplitSpaceFirst(x: string)
    ensures Split(" " + x) == Split(x)
  {
    assert (" " + x)[1..] == x;
  }

  lemma SplitOne(c: char)
    requires !IsSpace(c)
    ensures Split([c]) == [[c]]
  {
    SplitWordFirst(c, []);
    assert [c] + [] == [c];
  }

  /** Two one-character words separated by a single space. */
  lemma SplitTwo(s: string)
    requires |s| == 3 && s[1] == ' ' && !IsSpace(s[0]) && !IsSpace(s[2])
    ensures Split(s) == [[s[0]], [s[2]]]
  {
    SplitOne(s[2]);
    assert s[1..] == " " + [s[2]];
    SplitSpaceFirst([s[2]]);
    assert s == [s[0]] + s[1..];
    SplitWordFirst(s[0], s[1..]);
  }

  /** Three one-character words separated by single spaces. */
  lemma SplitThree(s: string)
    requires |s| == 5 && s[1] == ' ' && s[3] == ' '
    requires !IsSpace(s[0]) && !IsSpace(s[2]) && !IsSpace(s[4])
    ensures Split(s) == [[s[0]], [s[2]], [s[4]]]
  {
    SplitTwo(s[2..]);
    assert s[1..] == " " + s[2..];
    SplitSpaceFirst(s[2..]);
    assert s == [s[0]] + s[1..];
    SplitWordFirst(s[0], s[1..]);
  }

  /** A one-character word and a space before the rest. */
  lemma SplitSpaced(c: char, x: string)
    requires !IsSpace(c)
    ensures Split([c, ' '] + x) == [[c]] + Split(x)
  {
    var r := [' '] + x;
    assert [c, ' '] + x == [c] + r;
    SplitWordFirst(c, r);
    assert r == " " + x;
    SplitSpaceFirst(x);
  }

  lemma SplitSpacedTwice(a: char, b: char, x: string)
    requires !IsSpace(a) && !IsSpace(b)
    ensures Split([a, ' ', b, ' '] + x) == [[a], [b]] + Split(x)
  {
    var y := [b, ' '] + x;
    SplitSpaced(b, x);
    SplitSpaced(a, y);
    assert [a, ' '] + y == [a, ' ', b, ' '] + x;
  }

  /** Five one-character words separated by single spaces. */
  lemma SplitFive(a: char, b: char, c: char, d: char, e: char)
    requires !IsSpace(a) && !IsSpace(b) && !IsSpace(c) && !IsSpace(d) && !IsSpace(e)
    ensures Split([a, ' ', b, ' ', c, ' ', d, ' ', e]) == [[a], [b], [c], [d], [e]]
  {
    var t3 := [c, ' ', d, ' ', e];
    SplitThree(t3);
    SplitSpacedTwice(a, b, t3);
    assert [a, ' ', b, ' '] + t3 == [a, ' ', b, ' ', c, ' ', d, ' ', e];
  }
}
