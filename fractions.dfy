/** The fraction utilities: the terminating-decimal test, reduction to lowest terms, the
    LaTeX fraction, and the long division that writes a fraction as a decimal with its
    repeating part under `\overline`. Python's `//` and `%` round toward negative
    infinity and are written out as `FloorDiv` and `FloorMod`. */
module Fractions {
  import opened Text

  // ---------------------------------------------------------------------------------
  // Integer arithmetic as Python does it

  /** Python's `a // b`: the quotient rounded toward negative infinity. */
  function FloorDiv(a: int, b: int): (q: int)
    requires b != 0
    ensures b > 0 ==> b * q <= a < b * q + b
    ensures b < 0 ==> b * q + b < a <= b * q
  {
    if b > 0 then a / b else (-a) / (-b)
  }

  /** Python's `a % b`: what is left after `a // b`, with the sign of `b`. */
  function FloorMod(a: int, b: int): (m: int)
    requires b != 0
    ensures a == b * FloorDiv(a, b) + m
    ensures b > 0 ==> 0 <= m < b
    ensures b < 0 ==> b < m <= 0
  {
    a - b * FloorDiv(a, b)
  }

  function Abs(n: int): nat {
    if n < 0 then -n else n
  }

  /** `c` divides `a`. */
  ghost predicate Divides(c: int, a: int) {
    c > 0 && exists q :: a == c * q
  }

  ghost predicate IsPrime(p: int) {
    p >= 2 && forall k :: 2 <= k < p ==> !Divides(k, p)
  }

  /** No prime factor other than 2 and 5. */
  ghost predicate OnlyTwosAndFives(d: int) {
    forall p :: IsPrime(p) && Divides(p, d) ==> p == 2 || p == 5
  }

  function Pow10(k: nat): (r: nat)
    ensures r >= 1
  {
    if k == 0 then 1 else 10 * Pow10(k - 1)
  }

  lemma DividesBy(c: int, a: int, q: int)
    requires c > 0 && a == c * q
    ensures Divides(c, a)
  {
  }

  lemma DividesMultiple(c: int, a: int, k: int)
    requires Divides(c, a)
    ensures Divides(c, a * k)
  {
    var q :| a == c * q;
    assert a * k == c * (q * k);
  }

  lemma DividesTransitive(a: int, b: int, c: int)
    requires Divides(a, b) && Divides(b, c)
    ensures Divides(a, c)
  {
    var q :| c == b * q;
    DividesMultiple(a, b, q);
  }

  lemma DividesBound(c: int, a: int)
    requires Divides(c, a) && a > 0
    ensures c <= a
  {
    var q :| a == c * q;
    assert c * q == c * (q - 1) + c;
    assert c * (q - 1) >= 0;
  }

  // ---------------------------------------------------------------------------------
  // `is_terminating_decimal`

  /** `d` with every factor 2 divided out. */
  function StripTwos(d: nat): (r: nat)
    requires d >= 1
    ensures r >= 1 && r % 2 != 0
    decreases d
  {
    if d % 2 == 0 then StripTwos(d / 2) else d
  }

  /** `d` with every factor 5 divided out. */
  function StripFives(d: nat): (r: nat)
    requires d >= 1
    ensures r >= 1 && r % 5 != 0
    decreases d
  {
    if d % 5 == 0 then StripFives(d / 5) else d
  }

  /** What `is_terminating_decimal(d)` returns, as a value. */
  function Terminating(d: int): bool {
    d <= 1 || StripFives(StripTwos(d)) == 1
  }

  /** `is_terminating_decimal(d)`: divide out 2s, then 5s, and see whether 1 is left;
      true exactly when `d` is at most 1 or has no prime factor but 2 and 5. */
  method IsTerminatingDecimal(simplifiedDenominator: int) returns (b: bool)
    ensures b == Terminating(simplifiedDenominator)
    ensures b <==> simplifiedDenominator <= 1 || OnlyTwosAndFives(simplifiedDenominator)
  {
    TerminatingMeaning(simplifiedDenominator);
    if simplifiedDenominator <= 1 {
      return true;
    }
    var denom: nat := simplifiedDenominator;
    while denom % 2 == 0
      invariant denom >= 1
      invariant StripTwos(denom) == StripTwos(simplifiedDenominator)
      decreases denom
    {
      denom := denom / 2;
    }
    while denom % 5 == 0
      invariant denom >= 1
      invariant StripFives(denom) == StripFives(StripTwos(simplifiedDenominator))
      decreases denom
    {
      denom := denom / 5;
    }
    b := denom == 1;
  }

  lemma OddProduct(p: int, q: int)
    requires p % 2 != 0 && q % 2 != 0
    ensures (p * q) % 2 != 0
  {
    var a, b := p / 2, q / 2;
    assert p == 2 * a + 1 && q == 2 * b + 1;
    assert p * q == 2 * (2 * a * b + a + b) + 1;
  }

  lemma NoFiveInProduct(x: int, y: int)
    requires 1 <= x <= 4 && 1 <= y <= 4
    ensures (x * y) % 5 != 0
  {
    if x == 1 {
    } else if x == 2 {
    } else if x == 3 {
    } else {
    }
  }

  /** 5 is prime: it divides a product only through a factor. */
  lemma FivelessProduct(p: int, q: int)
    requires p % 5 != 0 && q % 5 != 0
    ensures (p * q) % 5 != 0
  {
    var a, x := p / 5, p % 5;
    var b, y := q / 5, q % 5;
    assert p == 5 * a + x && q == 5 * b + y;
    assert p * q == 5 * (5 * a * b + a * y + b * x) + x * y;
    NoFiveInProduct(x, y);
  }

  /** A prime other than 2 that divides `2 * k` divides `k`. */
  lemma PrimeOverTwo(p: int, k: int)
    requires IsPrime(p) && p != 2 && Divides(p, 2 * k)
    ensures Divides(p, k)
  {
    assert p % 2 != 0 by {
      if p % 2 == 0 {
        DividesBy(2, p, p / 2);
      }
    }
    var q :| 2 * k == p * q;
    assert q % 2 == 0 by {
      if q % 2 != 0 {
        OddProduct(p, q);
      }
    }
    assert k == p * (q / 2);
  }

  /** A prime other than 5 that divides `5 * k` divides `k`. */
  lemma PrimeOverFive(p: int, k: int)
    requires IsPrime(p) && p != 5 && Divides(p, 5 * k)
    ensures Divides(p, k)
  {
    assert p % 5 != 0 by {
      if p % 5 == 0 {
        DividesBy(5, p, p / 5);
      }
    }
    var q :| 5 * k == p * q;
    assert q % 5 == 0 by {
      if q % 5 != 0 {
        FivelessProduct(p, q);
      }
    }
    assert k == p * (q / 5);
  }

  /** The primes dividing `d` other than 2 are those dividing `StripTwos(d)`. */
  lemma {:induction false} StripTwosKeeps(d: nat, p: int)
    requires d >= 1 && IsPrime(p) && p != 2
    ensures Divides(p, d) <==> Divides(p, StripTwos(d))
    decreases d
  {
    if d % 2 == 0 {
      StripTwosKeeps(d / 2, p);
      assert d == 2 * (d / 2);
      if Divides(p, d) {
        PrimeOverTwo(p, d / 2);
      }
      if Divides(p, d / 2) {
        DividesMultiple(p, d / 2, 2);
      }
    }
  }

  lemma {:induction false} StripFivesKeeps(d: nat, p: int)
    requires d >= 1 && IsPrime(p) && p != 5
    ensures Divides(p, d) <==> Divides(p, StripFives(d))
    decreases d
  {
    if d % 5 == 0 {
      StripFivesKeeps(d / 5, p);
      assert d == 5 * (d / 5);
      if Divides(p, d) {
        PrimeOverFive(p, d / 5);
      }
      if Divides(p, d / 5) {
        DividesMultiple(p, d / 5, 5);
      }
    }
  }

  lemma OddFifth(d: int)
    requires d % 2 != 0 && d % 5 == 0
    ensures (d / 5) % 2 != 0
  {
    var e := d / 5;
    assert d == 5 * e;
    assert d == 4 * e + e;
  }

  /** Stripping 5s keeps a number odd. */
  lemma {:induction false} StripFivesOdd(d: nat)
    requires d >= 1 && d % 2 != 0
    ensures StripFives(d) % 2 != 0
    decreases d
  {
    if d % 5 == 0 {
      OddFifth(d);
      StripFivesOdd(d / 5);
    }
  }

  /** The least divisor of `n` from `k` on is a prime. */
  lemma {:induction false} PrimeFactorFrom(n: int, k: int) returns (p: int)
    requires 2 <= k <= n && forall j :: 2 <= j < k ==> !Divides(j, n)
    ensures IsPrime(p) && Divides(p, n)
    decreases n - k
  {
    if Divides(k, n) {
      p := k;
      forall j | 2 <= j < k
        ensures !Divides(j, k)
      {
        if Divides(j, k) {
          DividesTransitive(j, k, n);
        }
      }
    } else {
      if k == n {
        DividesBy(n, n, 1);
      }
      p := PrimeFactorFrom(n, k + 1);
    }
  }

  /** `is_terminating_decimal`'s answer: at most 1, or no prime factor but 2 and 5. */
  lemma TerminatingMeaning(d: int)
    ensures Terminating(d) <==> d <= 1 || OnlyTwosAndFives(d)
  {
    if d >= 2 {
      if StripFives(StripTwos(d)) == 1 {
        StrippedToOne(d);
      } else {
        StrippedFactor(d);
      }
    }
  }

  /** Nothing left after dividing out 2s and 5s: every prime factor is 2 or 5. */
  lemma StrippedToOne(d: nat)
    requires d >= 1 && StripFives(StripTwos(d)) == 1
    ensures OnlyTwosAndFives(d)
  {
    forall p | IsPrime(p) && Divides(p, d)
      ensures p == 2 || p == 5
    {
      if p != 2 && p != 5 {
        StripTwosKeeps(d, p);
        StripFivesKeeps(StripTwos(d), p);
        DividesBound(p, 1);
      }
    }
  }

  /** Something left after dividing out 2s and 5s: it has a prime factor other than 2 and 5. */
  lemma StrippedFactor(d: nat)
    requires d >= 1 && StripFives(StripTwos(d)) != 1
    ensures !OnlyTwosAndFives(d)
  {
    var m := StripFives(StripTwos(d));
    var p := PrimeFactorFrom(m, 2);
    StripFivesOdd(StripTwos(d));
    assert p != 2 && p != 5 by {
      if p == 2 || p == 5 {
        DividesRemainder(p, m);
      }
    }
    StripFivesKeeps(StripTwos(d), p);
    StripTwosKeeps(d, p);
  }

  /** 2 or 5 dividing `m` leaves remainder 0. */
  lemma DividesRemainder(p: int, m: int)
    requires (p == 2 || p == 5) && Divides(p, m)
    ensures m % p == 0
  {
    if p == 2 {
      var q :| m == 2 * q;
    } else {
      var q :| m == 5 * q;
    }
  }

  // ---------------------------------------------------------------------------------
  // `simplify_fraction`

  /** `math.gcd` of two non-negative integers, by Euclid's algorithm. */
  function Gcd(a: nat, b: nat): (g: nat)
    ensures a > 0 || b > 0 ==> g > 0
    decreases b
  {
    if b == 0 then a else Gcd(b, a % b)
  }

  /** No common divisor but 1. */
  ghost predicate Coprime(a: int, b: int) {
    forall c :: Divides(c, a) && Divides(c, b) ==> c == 1
  }

  lemma {:induction false} GcdDivides(a: nat, b: nat)
    requires a > 0 || b > 0
    ensures Divides(Gcd(a, b), a) && Divides(Gcd(a, b), b)
    decreases b
  {
    var g := Gcd(a, b);
    if b == 0 {
      DividesBy(a, a, 1);
      DividesBy(a, 0, 0);
    } else {
      GcdDivides(b, a % b);
      var x :| b == g * x;
      var y :| a % b == g * y;
      var q, r := a / b, a % b;
      assert a == b * q + r;
      FactorOfSum(a, b, q, r, g, x, y);
      DividesBy(g, a, x * q + y);
    }
  }

  /** A factor of `b` and of `r` is one of `b·q + r`. */
  lemma FactorOfSum(a: int, b: int, q: int, r: int, g: int, x: int, y: int)
    requires a == b * q + r && b == g * x && r == g * y
    ensures a == g * (x * q + y)
  {
    calc {
      a;
      (g * x) * q + g * y;
      g * (x * q) + g * y;
      g * (x * q + y);
    }
  }

  lemma {:induction false} GcdGreatest(a: nat, b: nat, c: int)
    requires Divides(c, a) && Divides(c, b)
    ensures Divides(c, Gcd(a, b))
    decreases b
  {
    if b != 0 {
      var x :| a == c * x;
      var y :| b == c * y;
      assert a % b == a - b * (a / b);
      assert a % b == c * (x - y * (a / b));
      GcdGreatest(b, a % b, c);
    }
  }

  lemma ProductBetween(g: int, t: int)
    requires g > 0 && 0 <= g * t < g
    ensures t == 0
  {
  }

  /** Floor division by a divisor is exact. */
  lemma ExactQuotient(n: int, g: int)
    requires Divides(g, Abs(n))
    ensures n == g * FloorDiv(n, g)
  {
    var w :| Abs(n) == g * w;
    var v := if n < 0 then -w else w;
    assert n == g * v;
    var q := FloorDiv(n, g);
    assert g * (v - q) == n - g * q;
    ProductBetween(g, v - q);
  }

  /** `simplify_fraction(n, d)`: `(0, 1)` for a zero numerator; otherwise both divided by
      their gcd, and both negated when the denominator came out negative. */
  function SimplifyFraction(numerator: int, denominator: int): (int, int) {
    if numerator == 0 then (0, 1)
    else
      var commonDivisor := Gcd(Abs(numerator), Abs(denominator));
      var newNumerator := FloorDiv(numerator, commonDivisor);
      var newDenominator := FloorDiv(denominator, commonDivisor);
      if newDenominator < 0 then (newNumerator * -1, newDenominator * -1)
      else (newNumerator, newDenominator)
  }

  /** A non-zero fraction comes back in lowest terms with a positive denominator and the
      same value; a zero one as `0/1`. With a zero denominator the numerator's sign over
      0 comes back. */
  lemma SimplifyMeaning(n: int, d: int)
    ensures n == 0 ==> SimplifyFraction(n, d) == (0, 1)
    ensures n != 0 && d != 0 ==>
      var (n', d') := SimplifyFraction(n, d);
      d' > 0 && Coprime(Abs(n'), d') && n * d' == n' * d
    ensures n != 0 && d == 0 ==> SimplifyFraction(n, d) == (if n > 0 then 1 else -1, 0)
  {
    if n != 0 {
      var g := Gcd(Abs(n), Abs(d));
      GcdDivides(Abs(n), Abs(d));
      ExactQuotient(n, g);
      ExactQuotient(d, g);
      if d == 0 {
        SimplifyOverZero(n, g);
      } else {
        SimplifyLowest(n, d, g);
      }
    }
  }

  lemma SimplifyOverZero(n: int, g: int)
    requires n != 0 && g == Gcd(Abs(n), 0) && n == g * FloorDiv(n, g)
    ensures SimplifyFraction(n, 0) == (if n > 0 then 1 else -1, 0)
  {
    var x := FloorDiv(n, g);
    assert FloorDiv(0, g) == 0;
    if n > 0 {
      assert g * (x - 1) == 0;
      ProductBetween(g, x - 1);
    } else {
      assert g * (-x - 1) == 0;
      ProductBetween(g, -x - 1);
    }
  }

  lemma SimplifyLowest(n: int, d: int, g: int)
    requires n != 0 && d != 0 && g == Gcd(Abs(n), Abs(d))
    requires n == g * FloorDiv(n, g) && d == g * FloorDiv(d, g)
    ensures var (n', d') := SimplifyFraction(n, d);
      d' > 0 && Coprime(Abs(n'), d') && n * d' == n' * d
  {
    var x, y := FloorDiv(n, g), FloorDiv(d, g);
    var (n', d') := SimplifyFraction(n, d);
    SameValue(n, d, g, x, y);
    assert n' == (if y < 0 then -x else x) && d' == Abs(y);
    ScaledAbs(n, g, x);
    ScaledAbs(d, g, y);
    forall c | Divides(c, Abs(n')) && Divides(c, d')
      ensures c == 1
    {
      CommonFactor(n, d, g, n', d', c);
    }
  }

  lemma SameValue(n: int, d: int, g: int, x: int, y: int)
    requires n == g * x && d == g * y && d != 0
    ensures y != 0 && n * y == x * d && n * -y == -x * d
  {
    assert n * y == g * x * y;
    assert x * d == x * (g * y);
  }

  lemma ScaledAbs(n: int, g: int, x: int)
    requires n == g * x && g > 0
    ensures Abs(n) == g * Abs(x)
  {
    if x < 0 {
      assert g * -x == -(g * x);
    }
  }

  lemma Regroup(g: int, c: int, u: int)
    ensures g * (c * u) == (c * g) * u
  {
  }

  lemma CommonFactor(n: int, d: int, g: int, n': int, d': int, c: int)
    requires g == Gcd(Abs(n), Abs(d)) && g > 0
    requires Abs(n) == g * Abs(n') && Abs(d) == g * d'
    requires Divides(c, Abs(n')) && Divides(c, d')
    ensures c == 1
  {
    var a, b, a' := Abs(n), Abs(d), Abs(n');
    var u :| a' == c * u;
    var v :| d' == c * v;
    Regroup(g, c, u);
    Regroup(g, c, v);
    DividesBy(c * g, a, u);
    DividesBy(c * g, b, v);
    GcdGreatest(a, b, c * g);
    DividesBound(c * g, g);
    if c >= 2 {
      Regroup(g, 1, c - 1);
    }
  }

  // ---------------------------------------------------------------------------------
  // `to_latex_friction`

  /** `to_latex_friction(n, d)`: "0" over a zero denominator, otherwise
      `$\frac{n}{d}$`. */
  function LatexFraction(numerator: int, denominator: int): string {
    if denominator == 0 then "0"
    else "$\\frac{" + IntToString(numerator) + "}{" + IntToString(denominator) + "}$"
  }

  predicate NoCloseBrace(s: string) {
    forall i :: 0 <= i < |s| ==> s[i] != '}'
  }

  lemma IntTextNoBrace(n: int)
    ensures NoCloseBrace(IntToString(n))
  {
    if n < 0 {
      assert IntToString(n) == "-" + NatToString(-n);
    }
  }

  /** A text with no `}` of its own, followed by `}`, cannot match a longer such text. */
  lemma BraceAt(x: string, y: string, rest1: string, rest2: string)
    requires NoCloseBrace(y) && |x| < |y|
    ensures x + "}" + rest1 != y + "}" + rest2
  {
    assert (x + "}" + rest1)[|x|] == '}';
    assert (y + "}" + rest2)[|x|] == y[|x|];
  }

  /** Two texts that run up to their first `}` agree there, and so do the rests. */
  lemma BraceSplit(x: string, y: string, rest1: string, rest2: string)
    requires NoCloseBrace(x) && NoCloseBrace(y)
    requires x + "}" + rest1 == y + "}" + rest2
    ensures x == y && rest1 == rest2
  {
    var a, b := x + "}" + rest1, y + "}" + rest2;
    assert |x| == |y| by {
      if |x| < |y| {
        BraceAt(x, y, rest1, rest2);
      } else if |y| < |x| {
        BraceAt(y, x, rest2, rest1);
      }
    }
    assert x == a[..|x|] && y == b[..|y|];
    assert rest1 == a[|x| + 1..] && rest2 == b[|y| + 1..];
  }

  /** The numerator and denominator texts can be read back from `$\frac{A}{B}$`. */
  lemma FracTextInjective(na: string, da: string, nb: string, db: string)
    requires NoCloseBrace(na) && NoCloseBrace(da) && NoCloseBrace(nb) && NoCloseBrace(db)
    requires "$\\frac{" + na + "}{" + da + "}$" == "$\\frac{" + nb + "}{" + db + "}$"
    ensures na == nb && da == db
  {
    var p := "$\\frac{";
    var s, t := p + na + "}{" + da + "}$", p + nb + "}{" + db + "}$";
    assert s[|p|..] == na + "}" + ("{" + da + "}$");
    assert t[|p|..] == nb + "}" + ("{" + db + "}$");
    BraceSplit(na, nb, "{" + da + "}$", "{" + db + "}$");
    var u, v := "{" + da + "}$", "{" + db + "}$";
    assert u[1..] == da + "}" + "$" && v[1..] == db + "}" + "$";
    BraceSplit(da, db, "$", "$");
  }

  /** Different fractions are written differently, and none of them as "0". */
  lemma LatexFractionInjective(a: int, b: int, c: int, d: int)
    requires b != 0 && d != 0 && LatexFraction(a, b) == LatexFraction(c, d)
    ensures a == c && b == d && LatexFraction(a, b) != "0"
  {
    IntTextNoBrace(a);
    IntTextNoBrace(b);
    IntTextNoBrace(c);
    IntTextNoBrace(d);
    FracTextInjective(IntToString(a), IntToString(b), IntToString(c), IntToString(d));
    IntToStringInjective(a, c);
    IntToStringInjective(b, d);
    assert |LatexFraction(a, b)| > 1;
  }

  // ---------------------------------------------------------------------------------
  // `to_latex_decimal`: the long division

  /** Where a remainder of division by `den` lies: `[0, den)` for a positive divisor,
      `(den, 0]` for a negative one. */
  predicate InRange(den: int, r: int) {
    if den > 0 then 0 <= r < den else den < r <= 0
  }

  /** The remainder after `k` digits of the long division of `num` by `den`. */
  function Rem(num: int, den: int, k: nat): (r: int)
    requires den != 0
    ensures InRange(den, r)
  {
    if k == 0 then FloorMod(num, den) else FloorMod(10 * Rem(num, den, k - 1), den)
  }

  lemma MulMono(a: int, b: int, c: int)
    requires a > 0 && b <= c
    ensures a * b <= a * c
  {
  }

  /** A quotient of ten times a remainder by the divisor is a single digit. */
  lemma DigitBounds(den: int, r: int, q: int)
    requires den != 0 && InRange(den, r)
    requires den > 0 ==> den * q <= 10 * r < den * q + den
    requires den < 0 ==> den * q + den < 10 * r <= den * q
    ensures 0 <= q <= 9
  {
    if den > 0 {
      assert 0 <= q by { if q < 0 { MulMono(den, q, -1); } }
      assert q <= 9 by { if q > 9 { MulMono(den, 10, q); } }
    } else {
      assert (-den) * q == -(den * q);
      assert 0 <= q by { if q < 0 { MulMono(-den, q, -1); } }
      assert q <= 9 by { if q > 9 { MulMono(-den, 10, q); } }
    }
  }

  /** The digit written at step `k`: always a decimal digit. */
  function Digit(num: int, den: int, k: nat): (d: int)
    requires den != 0
    ensures 0 <= d <= 9
  {
    var r := Rem(num, den, k);
    var q := FloorDiv(10 * r, den);
    DigitBounds(den, r, q);
    q
  }

  /** The remainders met before step `k`. */
  function Seen(num: int, den: int, k: nat): set<int>
    requires den != 0
  {
    if k == 0 then {} else Seen(num, den, k - 1) + {Rem(num, den, k - 1)}
  }

  /** The loop stops at step `k`: the remainder is 0 or was met before. */
  predicate Stops(num: int, den: int, k: nat)
    requires den != 0
  {
    Rem(num, den, k) == 0 || Rem(num, den, k) in Seen(num, den, k)
  }

  /** The loop runs for `k` steps without stopping. */
  predicate Runs(num: int, den: int, k: nat)
    requires den != 0
  {
    forall i :: 0 <= i < k ==> !Stops(num, den, i)
  }

  /** Every remainder of an earlier step has been met. */
  lemma {:induction false} SeenHas(num: int, den: int, k: nat, i: nat)
    requires den != 0 && i < k
    ensures Rem(num, den, i) in Seen(num, den, k)
  {
    if i < k - 1 {
      SeenHas(num, den, k - 1, i);
    }
  }

  /** A set of integers in `[lo, hi)` has at most `hi - lo` elements. */
  lemma {:induction false} CardWithin(s: set<int>, lo: int, hi: int)
    requires forall x :: x in s ==> lo <= x < hi
    ensures |s| <= if hi > lo then hi - lo else 0
    decreases hi - lo
  {
    if hi <= lo {
      assert s == {};
    } else {
      CardWithin(s - {hi - 1}, lo, hi - 1);
    }
  }

  /** While the loop runs, its remainders are distinct and not 0, so there are at most
      `|den| - 1` of them. */
  lemma {:induction false} RunsBound(num: int, den: int, k: nat)
    requires den != 0 && Runs(num, den, k)
    ensures |Seen(num, den, k)| == k
    ensures forall x :: x in Seen(num, den, k) ==> x != 0 && InRange(den, x)
    ensures k <= Abs(den) - 1
  {
    if k > 0 {
      RunsBound(num, den, k - 1);
      assert !Stops(num, den, k - 1);
    }
    var s := Seen(num, den, k);
    if den > 0 {
      CardWithin(s, 1, den);
    } else {
      CardWithin(s, den + 1, 0);
    }
  }

  /** The step at which the loop stops, searched from step `k`. */
  function StopFrom(num: int, den: int, k: nat): (n: nat)
    requires den != 0 && Runs(num, den, k)
    ensures k <= n <= Abs(den) - 1 && Runs(num, den, n) && Stops(num, den, n)
    decreases Abs(den) - k
  {
    RunsBound(num, den, k);
    if Stops(num, den, k) then k
    else
      RunsBound(num, den, k + 1);
      StopFrom(num, den, k + 1)
  }

  /** The number of digits the loop writes: it stops after at most `|den| - 1` steps. */
  function Stop(num: int, den: int): (n: nat)
    requires den != 0
    ensures n <= Abs(den) - 1 && Runs(num, den, n) && Stops(num, den, n)
  {
    StopFrom(num, den, 0)
  }

  lemma {:induction false} StopFromUnique(num: int, den: int, j: nat, k: nat)
    requires den != 0 && j <= k && Runs(num, den, k) && Stops(num, den, k)
    ensures StopFrom(num, den, j) == k
    decreases k - j
  {
    if j < k {
      StopFromUnique(num, den, j + 1, k);
    }
  }

  /** The step at which remainder `x` was met. */
  function Position(num: int, den: int, k: nat, x: int): (i: nat)
    requires den != 0 && x in Seen(num, den, k)
    ensures i < k && Rem(num, den, i) == x
  {
    if Rem(num, den, k - 1) == x then k - 1 else Position(num, den, k - 1, x)
  }

  /** `"".join(parts)`. */
  function Concat(parts: seq<string>): string {
    if parts == [] then "" else Concat(parts[..|parts| - 1]) + parts[|parts| - 1]
  }

  /** The digits written in the first `k` steps. */
  function DigitText(num: int, den: int, k: nat): (s: string)
    requires den != 0
    ensures |s| == k
    ensures forall i :: 0 <= i < k ==> '0' <= s[i] <= '9'
  {
    if k == 0 then "" else DigitText(num, den, k - 1) + IntToString(Digit(num, den, k - 1))
  }

  /** What `to_latex_decimal(num, den, max_number_repeating)` returns. It is an error
      text exactly when the fraction is not whole and its expansion, the digits before
      the repeating block and one period of it, is longer than `maxNumberRepeating`. */
  function DecimalText(num: int, den: int, maxNumberRepeating: int): (t: string)
    requires den != 0
    ensures StartsWith(t, "Error") <==> FloorMod(num, den) != 0 && Stop(num, den) > maxNumberRepeating
  {
    var integerPart := FloorDiv(num, den);
    var head := IntToString(integerPart);
    if FloorMod(num, den) == 0 then NumberText(head); head
    else
      var n := Stop(num, den);
      var decimalStr := DigitText(num, den, n);
      var r := Rem(num, den, n);
      if r == 0 then
        if |decimalStr| > maxNumberRepeating then
          ErrorText("Error: decimal points is too large. ", decimalStr);
          "Error: decimal points is too large. " + decimalStr
        else
          var t := head + "." + decimalStr;
          NumberText(t);
          t
      else
        var startPos := Position(num, den, n, r);
        var nonRepeatingPart := decimalStr[..startPos];
        var repeatingPart := decimalStr[startPos..];
        if |repeatingPart| + |nonRepeatingPart| > maxNumberRepeating then
          ErrorText("Error: repeating part is too large. ", repeatingPart);
          "Error: repeating part is too large. " + repeatingPart
        else if nonRepeatingPart != [] then
          var t := head + "." + nonRepeatingPart + "$\\overline{" + repeatingPart + "}$";
          NumberText(t);
          t
        else
          var t := head + ".$\\overline{" + repeatingPart + "}$";
          NumberText(t);
          t
  }

  /** A text that begins with a sign or a digit, as `str` of an integer does, is no
      error text. */
  lemma NumberText(t: string)
    requires |t| > 0 && (t[0] == '-' || '0' <= t[0] <= '9')
    ensures !StartsWith(t, "Error")
  {
  }

  /** A text that begins with an error message is an error text. */
  lemma ErrorText(message: string, rest: string)
    requires StartsWith(message, "Error")
    ensures StartsWith(message + rest, "Error")
  {
    assert (message + rest)[..5] == message[..5];
  }

  lemma RunsStep(num: int, den: int, k: nat)
    requires den != 0 && Runs(num, den, k) && !Stops(num, den, k)
    ensures Runs(num, den, k + 1)
  {
  }

  /** `visited` maps each remainder met in the first `k` steps to the step that met it. */
  predicate Visited(num: int, den: int, k: nat, visited: map<int, nat>)
    requires den != 0
  {
    visited.Keys == Seen(num, den, k) &&
    forall x :: x in visited ==> visited[x] < k && Rem(num, den, visited[x]) == x
  }

  /** Recording the remainder of step `k` keeps the map of visited remainders exact. */
  lemma VisitStep(num: int, den: int, k: nat, visited: map<int, nat>)
    requires den != 0 && Visited(num, den, k, visited)
    ensures Visited(num, den, k + 1, visited[Rem(num, den, k) := k])
  {
  }

  /** Where the loop leaves off, it has stopped, and the map finds where a repeated
      remainder was first met. */
  lemma LoopExit(num: int, den: int, k: nat, visited: map<int, nat>)
    requires den != 0 && Runs(num, den, k) && Visited(num, den, k, visited)
    requires Rem(num, den, k) == 0 || Rem(num, den, k) in visited
    ensures k == Stop(num, den)
    ensures Rem(num, den, k) != 0 ==>
              Rem(num, den, k) in visited && visited[Rem(num, den, k)] == Position(num, den, k, Rem(num, den, k))
  {
    StopFromUnique(num, den, 0, k);
    var r := Rem(num, den, k);
    if r != 0 {
      RunsDistinct(num, den, k, visited[r], Position(num, den, k, r));
    }
  }

  /** While the loop runs, it has taken at most `|den| - 1` steps. */
  lemma RunsLimit(num: int, den: int, k: nat)
    requires den != 0 && Runs(num, den, k)
    ensures k <= Abs(den) - 1
  {
    RunsBound(num, den, k);
  }

  /** One step of the long division. */
  lemma DivisionStep(num: int, den: int, k: nat)
    requires den != 0
    ensures Rem(num, den, k + 1) == FloorMod(Rem(num, den, k) * 10, den)
    ensures Digit(num, den, k) == FloorDiv(Rem(num, den, k) * 10, den)
    ensures DigitText(num, den, k + 1) == DigitText(num, den, k) + IntToString(Digit(num, den, k))
  {
    assert Rem(num, den, k) * 10 == 10 * Rem(num, den, k);
  }

  lemma ConcatSnoc(parts: seq<string>, t: string)
    ensures Concat(parts + [t]) == Concat(parts) + t
  {
    assert (parts + [t])[..|parts|] == parts;
  }

  lemma RunsAt(num: int, den: int, k: nat, j: nat)
    requires den != 0 && Runs(num, den, k) && j < k
    ensures Rem(num, den, j) != 0 && Rem(num, den, j) !in Seen(num, den, j)
  {
    assert !Stops(num, den, j);
  }

  /** While the loop runs, no remainder comes back. */
  lemma RunsDistinct(num: int, den: int, k: nat, i: nat, j: nat)
    requires den != 0 && Runs(num, den, k) && i < k && j < k
    requires Rem(num, den, i) == Rem(num, den, j)
    ensures i == j
  {
    if i < j {
      SeenHas(num, den, j, i);
      RunsAt(num, den, k, j);
    } else if j < i {
      SeenHas(num, den, i, j);
      RunsAt(num, den, k, i);
    }
  }

  /** The loop of `to_latex_decimal`, from a nonzero first remainder: long division that
      records, in a map, the step at which it met each remainder, and stops at a zero or
      a repeated remainder. It stops at step `Stop(num, den)`, having met each
      remainder at its own step. */
  method LongDivision(num: int, den: int)
    returns (visitedRemainders: map<int, nat>, decimalStr: string, remainder: int, position: nat)
    requires den != 0 && FloorMod(num, den) != 0
    ensures position == Stop(num, den) && remainder == Rem(num, den, position)
    ensures decimalStr == DigitText(num, den, position)
    ensures remainder != 0 ==>
              remainder in visitedRemainders &&
              visitedRemainders[remainder] == Position(num, den, position, remainder)
  {
    remainder := FloorMod(num, den);
    visitedRemainders := map[];
    var decimalDigits: seq<string> := [];
    position := 0;
    while remainder != 0 && remainder !in visitedRemainders
      invariant position <= Abs(den) - 1 && Runs(num, den, position)
      invariant remainder == Rem(num, den, position)
      invariant Visited(num, den, position, visitedRemainders)
      invariant Concat(decimalDigits) == DigitText(num, den, position)
      decreases Abs(den) - position
    {
      RunsStep(num, den, position);
      DivisionStep(num, den, position);
      VisitStep(num, den, position, visitedRemainders);
      visitedRemainders := visitedRemainders[remainder := position];
      remainder := remainder * 10;
      var digit := FloorDiv(remainder, den);
      remainder := FloorMod(remainder, den);
      ConcatSnoc(decimalDigits, IntToString(digit));
      decimalDigits := decimalDigits + [IntToString(digit)];
      position := position + 1;
      RunsLimit(num, den, position);
    }
    LoopExit(num, den, position, visitedRemainders);
    decimalStr := Concat(decimalDigits);
  }

  /** `to_latex_decimal(num, den, max_number_repeating)`: the integer part alone when
      `den` divides `num`; otherwise the digits of the long division, the repeating block
      overlined, or an error text when there are more than `max_number_repeating`. */
  method ToLatexDecimal(num: int, den: int, maxNumberRepeating: int) returns (text: string)
    requires den != 0
    ensures text == DecimalText(num, den, maxNumberRepeating)
  {
    var integerPart := FloorDiv(num, den);
    if FloorMod(num, den) == 0 {
      return IntToString(integerPart);
    }
    var visitedRemainders, decimalStr, remainder, position := LongDivision(num, den);
    if remainder == 0 {
      if |decimalStr| > maxNumberRepeating {
        text := "Error: decimal points is too large. " + decimalStr;
      } else {
        text := IntToString(integerPart) + "." + decimalStr;
      }
    } else {
      var startPos := visitedRemainders[remainder];
      var nonRepeatingPart := decimalStr[..startPos];
      var repeatingPart := decimalStr[startPos..];
      if |repeatingPart| + |nonRepeatingPart| > maxNumberRepeating {
        text := "Error: repeating part is too large. " + repeatingPart;
      } else if nonRepeatingPart != [] {
        text := IntToString(integerPart) + "." + nonRepeatingPart + "$\\overline{" + repeatingPart + "}$";
      } else {
        text := IntToString(integerPart) + ".$\\overline{" + repeatingPart + "}$";
      }
    }
  }

  // ---------------------------------------------------------------------------------
  // What the digits mean

  lemma DigitTextValueStep(num: int, den: int, k: nat)
    requires den != 0 && k >= 1
    ensures DigitsValue(DigitText(num, den, k)) == 10 * DigitsValue(DigitText(num, den, k - 1)) + Digit(num, den, k - 1)
  {
    var s := DigitText(num, den, k);
    assert s[..k - 1] == DigitText(num, den, k - 1);
    var d := Digit(num, den, k - 1);
    assert IntToString(d) == [DigitChar(d)];
    NatToStringValue(d);
    assert [DigitChar(d)][..0] == [];
    assert s[k - 1] as int - '0' as int == d;
  }

  /** `num / den` equals `ip` followed by `v` as `p`-ths, plus `r` still to divide:
      num·p = den·(ip·p + v) + r. */
  predicate Kept(num: int, den: int, p: int, ip: int, v: int, r: int) {
    num * p == den * (ip * p + v) + r
  }

  lemma KeptStart(num: int, den: int)
    requires den != 0
    ensures Kept(num, den, Pow10(0), FloorDiv(num, den), DigitsValue(DigitText(num, den, 0)), Rem(num, den, 0))
  {
    assert DigitsValue(DigitText(num, den, 0)) == 0 && Pow10(0) == 1;
  }

  lemma ValueStep(num: int, den: int, p: int, ip: int, v: int, r: int, d: int, r2: int)
    requires Kept(num, den, p, ip, v, r)
    requires r * 10 == den * d + r2
    ensures Kept(num, den, 10 * p, ip, 10 * v + d, r2)
  {
    calc {
      num * (10 * p);
      10 * (num * p);
      10 * (den * (ip * p + v)) + r * 10;
      den * (10 * (ip * p + v)) + den * d + r2;
      den * (ip * (10 * p) + (10 * v + d)) + r2;
    }
  }

  /** Ten times a remainder is the next digit's worth of `den` plus the next remainder. */
  lemma RemSplit(num: int, den: int, k: nat)
    requires den != 0 && k >= 1
    ensures Rem(num, den, k - 1) * 10 == den * Digit(num, den, k - 1) + Rem(num, den, k)
  {
    var a := 10 * Rem(num, den, k - 1);
    assert Rem(num, den, k) == FloorMod(a, den);
    assert Digit(num, den, k - 1) == FloorDiv(a, den);
    assert a == den * FloorDiv(a, den) + FloorMod(a, den);
  }

  /** One more digit keeps the value. */
  lemma ValueKeptStep(num: int, den: int, k: nat)
    requires den != 0 && k >= 1
    requires Kept(num, den, Pow10(k - 1), FloorDiv(num, den), DigitsValue(DigitText(num, den, k - 1)), Rem(num, den, k - 1))
    ensures Kept(num, den, Pow10(k), FloorDiv(num, den), DigitsValue(DigitText(num, den, k)), Rem(num, den, k))
  {
    DigitTextValueStep(num, den, k);
    RemSplit(num, den, k);
    KeptNext(num, den, Pow10(k - 1), FloorDiv(num, den), DigitsValue(DigitText(num, den, k - 1)),
      Rem(num, den, k - 1), Digit(num, den, k - 1), Rem(num, den, k),
      Pow10(k), DigitsValue(DigitText(num, den, k)));
  }

  lemma KeptNext(num: int, den: int, p: int, ip: int, v: int, r: int, d: int, r2: int, p2: int, v2: int)
    requires Kept(num, den, p, ip, v, r) && r * 10 == den * d + r2
    requires p2 == 10 * p && v2 == 10 * v + d
    ensures Kept(num, den, p2, ip, v2, r2)
  {
    ValueStep(num, den, p, ip, v, r, d, r2);
  }

  /** After `k` digits, `num / den` equals the integer part followed by the digits
      written, plus the remainder still to divide: num·10^k = den·(ip·10^k + digits) + rem. */
  lemma {:induction false} ValueKept(num: int, den: int, k: nat)
    requires den != 0
    ensures Kept(num, den, Pow10(k), FloorDiv(num, den), DigitsValue(DigitText(num, den, k)), Rem(num, den, k))
  {
    if k > 0 {
      ValueKept(num, den, k - 1);
      ValueKeptStep(num, den, k);
    } else {
      KeptStart(num, den);
    }
  }

  /** Equal remainders give equal continuations: the digits after them coincide. */
  lemma {:induction false} SameContinuation(num: int, den: int, i: nat, j: nat, t: nat)
    requires den != 0 && Rem(num, den, i) == Rem(num, den, j)
    ensures Rem(num, den, i + t) == Rem(num, den, j + t)
    ensures Digit(num, den, i + t) == Digit(num, den, j + t)
  {
    if t > 0 {
      SameContinuation(num, den, i, j, t - 1);
    }
  }

  /** Once the remainder is 0 every further digit is 0: the expansion terminates. */
  lemma {:induction false} ZeroStays(num: int, den: int, n: nat, t: nat)
    requires den != 0 && Rem(num, den, n) == 0
    ensures Rem(num, den, n + t) == 0 && Digit(num, den, n + t) == 0
  {
    if t > 0 {
      ZeroStays(num, den, n, t - 1);
    }
  }

  /** When the loop stops on a repeated remainder, the digits from the step where that
      remainder was first met repeat forever with period `n - start`: the overlined block. */
  lemma Repetend(num: int, den: int, t: nat)
    requires den != 0 && Rem(num, den, Stop(num, den)) != 0
    ensures var n := Stop(num, den);
            var start := Position(num, den, n, Rem(num, den, n));
            start < n && Digit(num, den, n + t) == Digit(num, den, start + t)
  {
    var n := Stop(num, den);
    SameContinuation(num, den, Position(num, den, n, Rem(num, den, n)), n, t);
  }

  // ---------------------------------------------------------------------------------
  // The loop ends on a zero remainder exactly for denominators made of 2s and 5s

  lemma {:induction false} Pow10Divides(a: nat, b: nat)
    requires a <= b
    ensures Divides(Pow10(a), Pow10(b))
    decreases b
  {
    if a == b {
      DividesBy(Pow10(a), Pow10(b), 1);
    } else {
      Pow10Divides(a, b - 1);
      DividesMultiple(Pow10(a), Pow10(b - 1), 10);
    }
  }

  /** If `e` divides a power of ten, so do `2 * e` and `5 * e`. */
  lemma FactorStep(d: nat, e: nat, f: int)
    requires e >= 1 && (f == 2 || f == 5) && d == f * e && Divides(e, Pow10(e))
    ensures Divides(d, Pow10(d))
  {
    var q :| Pow10(e) == e * q;
    var g := if f == 2 then 5 else 2;
    assert Pow10(e + 1) == 10 * Pow10(e);
    TenSplit(f, g, e, q);
    DividesBy(d, Pow10(e + 1), g * q);
    assert e + 1 <= d;
    Pow10Divides(e + 1, d);
    DividesTransitive(d, Pow10(e + 1), Pow10(d));
  }

  lemma TenSplit(f: int, g: int, e: int, q: int)
    requires f * g == 10
    ensures (f * e) * (g * q) == 10 * (e * q)
  {
    calc {
      (f * e) * (g * q);
      (f * g) * (e * q);
    }
  }

  /** A denominator with no prime factor but 2 and 5 divides a power of ten. */
  lemma {:induction false} TerminatingDividesPow10(d: nat)
    requires d >= 1 && StripFives(StripTwos(d)) == 1
    ensures Divides(d, Pow10(d))
    decreases d
  {
    if d % 2 == 0 {
      TerminatingDividesPow10(d / 2);
      FactorStep(d, d / 2, 2);
    } else if d % 5 == 0 {
      OddFifth(d);
      assert StripTwos(d / 5) == d / 5;
      TerminatingDividesPow10(d / 5);
      FactorStep(d, d / 5, 5);
    } else {
      DividesBy(d, Pow10(d), Pow10(d));
    }
  }

  lemma KeptZero(num: int, den: int, p: int, ip: int, v: int, r: int)
    requires den > 0 && 0 <= r < den && Kept(num, den, p, ip, v, r) && Divides(den, num * p)
    ensures r == 0
  {
    var q :| num * p == den * q;
    assert r == den * (q - (ip * p + v));
    ProductBetween(den, q - (ip * p + v));
  }

  /** When `den` divides `num * 10^k`, the remainder after `k` digits is 0. */
  lemma ZeroRemainder(num: int, den: int, k: nat)
    requires den > 0 && Divides(den, num * Pow10(k))
    ensures Rem(num, den, k) == 0
  {
    ValueKept(num, den, k);
    KeptZero(num, den, Pow10(k), FloorDiv(num, den), DigitsValue(DigitText(num, den, k)), Rem(num, den, k));
  }

  /** When the loop stops on a repeated remainder, no later remainder is 0 either. */
  lemma {:induction false} NoZeroAfter(num: int, den: int, j: nat)
    requires den != 0 && Rem(num, den, Stop(num, den)) != 0
    ensures Rem(num, den, j) != 0
    decreases j
  {
    var n := Stop(num, den);
    if j < n {
      RunsAt(num, den, n, j);
    } else {
      var start := Position(num, den, n, Rem(num, den, n));
      SameContinuation(num, den, start, n, j - n);
      NoZeroAfter(num, den, start + (j - n));
    }
  }

  /** A prime dividing `num * 10^k`, other than 2 and 5, divides `num`. */
  lemma {:induction false} PrimeOverPow10(p: int, num: int, k: nat)
    requires IsPrime(p) && p != 2 && p != 5 && Divides(p, num * Pow10(k))
    ensures Divides(p, num)
  {
    if k > 0 {
      assert num * Pow10(k) == 2 * (5 * (num * Pow10(k - 1)));
      PrimeOverTwo(p, 5 * (num * Pow10(k - 1)));
      PrimeOverFive(p, num * Pow10(k - 1));
      PrimeOverPow10(p, num, k - 1);
    } else {
      assert num * Pow10(k) == num;
    }
  }

  lemma DividesAbs(p: int, num: int)
    requires Divides(p, num)
    ensures Divides(p, Abs(num))
  {
    var q :| num == p * q;
    if num < 0 {
      DividesBy(p, Abs(num), -q);
    }
  }

  /** A zero remainder at the end of the loop leaves no prime factor in `den` but 2
      and 5, when `num` and `den` have no common factor. */
  lemma EndsOnZeroTerminating(num: int, den: int)
    requires den >= 2 && Coprime(Abs(num), den) && Rem(num, den, Stop(num, den)) == 0
    ensures Terminating(den)
  {
    var n := Stop(num, den);
    ValueKept(num, den, n);
    var y := FloorDiv(num, den) * Pow10(n) + DigitsValue(DigitText(num, den, n));
    assert num * Pow10(n) == den * y;
    DividesBy(den, num * Pow10(n), y);
    forall p | IsPrime(p) && Divides(p, den)
      ensures p == 2 || p == 5
    {
      if p != 2 && p != 5 {
        DividesTransitive(p, den, num * Pow10(n));
        PrimeOverPow10(p, num, n);
        DividesAbs(p, num);
      }
    }
    TerminatingMeaning(den);
  }

  /** A denominator made of 2s and 5s makes the loop end on a zero remainder. */
  lemma TerminatingEndsOnZero(num: int, den: int)
    requires den >= 1 && Terminating(den)
    ensures Rem(num, den, Stop(num, den)) == 0
  {
    TerminatingDividesPow10(den);
    DividesMultiple(den, Pow10(den), num);
    assert Pow10(den) * num == num * Pow10(den);
    ZeroRemainder(num, den, den);
    if Rem(num, den, Stop(num, den)) != 0 {
      NoZeroAfter(num, den, den);
    }
  }

  /** For a fraction in lowest terms with `den >= 2`, `to_latex_decimal` writes digits,
      and it takes the terminating branch exactly when `is_terminating_decimal(den)`. */
  lemma TerminatingBranch(num: int, den: int)
    requires den >= 2 && Coprime(Abs(num), den)
    ensures FloorMod(num, den) != 0
    ensures Rem(num, den, Stop(num, den)) == 0 <==> Terminating(den)
  {
    if FloorMod(num, den) == 0 {
      assert num == den * FloorDiv(num, den);
      DividesBy(den, num, FloorDiv(num, den));
      DividesAbs(den, num);
      DividesBy(den, den, 1);
    }
    if Rem(num, den, Stop(num, den)) == 0 {
      EndsOnZeroTerminating(num, den);
    }
    if Terminating(den) {
      TerminatingEndsOnZero(num, den);
    }
  }
}
