/**
 Exact amounts and how they are printed (internal/cost/money.go). Amounts are rational numbers; they lose precision
 only when printed.
 */
module Money {
  import opened Text

  predicate Whole(x: real) {
    x.Floor as real == x
  }

  function Scale(q: real, d: nat): real {
    q * d as real
  }

  predicate IsDenominator(q: real, d: nat) {
    d >= 1 && Whole(Scale(q, d))
  }

  ghost predicate IsRational(q: real) {
    exists d: nat :: IsDenominator(q, d)
  }

  type Rat = q: real | IsRational(q)
    ghost witness ZeroIsRational()

  ghost function ZeroIsRational(): (zero: real)
    ensures zero == 0.0 && IsRational(zero)
  {
    assert IsDenominator(0.0, 1);
    0.0
  }

  function Product(x: real, y: real): real {
    x * y
  }

  lemma WholeProduct(x: real, y: real)
    requires Whole(x) && Whole(y)
    ensures Whole(Product(x, y))
  {
    var m, n := x.Floor, y.Floor;
    assert x * y == (m * n) as real;
  }

  lemma WholeSum(x: real, y: real)
    requires Whole(x) && Whole(y)
    ensures Whole(x + y)
  {
    var m, n := x.Floor, y.Floor;
    assert x + y == (m + n) as real;
  }

  lemma ScaleOfProduct(a: real, d: nat, b: real, e: nat)
    ensures Scale(a * b, d * e) == Product(Scale(a, d), Scale(b, e))
    ensures Scale(a + b, d * e) == Product(Scale(a, d), e as real) + Product(Scale(b, e), d as real)
  {
    var x, y := d as real, e as real;
    assert (d * e) as real == x * y;
    assert a * b * (x * y) == (a * x) * (b * y);
    assert (a + b) * (x * y) == a * x * y + b * y * x;
  }

  lemma ProductDenominator(a: real, d: nat, b: real, e: nat)
    requires IsDenominator(a, d) && IsDenominator(b, e)
    ensures IsDenominator(a * b, d * e) && IsDenominator(a + b, d * e)
  {
    ScaleOfProduct(a, d, b, e);
    WholeProduct(Scale(a, d), Scale(b, e));
    WholeProduct(Scale(a, d), e as real);
    WholeProduct(Scale(b, e), d as real);
    WholeSum(Product(Scale(a, d), e as real), Product(Scale(b, e), d as real));
  }

  lemma ArithmeticIsRational(a: Rat, b: Rat)
    ensures IsRational(a * b) && IsRational(a + b)
  {
    assert IsRational(a) && IsRational(b);
    var d: nat :| IsDenominator(a, d);
    var e: nat :| IsDenominator(b, e);
    ProductDenominator(a, d, b, e);
  }

  function Mul(a: Rat, b: Rat): Rat {
    ArithmeticIsRational(a, b);
    a * b
  }

  function Add(a: Rat, b: Rat): Rat {
    ArithmeticIsRational(a, b);
    a + b
  }

  lemma FractionIsRational(n: int, d: nat)
    requires d >= 1
    ensures IsDenominator(n as real / d as real, d)
  {
    var x := d as real;
    assert n as real / x * x == n as real;
    assert Scale(n as real / x, d) == n as real;
  }

  /** Ratio: a fraction over nothing is nothing. */
  function Ratio(numerator: int, denominator: nat): (q: Rat)
    ensures denominator != 0 ==> q * denominator as real == numerator as real
    ensures denominator == 0 ==> q == 0.0
  {
    var d := if denominator == 0 then 1 else denominator;
    var n := if denominator == 0 then 0 else numerator;
    FractionIsRational(n, d);
    assert IsRational(n as real / d as real);
    n as real / d as real
  }

  // ----- RatString -----

  /** The least denominator, looked for upwards from `d`. */
  function SearchDenominator(q: real, d: nat, ghost bound: nat): (least: nat)
    requires IsDenominator(q, bound) && 1 <= d <= bound
    ensures IsDenominator(q, least)
    ensures forall e: nat :: d <= e < least ==> !IsDenominator(q, e)
    decreases bound - d
  {
    if IsDenominator(q, d) then d else SearchDenominator(q, d + 1, bound)
  }

  function LeastDenominator(q: Rat): (d: nat)
    ensures IsDenominator(q, d) && forall e: nat :: e < d ==> !IsDenominator(q, e)
  {
    assert IsRational(q);
    ghost var bound: nat :| IsDenominator(q, bound);
    SearchDenominator(q, 1, bound)
  }

  function Fraction(n: int, d: nat): string {
    if d == 1 then Decimal(n) else Decimal(n) + "/" + Digits(d)
  }

  /** A fraction in lowest terms, or an integer without one. */
  function RatString(q: Rat): (s: string)
    ensures forall i :: 0 <= i < |s| ==> IsDigit(s[i]) || s[i] == '-' || s[i] == '/'
  {
    Fraction(Scale(q, LeastDenominator(q)).Floor, LeastDenominator(q))
  }

  lemma FractionIsInjective(m: int, d: nat, n: int, e: nat)
    requires Fraction(m, d) == Fraction(n, e)
    ensures m == n && d == e
  {
    assert e != 1 ==> Fraction(n, e)[|Decimal(n)|] == '/';
    assert d != 1 ==> Fraction(m, d)[|Decimal(m)|] == '/';
    if d == 1 && e == 1 {
      DecimalIsInjective(m, n);
    } else if d != 1 && e != 1 {
      CutIsInjective(Decimal(m), Decimal(n), '/', Digits(d), Digits(e));
      DecimalIsInjective(m, n);
      DigitsIsInjective(d, e);
    }
  }

  /** RatString is exact: it tells any two rationals apart. */
  lemma RatStringIsInjective(a: Rat, b: Rat)
    requires RatString(a) == RatString(b)
    ensures a == b
  {
    var d, e := LeastDenominator(a), LeastDenominator(b);
    var m, n := Scale(a, d).Floor, Scale(b, e).Floor;
    FractionIsInjective(m, d, n, e);
    SameQuotient(a, b, d, m as real);
  }

  lemma SameQuotient(a: real, b: real, d: nat, n: real)
    requires d > 0 && Scale(a, d) == n && Scale(b, d) == n
    ensures a == b
  {
    var x := d as real;
    assert a == n / x;
    assert b == n / x;
  }

  // ----- FloatString(2) -----

  function Magnitude(q: real): real {
    if q < 0.0 then -q else q
  }

  /** The hundredths printed: rounded to the nearest, halves away from zero. */
  function Cents(q: real): (c: nat)
    ensures c as real - 0.5 <= Magnitude(q) * 100.0 < c as real + 0.5
  {
    (Magnitude(q) * 100.0 + 0.5).Floor
  }

  function TwoDigits(n: nat): (s: string)
    requires n < 100
    ensures |s| == 2 && AllDigits(s)
  {
    [Digit(n / 10), Digit(n % 10)]
  }

  lemma TwoDigitsIsInjective(m: nat, n: nat)
    requires m < 100 && n < 100 && TwoDigits(m) == TwoDigits(n)
    ensures m == n
  {
    assert TwoDigits(m)[0] == TwoDigits(n)[0] && TwoDigits(m)[1] == TwoDigits(n)[1];
  }

  /** The sign is the amount's own, also when it rounds to zero. */
  function FloatString(q: real): (s: string)
    ensures forall i :: 0 <= i < |s| ==> IsDigit(s[i]) || s[i] == '-' || s[i] == '.'
    ensures s != []
  {
    (if q < 0.0 then "-" else "") + Digits(Cents(q) / 100) + "." + TwoDigits(Cents(q) % 100)
  }

  /** What two decimals keep of an amount. */
  predicate SamePrint(a: real, b: real) {
    (a < 0.0 <==> b < 0.0) && Cents(a) == Cents(b)
  }

  lemma FloatStringTellsCentsApart(a: real, b: real)
    ensures FloatString(a) == FloatString(b) <==> SamePrint(a, b)
  {
    if FloatString(a) == FloatString(b) {
      assert FloatString(a)[0] == '-' <==> a < 0.0;
      assert FloatString(b)[0] == '-' <==> b < 0.0;
      var x, y := Digits(Cents(a) / 100), Digits(Cents(b) / 100);
      var u, v := TwoDigits(Cents(a) % 100), TwoDigits(Cents(b) % 100);
      var sign := if a < 0.0 then "-" else "";
      assert (sign + x + "." + u)[|sign|..] == x + "." + u;
      assert (sign + y + "." + v)[|sign|..] == y + "." + v;
      CutIsInjective(x, y, '.', u, v);
      DigitsIsInjective(Cents(a) / 100, Cents(b) / 100);
      TwoDigitsIsInjective(Cents(a) % 100, Cents(b) % 100);
    }
  }

  /** What the two-decimal text reads back as. */
  function Rounded(q: real): (r: Rat)
    ensures Magnitude(q - r) <= 0.005
  {
    Ratio(if q < 0.0 then -(Cents(q) as int) else Cents(q), 100)
  }

  /** What the text with six decimals reads back as. */
  function RoundedToMillionths(q: real): (r: Rat)
    ensures Magnitude(q - r) <= 0.0000005
  {
    var millionths := (Magnitude(q) * 1000000.0 + 0.5).Floor;
    Ratio(if q < 0.0 then -millionths else millionths, 1000000)
  }

  // ----- money -----

  datatype Money = Money(currency: string, amount: Rat)
  {
    function Currency(): string {
      if currency == "" then DEFAULT_CURRENCY else currency
    }

    function Times(factor: Rat): Money {
      NewMoney(Currency(), Mul(amount, factor))
    }

    function Plus(other: Money): Money {
      NewMoney(Currency(), Add(amount, other.amount))
    }

    function String(): string {
      FloatString(amount)
    }
  }

  const DEFAULT_CURRENCY := "IDR"

  function NewMoney(currency: string, amount: Rat): Money {
    Money(if currency == "" then DEFAULT_CURRENCY else currency, amount)
  }

  function Zero(): (q: Rat)
    ensures q == 0.0
  {
    Ratio(0, 0)
  }

  /** An amount without a currency is in rupiah; a product and a sum are in that of the first amount. */
  lemma AmountsAreInTheFirstCurrency(currency: string, amount: Rat, factor: Rat, other: Money)
    ensures var money := NewMoney(currency, amount);
      && money.amount == amount && money.currency == (if currency == "" then "IDR" else currency)
      && money.Currency() == money.currency && Money("", amount).Currency() == "IDR"
      && money.Times(factor).currency == money.currency && money.Times(factor).amount == amount * factor
      && money.Plus(other).currency == money.currency && money.Plus(other).amount == amount + other.amount
  {
  }
}
