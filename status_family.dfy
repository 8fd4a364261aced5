/**
 * HermesMetrics.httpStatusFamily: String.format("%dxx", statusCode / 100),
 * with Java's int division (truncating toward zero) and Java's "%d"
 * rendering of an int (a '-' for negative values, then decimal digits).
 */
module StatusFamily {

  predicate IsDigit(c: char)
  {
    '0' <= c <= '9'
  }

  predicate IsDigits(s: string)
  {
    forall i :: 0 <= i < |s| ==> IsDigit(s[i])
  }

  function Digit(d: nat): (c: char)
    requires d < 10
    ensures IsDigit(c)
  {
    ('0' as int + d) as char
  }

  function DigitValue(c: char): (d: nat)
    requires IsDigit(c)
    ensures d < 10 && Digit(d) == c
  {
    (c as int - '0' as int) as nat
  }

  /** Decimal digits of n, most significant first, without leading zeros. */
  function Decimal(n: nat): (r: string)
    ensures r != [] && IsDigits(r)
    ensures r[0] == '0' ==> n == 0
    decreases n
  {
    if n < 10 then [Digit(n)] else Decimal(n / 10) + [Digit(n % 10)]
  }

  /** The value of a string of decimal digits: the partner of Decimal. */
  function ParseDecimal(s: string): nat
    requires IsDigits(s)
    decreases |s|
  {
    if s == [] then 0 else ParseDecimal(s[..|s| - 1]) * 10 + DigitValue(s[|s| - 1])
  }

  /** Java's "%d" for an int. */
  function FormatInt(i: int): (r: string)
    ensures r != []
    ensures r[0] == '-' <==> i < 0
  {
    if i < 0 then "-" + Decimal(-i) else Decimal(i)
  }

  /** Java's int division a / b for a positive divisor: the quotient truncated toward zero. */
  function TruncDiv(a: int, b: int): (q: int)
    requires b > 0
    ensures a >= 0 ==> 0 <= a - b * q < b
    ensures a < 0 ==> -b < a - b * q <= 0
  {
    if a >= 0 then a / b else -((-a) / b)
  }

  /** httpStatusFamily: "%dxx" of statusCode / 100. */
  function HttpStatusFamily(statusCode: int): (r: string)
    ensures |r| >= 3 && r[|r| - 2..] == "xx"
  {
    FormatInt(TruncDiv(statusCode, 100)) + "xx"
  }

  // ---------------------------------------------------------------------

  /** Parsing the decimal rendering of n gives n back. */
  lemma {:induction false} DecimalRoundTrip(n: nat)
    ensures ParseDecimal(Decimal(n)) == n
    decreases n
  {
    if n >= 10 {
      var r := Decimal(n);
      assert r[..|r| - 1] == Decimal(n / 10);
      DecimalRoundTrip(n / 10);
    }
  }

  lemma DecimalInjective(m: nat, n: nat)
    ensures Decimal(m) == Decimal(n) <==> m == n
  {
    DecimalRoundTrip(m);
    DecimalRoundTrip(n);
  }

  /** Distinct ints render differently under "%d". */
  lemma FormatIntInjective(i: int, j: int)
    ensures FormatInt(i) == FormatInt(j) <==> i == j
  {
    if FormatInt(i) == FormatInt(j) {
      if i < 0 && j < 0 {
        assert FormatInt(i)[1..] == Decimal(-i);
        assert FormatInt(j)[1..] == Decimal(-j);
        DecimalInjective(-i, -j);
      } else if i >= 0 && j >= 0 {
        DecimalInjective(i, j);
      }
    }
  }

  /**
   * Two status codes fall into the same family exactly when Java's
   * statusCode / 100 agrees on them.
   */
  lemma SameFamilyIff(a: int, b: int)
    ensures HttpStatusFamily(a) == HttpStatusFamily(b) <==> TruncDiv(a, 100) == TruncDiv(b, 100)
  {
    var fa, fb := FormatInt(TruncDiv(a, 100)), FormatInt(TruncDiv(b, 100));
    if HttpStatusFamily(a) == HttpStatusFamily(b) {
      assert |fa| == |fb|;
      assert fa == HttpStatusFamily(a)[..|fa|];
      assert fb == HttpStatusFamily(b)[..|fb|];
    }
    FormatIntInjective(TruncDiv(a, 100), TruncDiv(b, 100));
  }

  /**
   * For a non-negative code the family is the decimal rendering of
   * statusCode / 100 (floor and truncation agree here) followed by "xx".
   */
  lemma FamilyOfNonNegative(statusCode: int)
    requires statusCode >= 0
    ensures var r := HttpStatusFamily(statusCode);
      && |r| >= 3
      && r[|r| - 2..] == "xx"
      && r[..|r| - 2] == Decimal(statusCode / 100)
      && IsDigits(r[..|r| - 2])
      && (r[0] == '0' ==> statusCode < 100)
      && ParseDecimal(r[..|r| - 2]) == statusCode / 100
  {
    var r := HttpStatusFamily(statusCode);
    assert r[..|r| - 2] == Decimal(statusCode / 100);
    DecimalRoundTrip(statusCode / 100);
  }

  /** A three-digit code's family is its first digit followed by "xx". */
  lemma FamilyOfThreeDigitCode(statusCode: int)
    requires 100 <= statusCode <= 999
    ensures HttpStatusFamily(statusCode) == [Digit(statusCode / 100), 'x', 'x']
  {
  }

  lemma FamilyExamples()
    ensures HttpStatusFamily(404) == "4xx"
    ensures HttpStatusFamily(200) == "2xx"
    ensures HttpStatusFamily(503) == "5xx"
    ensures HttpStatusFamily(99) == "0xx"
    ensures HttpStatusFamily(-404) == "-4xx"
    ensures HttpStatusFamily(-50) == "0xx"
  {
    FamilyOfThreeDigitCode(404);
    FamilyOfThreeDigitCode(200);
    FamilyOfThreeDigitCode(503);
  }
}
