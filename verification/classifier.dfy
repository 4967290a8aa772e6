/** The numeric predicates of the classifier (`is_prime`, `is_perfect`,
    `is_armstrong`, `get_properties`, `get_digit_sum`) on integer inputs,
    each as a specification function, with the loops of the Python code as
    methods proved equal to them. */
module Classifier {
  import opened Decimal

  /** d is a positive divisor of n. */
  predicate Divides(d: int, n: int)
  {
    d > 0 && n % d == 0
  }

  /** Ordinary primality: at least 2 and no divisor strictly between 1 and n. */
  predicate Prime(n: int)
  {
    n >= 2 && forall d :: 2 <= d < n ==> !Divides(d, n)
  }

  // ---------------------------------------------------------------------------
  // Integer square root: the bound `int(math.sqrt(abs(n)))` of the trial division

  function IsqrtFrom(n: nat, r: nat): (s: nat)
    requires r * r <= n
    ensures s * s <= n < (s + 1) * (s + 1)
    decreases n - r
  {
    if (r + 1) * (r + 1) > n then r else IsqrtFrom(n, r + 1)
  }

  /** floor(sqrt(n)): the largest r with r * r <= n. */
  function Isqrt(n: nat): (r: nat)
    ensures r * r <= n < (r + 1) * (r + 1)
  {
    IsqrtFrom(n, 0)
  }

  /** Only one r brackets n between r * r and (r + 1) * (r + 1). */
  lemma IsqrtUnique(n: nat, r: nat)
    requires r * r <= n < (r + 1) * (r + 1)
    ensures r == Isqrt(n)
  {
  }

  /** The integer square root computed by counting up, `int(math.sqrt(m))`
      on an exact integer. */
  method IntSqrt(n: nat) returns (r: nat)
    ensures r * r <= n < (r + 1) * (r + 1)
  {
    r := 0;
    while (r + 1) * (r + 1) <= n
      invariant r * r <= n
      decreases n - r
    {
      r := r + 1;
    }
  }

  // ---------------------------------------------------------------------------
  // is_prime

  /** The trial-division loop: tries i, i + 1, ..., hi in turn and stops at
      the first divisor. */
  function TrialDivision(n: nat, i: nat, hi: nat): (r: bool)
    requires i >= 1
    ensures r <==> forall d :: i <= d <= hi ==> !Divides(d, n)
    decreases hi + 1 - i
  {
    if i > hi then true
    else if n % i == 0 then assert Divides(i, n); false
    else TrialDivision(n, i + 1, hi)
  }

  /** `is_prime(n)`: false below 2, otherwise no divisor in [2, isqrt(|n|)]. */
  function IsPrime(n: int): (r: bool)
    ensures n < 2 ==> !r
    ensures n >= 2 ==> (r <==> forall d :: 2 <= d <= Isqrt(n) ==> !Divides(d, n))
  {
    if n < 2 then false else TrialDivision(Abs(n), 2, Isqrt(Abs(n)))
  }

  /** Trial division up to the square root decides ordinary primality. */
  lemma IsPrimeIffPrime(n: int)
    ensures IsPrime(n) <==> Prime(n)
  {
    if n >= 2 {
      if Prime(n) {
        PrimeHasNoSmallDivisor(n);
      } else {
        var d :| 2 <= d < n && Divides(d, n);
        CofactorDivides(n, d);
      }
    }
  }

  lemma PrimeHasNoSmallDivisor(n: int)
    requires Prime(n)
    ensures forall d :: 2 <= d <= Isqrt(n) ==> !Divides(d, n)
  {
  }

  lemma MulLeft(a: nat, b: nat, c: nat)
    requires b <= c
    ensures a * b <= a * c
  {
  }

  /** A divisor d of n in [2, n) pairs with the cofactor n / d, and one of
      the two is at most the integer square root. */
  lemma CofactorDivides(n: int, d: int)
    requires n >= 2 && 2 <= d < n && Divides(d, n)
    ensures exists c :: 2 <= c <= Isqrt(n) && Divides(c, n)
  {
    var r := Isqrt(n);
    var e := n / d;
    assert n == d * e;
    assert e >= 2 by {
      if e <= 1 {
        MulLeft(d, e, 1);
      }
    }
    assert Divides(e, n) by {
      MulMod(d, e);
    }
    if d > r && e > r {
      ProductAtLeastSquare(r + 1, d, e);
      assert false;
    }
    if d <= r {
      assert 2 <= d <= r && Divides(d, n);
    } else {
      assert 2 <= e <= r && Divides(e, n);
    }
  }

  lemma {:induction false} MulMod(d: nat, e: nat)
    requires e > 0
    ensures (d * e) % e == 0
  {
    if d > 0 {
      var a := (d - 1) * e;
      MulMod(d - 1, e);
      assert d * e == a + e;
      ModAddDivisor(a, e);
    }
  }

  lemma ModAddDivisor(a: int, e: int)
    requires e > 0
    ensures (a + e) % e == a % e
  {
    var q, r := a / e, a % e;
    assert a == e * q + r;
    assert a + e == e * (q + 1) + r;
    ModUnique(a + e, e, q + 1, r);
  }

  /** The remainder is the only r in [0, e) with n == e * q + r. */
  lemma ModUnique(n: int, e: int, q: int, r: int)
    requires e > 0 && 0 <= r < e && n == e * q + r
    ensures n % e == r
  {
    var q', r' := n / e, n % e;
    assert n == e * q' + r';
    var k := q - q';
    assert e * k == e * q - e * q' by {
      assert e * (q - q') == e * q - e * q';
    }
    assert e * k == r' - r;
    if k >= 1 {
      MulLeft(e, 1, k);
    } else if k <= -1 {
      MulLeft(e, 1, -k);
    }
  }

  lemma ProductAtLeastSquare(a: nat, d: nat, e: nat)
    requires a <= d && a <= e
    ensures a * a <= d * e
  {
  }

  /** The loop of `is_prime`: trial division of |n| by 2, 3, ..., isqrt(|n|),
      returning at the first divisor. */
  method IsPrimeLoop(n: int) returns (r: bool)
    ensures r <==> Prime(n)
  {
    IsPrimeIffPrime(n);
    if n < 2 {
      return false;
    }
    var m := Abs(n);
    var bound := IntSqrt(m);
    IsqrtUnique(m, bound);
    var i := 2;
    while i < bound + 1
      invariant 2 <= i
      invariant forall d :: 2 <= d < i ==> !Divides(d, m)
    {
      if m % i == 0 {
        assert Divides(i, m);
        return false;
      }
      i := i + 1;
    }
    return true;
  }

  // ---------------------------------------------------------------------------
  // is_perfect

  /** Sum of the divisors of n among 1, 2, ..., k - 1: at least 1 once the
      range holds 1, which divides everything, and at most 1 + 2 + ... + (k - 1). */
  function DivisorSum(n: nat, k: nat): (s: nat)
    ensures k >= 2 ==> s >= 1
    ensures 2 * s <= k * (k - 1)
  {
    if k <= 1 then 0
    else DivisorSum(n, k - 1) + (if n % (k - 1) == 0 then k - 1 else 0)
  }

  /** `is_perfect(n)`: false below 1, otherwise the proper divisors sum to n.
      The smallest perfect number is 6, and no prime is perfect. */
  predicate IsPerfect(n: int)
    ensures IsPerfect(n) ==> n >= 6 && !Prime(n)
  {
    PerfectBounds(n);
    n >= 1 && DivisorSum(n, n) == n
  }

  lemma PerfectBounds(n: int)
    ensures n >= 1 && DivisorSum(n, n) == n ==> n >= 6 && !Prime(n)
  {
    if n >= 1 && DivisorSum(n, n) == n {
      if Prime(n) {
        PrimeDivisorSum(n, n);
      }
    }
  }

  /** The loop of `is_perfect`: adds up the divisors among 1, ..., n - 1. */
  method IsPerfectLoop(n: int) returns (r: bool)
    ensures r <==> n >= 1 && DivisorSum(n, n) == n
  {
    if n < 1 {
      return false;
    }
    var sum := 0;
    var i := 1;
    while i < n
      invariant 1 <= i <= n
      invariant sum == DivisorSum(n, i)
    {
      if n % i == 0 {
        sum := sum + i;
      }
      i := i + 1;
    }
    return sum == n;
  }

  /** 6 is perfect; 0, 1, 5 and -6 are not. */
  lemma PerfectExamples()
    ensures IsPerfect(6)
    ensures !IsPerfect(0) && !IsPerfect(1) && !IsPerfect(5) && !IsPerfect(-6)
  {
  }

  lemma DivisorSumOf28Below14()
    ensures DivisorSum(28, 14) == 14
  {
    assert DivisorSum(28, 2) == 1;
    assert DivisorSum(28, 3) == 3;
    assert DivisorSum(28, 4) == 3;
    assert DivisorSum(28, 5) == 7;
    assert DivisorSum(28, 6) == 7;
    assert DivisorSum(28, 7) == 7;
    assert DivisorSum(28, 8) == 14;
    assert DivisorSum(28, 9) == 14;
    assert DivisorSum(28, 10) == 14;
    assert DivisorSum(28, 11) == 14;
    assert DivisorSum(28, 12) == 14;
    assert DivisorSum(28, 13) == 14;
    assert DivisorSum(28, 14) == 14;
  }

  lemma DivisorSumOf28Below15()
    ensures DivisorSum(28, 15) == 28
  {
    DivisorSumOf28Below14();
    assert DivisorSum(28, 15) == 28;
  }

  /** 28, the second perfect number, is perfect. */
  lemma TwentyEightIsPerfect()
    ensures IsPerfect(28)
  {
    DivisorSumOf28Below15();
    assert DivisorSum(28, 16) == 28;
    assert DivisorSum(28, 17) == 28;
    assert DivisorSum(28, 18) == 28;
    assert DivisorSum(28, 19) == 28;
    assert DivisorSum(28, 20) == 28;
    assert DivisorSum(28, 21) == 28;
    assert DivisorSum(28, 22) == 28;
    assert DivisorSum(28, 23) == 28;
    assert DivisorSum(28, 24) == 28;
    assert DivisorSum(28, 25) == 28;
    assert DivisorSum(28, 26) == 28;
    assert DivisorSum(28, 27) == 28;
    assert DivisorSum(28, 28) == 28;
  }

  /** A prime's only proper divisor is 1, so no prime is perfect. */
  lemma PrimeIsNotPerfect(p: int)
    requires Prime(p)
    ensures DivisorSum(p, p) == 1
    ensures !IsPerfect(p)
  {
    PrimeDivisorSum(p, p);
  }

  lemma {:induction false} PrimeDivisorSum(p: int, k: nat)
    requires Prime(p) && 2 <= k <= p
    ensures DivisorSum(p, k) == 1
  {
    if k > 2 {
      PrimeDivisorSum(p, k - 1);
      assert !Divides(k - 1, p);
    }
  }

  // ---------------------------------------------------------------------------
  // is_armstrong

  /** `is_armstrong(n)`: |n| equals the sum of its digits each raised to
      the number of digits. No number of two digits has that property. */
  predicate IsArmstrong(n: int)
    ensures 10 <= Abs(n) <= 99 ==> !IsArmstrong(n)
  {
    NoTwoDigitArmstrong(Abs(n));
    var ds := Digits(Abs(n));
    Abs(n) == PowerSum(ds, |ds|)
  }

  lemma NoTwoDigitArmstrong(m: nat)
    ensures 10 <= m <= 99 ==> m != PowerSum(Digits(m), |Digits(m)|)
  {
    if 10 <= m <= 99 {
      var a, b := m / 10, m % 10;
      assert Digits(m) == [a, b];
      assert [a, b][..1] == [a] && [a][..0] == [];
      PowTwo(a);
      PowTwo(b);
      assert PowerSum([a], 2) == Pow(a, 2);
      assert PowerSum([a, b], 2) == a * a + b * b;
      TwoDigitSquares(a, b);
    }
  }

  /** a*a + b*b never equals the two-digit number with digits a and b. */
  lemma TwoDigitSquares(a: int, b: int)
    requires 1 <= a <= 9 && 0 <= b <= 9
    ensures a * a + b * b != 10 * a + b
  {
    assert b == 0 || b == 1 || b == 2 || b == 3 || b == 4 || b == 5 || b == 6 || b == 7 || b == 8 || b == 9;
    assert a == 1 || a == 2 || a == 3 || a == 4 || a == 5 || a == 6 || a == 7 || a == 8 || a == 9;
  }

  /** Armstrong status depends only on the magnitude. */
  lemma ArmstrongIgnoresSign(n: int)
    ensures IsArmstrong(-n) == IsArmstrong(n)
  {
  }

  /** Every single-digit number, and its negation, is an Armstrong number. */
  lemma SingleDigitsAreArmstrong(d: int)
    requires -9 <= d <= 9
    ensures IsArmstrong(d)
  {
    assert Digits(Abs(d)) == [Abs(d)];
    assert PowerSum([Abs(d)], 1) == Pow(Abs(d), 1);
  }

  lemma ArmstrongExamples()
    ensures IsArmstrong(153) && IsArmstrong(-153) && IsArmstrong(9474)
  {
    assert Digits(153) == [1, 5, 3];
    assert Digits(9474) == [9, 4, 7, 4];
    assert Pow(1, 3) == 1 && Pow(5, 3) == 125 && Pow(3, 3) == 27;
    assert PowerSum([1, 5, 3], 3) == 153 by {
      assert [1, 5, 3][..2] == [1, 5];
      assert [1, 5][..1] == [1];
    }
    assert Pow(9, 4) == 6561 && Pow(4, 4) == 256 && Pow(7, 4) == 2401;
    assert PowerSum([9, 4, 7, 4], 4) == 9474 by {
      assert [9, 4, 7, 4][..3] == [9, 4, 7];
      assert [9, 4, 7][..2] == [9, 4];
      assert [9, 4][..1] == [9];
    }
  }

  lemma NotArmstrongExamples()
    ensures !IsArmstrong(154) && !IsArmstrong(10) && !IsArmstrong(-10)
  {
    assert Digits(154) == [1, 5, 4];
    assert Digits(10) == [1, 0];
    assert Pow(1, 3) == 1 && Pow(5, 3) == 125 && Pow(4, 3) == 64;
    assert PowerSum([1, 5, 4], 3) == 190 by {
      assert [1, 5, 4][..2] == [1, 5];
      assert [1, 5][..1] == [1];
    }
    assert PowerSum([1, 0], 2) == 1 by {
      assert [1, 0][..1] == [1];
    }
  }

  /** The computation of `is_armstrong`: the power is the length of `str(abs(n))`,
      and the terms are summed over its characters in order. */
  method IsArmstrongLoop(n: int) returns (r: bool)
    ensures r == IsArmstrong(n)
  {
    var m := Abs(n);
    var numStr := ToDecimal(m);
    var power := |numStr|;
    ghost var ds := Digits(m);
    var total := 0;
    var i := 0;
    while i < |numStr|
      invariant 0 <= i <= |numStr|
      invariant total == PowerSum(ds[..i], power)
    {
      assert ds[..i + 1][..i] == ds[..i];
      total := total + Pow(CharDigit(numStr[i]), power);
      i := i + 1;
    }
    assert ds[..|ds|] == ds;
    return m == total;
  }

  // ---------------------------------------------------------------------------
  // get_properties

  /** Twice k. */
  function Double(k: int): int
  {
    k + k
  }

  /** The parity tag, by Python's `n % 2`, which is never negative: "even"
      exactly for the numbers that are twice an integer, "odd" for the rest. */
  function ParityTag(n: int): (s: string)
    ensures s == "even" || s == "odd"
    ensures s == "even" <==> exists k :: Double(k) == n
  {
    if n % 2 == 0 then
      assert Double(n / 2) == n;
      "even"
    else "odd"
  }

  /** Parity alternates, ignores sign and starts at "even" for 0: the tag is
      the mathematical parity, also for negative n. */
  lemma ParityTagIsParity(n: int)
    ensures ParityTag(0) == "even" && ParityTag(-3) == "odd"
    ensures ParityTag(n + 1) != ParityTag(n)
    ensures ParityTag(-n) == ParityTag(n)
  {
  }

  /** `get_properties(n)`: "armstrong" when it applies, then exactly one
      parity tag. */
  function Properties(n: int): (r: seq<string>)
    ensures 1 <= |r| <= 2
    ensures ("even" in r) != ("odd" in r)
    ensures "armstrong" in r <==> IsArmstrong(n)
    ensures IsArmstrong(n) ==> r[0] == "armstrong"
    ensures r[|r| - 1] == ParityTag(n)
    ensures |r| == 2 <==> IsArmstrong(n)
  {
    (if IsArmstrong(n) then ["armstrong"] else []) + [ParityTag(n)]
  }

  // ---------------------------------------------------------------------------
  // get_digit_sum

  /** `get_digit_sum(n)`: the sum of the decimal digits of |n|. */
  function DigitSum(n: int): (r: nat)
    ensures r <= 9 * DigitCount(Abs(n))
    ensures r == 0 <==> n == 0
  {
    ZeroDigitSum(Digits(Abs(n)));
    Sum(Digits(Abs(n)))
  }

  /** A canonical digit sequence sums to 0 only when it is the single digit 0. */
  lemma {:induction false} ZeroDigitSum(ds: seq<int>)
    requires Canonical(ds)
    ensures Sum(ds) == 0 <==> ValueOf(ds) == 0
  {
    if |ds| > 1 {
      var ps := ds[..|ds| - 1];
      assert ps[0] == ds[0];
      assert Canonical(ps);
      ZeroDigitSum(ps);
      ValueBounds(ps);
      Pow10AtLeastOne(|ps| - 1);
    }
  }

  /** The digit sum ignores sign, and is congruent to |n| modulo 9. */
  lemma DigitSumFacts(n: int)
    ensures DigitSum(-n) == DigitSum(n)
    ensures DigitSum(n) % 9 == Abs(n) % 9
  {
    assert Abs(-n) == Abs(n);
    SumCongruentModNine(Digits(Abs(n)));
  }

  lemma DigitSumExamples()
    ensures DigitSum(123) == 6 && DigitSum(-45) == 9 && DigitSum(0) == 0
  {
    assert Digits(123) == [1, 2, 3];
    assert Digits(45) == [4, 5];
    assert [1, 2, 3][..2] == [1, 2] && [1, 2][..1] == [1];
    assert [4, 5][..1] == [4];
  }

  lemma PrimeExamples()
    ensures IsPrime(2) && IsPrime(7) && !IsPrime(9) && !IsPrime(153)
    ensures !IsPrime(0) && !IsPrime(1) && !IsPrime(-7)
  {
  }

  /** The computation of `get_digit_sum`: adds the digit characters of
      `str(abs(n))` in order. */
  method DigitSumLoop(n: int) returns (s: nat)
    ensures s == DigitSum(n)
  {
    var numStr := ToDecimal(Abs(n));
    ghost var ds := Digits(Abs(n));
    s := 0;
    var i := 0;
    while i < |numStr|
      invariant 0 <= i <= |numStr|
      invariant s == Sum(ds[..i])
    {
      assert ds[..i + 1][..i] == ds[..i];
      s := s + CharDigit(numStr[i]);
      i := i + 1;
    }
    assert ds[..|ds|] == ds;
  }
}
