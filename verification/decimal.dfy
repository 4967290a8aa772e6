/** Decimal notation of integers, as Python's `str`, `int` and `**` produce and
    read it: digit sequences, their values, their character strings, and the
    sums over digits that the classifier computes. */
module Decimal {

  /** Magnitude of an integer, as Python's `abs`. */
  function Abs(n: int): nat
  {
    if n < 0 then -n else n
  }

  /** `b ** e` for a non-negative exponent. */
  /** `b ** e`: never negative for a non-negative base, and at least 1 for a
      positive one. */
  function Pow(b: int, e: nat): (r: int)
    ensures b >= 0 ==> r >= 0
    ensures b >= 1 ==> r >= 1
  {
    if e == 0 then 1 else b * Pow(b, e - 1)
  }

  /** The second power is the square. */
  lemma PowTwo(b: int)
    ensures Pow(b, 2) == b * b
  {
    assert Pow(b, 1) == b * Pow(b, 0);
  }

  lemma {:induction false} PowNonNegative(b: int, e: nat)
    requires b >= 0
    ensures Pow(b, e) >= 0
  {
    if e > 0 {
      PowNonNegative(b, e - 1);
    }
  }

  /** Powers of ten grow strictly with the exponent. */
  lemma {:induction false} Pow10Increasing(a: nat, b: nat)
    requires a < b
    ensures 1 <= Pow(10, a) < Pow(10, b)
  {
    if a + 1 == b {
      Pow10AtLeastOne(a);
    } else {
      Pow10Increasing(a, b - 1);
    }
  }

  lemma {:induction false} Pow10AtLeastOne(e: nat)
    ensures Pow(10, e) >= 1
  {
    if e > 0 {
      Pow10AtLeastOne(e - 1);
    }
  }

  predicate IsDigit(d: int)
  {
    0 <= d <= 9
  }

  predicate AllDigits(ds: seq<int>)
  {
    forall i :: 0 <= i < |ds| ==> IsDigit(ds[i])
  }

  /** A digit sequence as `str` writes a non-negative integer: at least one
      digit, and no leading zero unless the number is 0 itself. */
  predicate Canonical(ds: seq<int>)
  {
    |ds| >= 1 && AllDigits(ds) && (ds[0] == 0 ==> |ds| == 1)
  }

  /** The number denoted by a most-significant-first digit sequence. */
  function ValueOf(ds: seq<int>): (v: int)
    ensures AllDigits(ds) ==> v >= 0
  {
    if |ds| == 0 then 0 else 10 * ValueOf(ds[..|ds| - 1]) + ds[|ds| - 1]
  }

  /** The decimal digits of n, most significant first. */
  function Digits(n: nat): (ds: seq<int>)
    ensures Canonical(ds)
    ensures ValueOf(ds) == n
  {
    if n < 10 then [n] else Digits(n / 10) + [n % 10]
  }

  /** Number of decimal digits of n; 0 has one digit. */
  function DigitCount(n: nat): nat
  {
    |Digits(n)|
  }

  /** k digits denote a value below 10^k, and at least 10^(k-1) when the
      leading digit is not zero. */
  lemma {:induction false} ValueBounds(ds: seq<int>)
    requires AllDigits(ds)
    ensures 0 <= ValueOf(ds) < Pow(10, |ds|)
    ensures |ds| >= 1 && ds[0] != 0 ==> Pow(10, |ds| - 1) <= ValueOf(ds)
  {
    if |ds| > 0 {
      var ps := ds[..|ds| - 1];
      assert AllDigits(ps);
      ValueBounds(ps);
      if |ds| > 1 {
        assert ps[0] == ds[0];
      }
    }
  }

  /** Digits and ValueOf are inverse on canonical digit sequences. */
  lemma {:induction false} DigitsOfValue(ds: seq<int>)
    requires Canonical(ds)
    ensures Digits(ValueOf(ds)) == ds
  {
    if |ds| > 1 {
      var ps := ds[..|ds| - 1];
      assert ps[0] == ds[0];
      assert Canonical(ps);
      DigitsOfValue(ps);
      ValueBounds(ps);
      Pow10AtLeastOne(|ps| - 1);
      var v := ValueOf(ds);
      assert v == 10 * ValueOf(ps) + ds[|ds| - 1];
      assert v / 10 == ValueOf(ps) && v % 10 == ds[|ds| - 1];
      assert ds == ps + [ds[|ds| - 1]];
    }
  }

  /** The digit count is the k with 10^(k-1) <= n < 10^k (k = 1 for n = 0),
      a characterisation that does not mention the digit sequence. */
  lemma DigitCountCharacterized(n: nat, k: nat)
    ensures DigitCount(n) == k <==>
            k >= 1 && n < Pow(10, k) && (k == 1 || Pow(10, k - 1) <= n)
  {
    var c := DigitCount(n);
    var ds := Digits(n);
    ValueBounds(ds);
    if k >= 1 && n < Pow(10, k) && (k == 1 || Pow(10, k - 1) <= n) && c != k {
      if c < k {
        Pow10Increasing(c, k - 1);
        assert false;
      } else {
        assert ds[0] != 0;
        Pow10Increasing(k, c - 1);
        assert false;
      }
    }
  }

  predicate IsDigitChar(c: char)
  {
    '0' <= c <= '9'
  }

  function DigitChar(d: int): char
    requires IsDigit(d)
  {
    (48 + d) as char
  }

  /** `int(c)` for a single digit character. */
  function CharDigit(c: char): int
  {
    c as int - 48
  }

  /** `str(n)` for a non-negative integer. */
  function ToDecimal(n: nat): (s: string)
    ensures |s| == DigitCount(n)
    ensures forall i :: 0 <= i < |s| ==> IsDigitChar(s[i]) && CharDigit(s[i]) == Digits(n)[i]
  {
    var ds := Digits(n);
    seq(|ds|, i requires 0 <= i < |ds| => DigitChar(ds[i]))
  }

  /** `str(n)` for any integer: a minus sign before the digits of a negative one. */
  function IntToString(n: int): (s: string)
    ensures |s| == DigitCount(Abs(n)) + (if n < 0 then 1 else 0)
    ensures n < 0 <==> (|s| > 0 && s[0] == '-')
    ensures var sign := if n < 0 then 1 else 0;
            IsDecimal(s[sign..]) && FromDecimal(s[sign..]) == Abs(n)
  {
    DecimalRoundTrip(Abs(n));
    if n < 0 then
      var s := "-" + ToDecimal(-n);
      assert s[1..] == ToDecimal(-n);
      s
    else ToDecimal(n)
  }

  /** The digit values written by a string of digit characters. */
  function DigitsOfString(s: string): (ds: seq<int>)
    ensures |ds| == |s|
  {
    seq(|s|, i requires 0 <= i < |s| => CharDigit(s[i]))
  }

  /** `int(s)` for a string of decimal digit characters. */
  function FromDecimal(s: string): int
  {
    ValueOf(DigitsOfString(s))
  }

  /** A string as `str` writes a non-negative integer. */
  predicate IsDecimal(s: string)
  {
    |s| >= 1 && (forall i :: 0 <= i < |s| ==> IsDigitChar(s[i])) && (s[0] == '0' ==> |s| == 1)
  }

  /** Reading back what `str` wrote gives the number again. */
  lemma DecimalRoundTrip(n: nat)
    ensures IsDecimal(ToDecimal(n))
    ensures FromDecimal(ToDecimal(n)) == n
  {
    var s := ToDecimal(n);
    assert DigitsOfString(s) == Digits(n);
  }

  /** Writing what was read from a canonical decimal string gives the string again. */
  lemma DecimalRoundTripBack(s: string)
    requires IsDecimal(s)
    ensures FromDecimal(s) >= 0
    ensures ToDecimal(FromDecimal(s)) == s
  {
    var ds := DigitsOfString(s);
    assert Canonical(ds);
    ValueBounds(ds);
    DigitsOfValue(ds);
    var t := ToDecimal(FromDecimal(s));
    assert |t| == |s|;
    forall i | 0 <= i < |s|
      ensures t[i] == s[i]
    {
      assert CharDigit(t[i]) == ds[i] == CharDigit(s[i]);
    }
  }

  /** Sum of a digit sequence. */
  function Sum(ds: seq<int>): (s: int)
    requires AllDigits(ds)
    ensures 0 <= s <= 9 * |ds|
  {
    if |ds| == 0 then 0 else Sum(ds[..|ds| - 1]) + ds[|ds| - 1]
  }

  /** Sum of the digits of a sequence, each raised to the power p. */
  function PowerSum(ds: seq<int>, p: nat): (s: int)
    requires AllDigits(ds)
    ensures s >= 0
  {
    if |ds| == 0 then 0
    else
      PowNonNegative(ds[|ds| - 1], p);
      PowerSum(ds[..|ds| - 1], p) + Pow(ds[|ds| - 1], p)
  }

  /** A number and the sum of its digits leave the same remainder modulo 9. */
  lemma {:induction false} SumCongruentModNine(ds: seq<int>)
    requires AllDigits(ds)
    ensures Sum(ds) % 9 == ValueOf(ds) % 9
  {
    if |ds| > 0 {
      var ps := ds[..|ds| - 1];
      var x := ds[|ds| - 1];
      SumCongruentModNine(ps);
      var v, s := ValueOf(ps), Sum(ps);
      assert (v - s) % 9 == 0 by {
        ModDifference(v, s);
      }
      var q := (v - s) / 9;
      assert v - s == 9 * q;
      assert ValueOf(ds) == (s + x) + 9 * (q + v);
      ModAddMultiple(s + x, q + v);
    }
  }

  lemma ModDifference(a: int, b: int)
    requires a % 9 == b % 9
    ensures (a - b) % 9 == 0
  {
  }

  lemma ModAddMultiple(a: int, k: int)
    ensures (a + 9 * k) % 9 == a % 9
  {
  }
}
