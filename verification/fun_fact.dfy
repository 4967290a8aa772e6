/** The fun fact of `get_fun_fact`: the remote trivia text when the lookup
    succeeds, otherwise a sentence built locally from the digits of the number. */
module FunFact {
  import opened Wrappers
  import opened Decimal
  import opened Text
  import opened Classifier

  /** One term `f"{d}^{power}"` of the Armstrong explanation: it reads back
      as the digit and the power. */
  function Term(d: int, p: nat): (t: string)
    requires IsDigit(d)
    ensures |t| == 2 + DigitCount(p)
    ensures DecodeTerm(t) == Some((d, p))
  {
    var t := [DigitChar(d)] + "^" + ToDecimal(p);
    assert t[2..] == ToDecimal(p);
    DecimalRoundTrip(p);
    t
  }

  /** One term per digit, in digit order, all with the same power. */
  function Terms(ds: seq<int>, p: nat): (ts: seq<string>)
    requires AllDigits(ds)
    ensures |ts| == |ds|
    ensures forall i :: 0 <= i < |ts| ==> |ts[i]| == 2 + DigitCount(p)
    ensures forall i :: 0 <= i < |ts| ==> DecodeTerm(ts[i]) == Some((ds[i], p))
  {
    seq(|ds|, i requires 0 <= i < |ds| => Term(ds[i], p))
  }

  /** Reads a term `d^p` back as its digit and its power, where d is one
      digit character and p is written as `str` writes a non-negative
      integer; None for any other text. */
  function DecodeTerm(t: string): Option<(int, int)>
  {
    if |t| >= 2 && IsDigitChar(t[0]) && t[1] == '^' && IsDecimal(t[2..]) then
      Some((CharDigit(t[0]), FromDecimal(t[2..])))
    else None
  }

  const ArmstrongMarker: string := " is an Armstrong number because "
  const DigitsSuffix: string := " digits"

  /** The Armstrong explanation: the number, then `d^p` for each digit d of
      |n| joined by " + ", then " = |n|". The terms can be split back out and
      each reads as its digit raised to the digit count. */
  function ArmstrongFact(n: int): (s: string)
    ensures ListsDigitTerms(s, IntToString(n) + ArmstrongMarker, " = " + ToDecimal(Abs(n)),
                            Digits(Abs(n)), DigitCount(Abs(n)))
  {
    var ds := Digits(Abs(n));
    var lead := IntToString(n) + ArmstrongMarker;
    var tail := " = " + ToDecimal(Abs(n));
    TermLayout(lead, ds, |ds|, tail);
    lead + Join(Terms(ds, |ds|), " + ") + tail
  }

  /** The sentence for other numbers: the length of `str(abs(n))`, which is
      the number of decimal digits of |n| as characterised by powers of ten. */
  function DigitCountFact(n: int): (s: string)
    ensures ReportsDigitCount(s, "The number " + IntToString(n) + " has ", Abs(n))
  {
    var lead := "The number " + IntToString(n) + " has ";
    CountSentence(lead, Abs(n));
    lead + ToDecimal(|ToDecimal(Abs(n))|) + DigitsSuffix
  }

  /** The deterministic fallback of `get_fun_fact`. Its opening tells the two
      sentences apart: it starts with `str(n)` exactly for Armstrong numbers. */
  function Fallback(n: int): (s: string)
    ensures var lead := IntToString(n);
            IsArmstrong(n) <==> |lead| <= |s| && s[..|lead|] == lead
  {
    var num := IntToString(n);
    if IsArmstrong(n) then
      var s := ArmstrongFact(n);
      PrefixOfPrefix(s, num, ArmstrongMarker);
      s
    else
      var s := DigitCountFact(n);
      var lead := "The number " + num + " has ";
      assert s[..|lead|] == lead;
      assert s[0] == lead[0] == 'T';
      assert |num| >= 1 && num[0] != 'T' by {
        assert n >= 0 ==> IsDecimal(num[0..]);
      }
      s
  }

  /** `get_fun_fact(n)`, with the outcome of the remote request as a parameter:
      the body text on success, the local fallback on any failure. */
  function Resolve(n: int, remote: Option<string>): (r: string)
    ensures remote.Some? ==> r == remote.value
    ensures remote.None? && IsArmstrong(n) ==> r == ArmstrongFact(n)
    ensures remote.None? && !IsArmstrong(n) ==> r == DigitCountFact(n)
  {
    match remote
    case Some(text) => text
    case None => Fallback(n)
  }

  /** A string that opens with a + b opens with a. */
  lemma PrefixOfPrefix(s: string, a: string, b: string)
    requires |a + b| <= |s| && s[..|a + b|] == a + b
    ensures |a| <= |s| && s[..|a|] == a
  {
    assert s[..|a|] == s[..|a + b|][..|a|];
  }

  /** The three parts of a concatenation can be sliced back out of it. */
  lemma Framing(lead: string, body: string, tail: string)
    ensures var s := lead + body + tail;
            && (s[..|lead|] == lead)
            && (s[|s| - |tail|..] == tail)
            && (s[|lead|..|s| - |tail|] == body)
  {
  }

  /** s is lead, then one `d^p` term for each digit d of ds in order, joined
      by " + ", then tail: the terms are recovered by splitting the middle of
      s and each decodes back to its digit and the power. */
  predicate ListsDigitTerms(s: string, lead: string, tail: string, ds: seq<int>, p: nat)
  {
    && |lead| + |tail| <= |s|
    && s[..|lead|] == lead
    && s[|s| - |tail|..] == tail
    && var ts := SplitTerms(s[|lead|..|s| - |tail|], 2 + DigitCount(p));
       && ts.Some?
       && |ts.value| == |ds|
       && forall i :: 0 <= i < |ds| ==> DecodeTerm(ts.value[i]) == Some((ds[i], p))
  }

  /** The fallback for an Armstrong number opens with the number and the
      marker, closes with " = |n|", and between them holds exactly one term
      per digit of |n|, in digit order, each reading back as that digit
      raised to the digit count. */
  lemma ArmstrongFactLists(n: int)
    requires IsArmstrong(n)
    ensures ListsDigitTerms(Fallback(n), IntToString(n) + ArmstrongMarker, " = " + ToDecimal(Abs(n)),
                            Digits(Abs(n)), DigitCount(Abs(n)))
  {
    var ds := Digits(Abs(n));
    TermLayout(IntToString(n) + ArmstrongMarker, ds, |ds|, " = " + ToDecimal(Abs(n)));
  }

  lemma TermLayout(lead: string, ds: seq<int>, p: nat, tail: string)
    requires AllDigits(ds) && |ds| >= 1
    ensures ListsDigitTerms(lead + Join(Terms(ds, p), " + ") + tail, lead, tail, ds, p)
  {
    var body := Join(Terms(ds, p), " + ");
    Framing(lead, body, tail);
    JoinedTermsDecode(ds, p);
  }

  /** The joined terms split back into one term per digit, each decoding to
      its digit and the power. */
  lemma JoinedTermsDecode(ds: seq<int>, p: nat)
    requires AllDigits(ds) && |ds| >= 1
    ensures var ts := SplitTerms(Join(Terms(ds, p), " + "), 2 + DigitCount(p));
            && ts.Some?
            && ts.value == Terms(ds, p)
            && |ts.value| == |ds|
            && forall i :: 0 <= i < |ds| ==> DecodeTerm(ts.value[i]) == Some((ds[i], p))
  {
    SplitJoinedTerms(Terms(ds, p), 2 + DigitCount(p));
  }

  /** Decoding is one-to-one: the only text that reads back as digit d and
      power p is the term `f"{d}^{p}"` itself. */
  lemma DecodeTermExact(t: string, d: int, p: int)
    requires DecodeTerm(t) == Some((d, p))
    ensures IsDigit(d) && p >= 0
    ensures t == Term(d, p)
  {
    var q := t[2..];
    DecimalRoundTripBack(q);
    assert t == [t[0]] + "^" + q;
  }

  /** The digit terms fix the sentence: any s that lists them between lead
      and tail is exactly lead, the joined terms `f"{d}^{p}"`, and tail. */
  lemma ListsDigitTermsExact(s: string, lead: string, tail: string, ds: seq<int>, p: nat)
    requires AllDigits(ds)
    requires ListsDigitTerms(s, lead, tail, ds, p)
    ensures s == lead + Join(Terms(ds, p), " + ") + tail
  {
    var mid := s[|lead|..|s| - |tail|];
    var ts := SplitTerms(mid, 2 + DigitCount(p)).value;
    JoinSplitTerms(mid, 2 + DigitCount(p));
    forall i | 0 <= i < |ds|
      ensures ts[i] == Terms(ds, p)[i]
    {
      DecodeTermExact(ts[i], ds[i], p);
    }
    assert ts == Terms(ds, p);
    assert s == s[..|lead|] + mid + s[|s| - |tail|..];
  }

  /** s is lead, then a decimal count k, then " digits", where k is the
      number of decimal digits of m: 10^(k-1) <= m < 10^k, or k = 1. */
  predicate ReportsDigitCount(s: string, lead: string, m: nat)
  {
    && |lead| + |DigitsSuffix| <= |s|
    && s[..|lead|] == lead
    && s[|s| - |DigitsSuffix|..] == DigitsSuffix
    && IsDecimal(s[|lead|..|s| - |DigitsSuffix|])
    && var k := FromDecimal(s[|lead|..|s| - |DigitsSuffix|]);
       && k >= 1
       && m < Pow(10, k)
       && (k == 1 || Pow(10, k - 1) <= m)
  }

  /** The count fixes the sentence: any s that reports the digit count of m
      after lead is exactly lead, `str` of that count, and " digits". */
  lemma ReportsDigitCountExact(s: string, lead: string, m: nat)
    requires ReportsDigitCount(s, lead, m)
    ensures s == lead + ToDecimal(DigitCount(m)) + DigitsSuffix
  {
    var mid := s[|lead|..|s| - |DigitsSuffix|];
    var k := FromDecimal(mid);
    DigitCountCharacterized(m, k);
    DecimalRoundTripBack(mid);
    assert s == s[..|lead|] + mid + s[|s| - |DigitsSuffix|..];
  }

  /** The fallback for any other number reports the digit count of |n|,
      characterised by powers of ten; that count is the length of `str(n)`
      without its sign. */
  lemma DigitCountFactReports(n: int)
    requires !IsArmstrong(n)
    ensures ReportsDigitCount(Fallback(n), "The number " + IntToString(n) + " has ", Abs(n))
    ensures |ToDecimal(Abs(n))| == |IntToString(n)| - (if n < 0 then 1 else 0)
  {
    var lead := "The number " + IntToString(n) + " has ";
    CountSentence(lead, Abs(n));
  }

  lemma CountSentence(lead: string, m: nat)
    ensures ReportsDigitCount(lead + ToDecimal(|ToDecimal(m)|) + DigitsSuffix, lead, m)
  {
    var c := |ToDecimal(m)|;
    Framing(lead, ToDecimal(c), DigitsSuffix);
    DecimalRoundTrip(c);
    DigitCountCharacterized(m, c);
  }

  // ---------------------------------------------------------------------------
  // The digit-count sentence as the handler actually produces it. The handler
  // converts the parameter with `float`, so the fallback receives a float and
  // `str(abs(n))` carries a trailing ".0" that is counted as two more digits.

  /** From 10^16 on, `str` of a float switches to exponent notation. */
  const ReprExponentBound: int := 10_000_000_000_000_000

  /** `str(x)` for a float x that holds an integer below 10^16 in magnitude:
      the integer's digits followed by ".0". */
  function FloatToString(n: int): (s: string)
    requires Abs(n) < ReprExponentBound
    ensures |s| == |IntToString(n)| + 2
    ensures s[..|IntToString(n)|] == IntToString(n) && s[|s| - 2..] == ".0"
  {
    IntToString(n) + ".0"
  }

  /** The non-Armstrong sentence for a float-valued n, as written: the count
      it reports exceeds the digit count of |n| by two. */
  function DigitCountFactAsWritten(n: int): (s: string)
    requires Abs(n) < ReprExponentBound
    ensures var lead := "The number " + FloatToString(n) + " has ";
            && |lead| + |DigitsSuffix| <= |s|
            && s[..|lead|] == lead
            && s[|s| - |DigitsSuffix|..] == DigitsSuffix
            && IsDecimal(s[|lead|..|s| - |DigitsSuffix|])
            && FromDecimal(s[|lead|..|s| - |DigitsSuffix|]) == DigitCount(Abs(n)) + 2
  {
    var lead := "The number " + FloatToString(n) + " has ";
    var c := |FloatToString(Abs(n))|;
    Framing(lead, ToDecimal(c), DigitsSuffix);
    DecimalRoundTrip(c);
    lead + ToDecimal(c) + DigitsSuffix
  }

  /** As written, the sentence differs from the corrected one for every n:
      it shows the number with ".0" and reports two more digits. */
  lemma AsWrittenOvercounts(n: int)
    requires Abs(n) < ReprExponentBound
    ensures DigitCountFactAsWritten(n) != DigitCountFact(n)
    ensures var s := DigitCountFactAsWritten(n);
            var t := DigitCountFact(n);
            var k := |"The number " + IntToString(n)|;
            && k < |s| && k < |t|
            && s[k] == '.' && t[k] == ' '
  {
    var c1 := ToDecimal(|FloatToString(Abs(n))|);
    var c2 := ToDecimal(|ToDecimal(Abs(n))|);
    SentencesDiverge(IntToString(n), c1, c2);
  }

  lemma SentencesDiverge(num: string, c1: string, c2: string)
    ensures var s := "The number " + (num + ".0") + " has " + c1 + DigitsSuffix;
            var t := "The number " + num + " has " + c2 + DigitsSuffix;
            var k := |"The number " + num|;
            && k < |s| && k < |t|
            && s[k] == '.' && t[k] == ' '
  {
    var k := |"The number " + num|;
    var s := "The number " + (num + ".0") + " has " + c1 + DigitsSuffix;
    var t := "The number " + num + " has " + c2 + DigitsSuffix;
    assert s[k] == (num + ".0")[|num|];
    assert t[k] == (" has " + c2 + DigitsSuffix)[0];
  }
}
