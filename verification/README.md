# Number classification, modelled in Dafny

The repository is a small web service. `GET /api/classify-number?number=<value>`
answers with:

- whether the number is prime;
- whether it is perfect;
- a list of tags: `"armstrong"` when it applies, then `"even"` or `"odd"`;
- the sum of its decimal digits;
- a "fun fact". This is trivia text fetched from a remote service. When that
  request fails, a sentence is built locally from the digits.

This project models the number-classification core of `terraform-module/app.py`
on integer inputs:

- the predicates `is_prime`, `is_perfect`, `is_armstrong`, `get_properties` and
  `get_digit_sum`;
- the local fallback of `get_fun_fact`;
- the decision of `classify_number`: reject a missing or blank parameter, reject
  one that does not parse, otherwise classify the number.

Modules:

- `Decimal` (decimal.dfy): digits of a natural number, `str`/`int` on integers,
  `**`, and digit sums. It proves the round trips between numbers, digit
  sequences and decimal strings, and characterises the digit count by powers of
  ten.
- `Text` (text.dfy): Python's `str.strip()` with its whitespace set, and
  `str.join`. It also has a splitter that undoes a `" + "` join of equal-width
  terms.
- `Classifier` (classifier.dfy): one specification function per predicate.
  The loops of `is_prime`, `is_perfect`, `is_armstrong` and `get_digit_sum` are
  methods proved equal to their functions. Beyond that:
  - `is_prime` is proved equal to ordinary primality, an independent definition
    (no divisor in [2, n)).
  - `is_perfect` has no independent definition here. Its loop is proved equal
    to the sum of the divisors in [1, n). Consequences are proved: the smallest
    perfect number is 6, no prime is perfect, and 6 and 28 are perfect.
  - `is_armstrong` is stated on the digit sequence of abs(n), and its loop over
    the characters of `str(abs(n))` is proved equal to that. Consequences are
    proved: the result ignores the sign, every single digit qualifies, no
    two-digit number does, and worked values hold.
  - The parity tag is "even" exactly for the numbers that are twice an integer.
    It alternates and ignores the sign.
  - The digit sum is congruent to abs(n) modulo 9.
- `FunFact` (fun_fact.dfy): the fallback sentences and the resolver. The
  generator joined by `" + "` is a sequence comprehension (`Terms`), not a loop
  method. Its partner is the splitter in `Text`. The proofs show that the
  Armstrong sentence can be split back into one `d^p` term per digit, in digit
  order. They also show that the other sentence reports the digit count,
  characterised by powers of ten.
- `FunFactCases` (fun_fact_cases.dfy): worked fallback sentences.
- `Handler` (handler.dfy): the response of one request, as a pure function of:
  - the parameter;
  - a parse function;
  - the outcome of the remote lookup.

  A second version built from the loop methods is proved equal to it.
- `Wrappers` (wrappers.dfy): `Option`.

Two behaviours of the code worth stating:

- `is_prime` returns false for every n < 2 before `abs(n)` is taken
  (app.py:10-11), so no negative number is prime.
- The non-Armstrong fallback measures `str(abs(n))` (app.py:70), so a sign is
  never counted.

## Model

| member | source | states |
|---|---|---|
| Classifier.IsPrime | terraform-module/app.py:9-15 | false for every n < 2; for n >= 2, true exactly when no d in [2, isqrt(n)] divides n |
| Classifier.TrialDivision | terraform-module/app.py:12-15 | the early-exit trial loop over i..hi answers true exactly when no candidate in that range divides n |
| Classifier.IsPrimeIffPrime | terraform-module/app.py:9-15 | trial division up to the integer square root decides ordinary primality (no divisor in [2, n)) |
| Classifier.IsPrimeLoop | terraform-module/app.py:12-15 | the loop with its square-root bound returns true exactly for primes |
| Classifier.Isqrt | terraform-module/app.py:12 | the bound of the trial loop is the r with r*r <= n < (r+1)*(r+1) |
| Classifier.IntSqrt | terraform-module/app.py:12 | the bound computed by counting up satisfies r*r <= n < (r+1)*(r+1) |
| Classifier.IsqrtUnique | terraform-module/app.py:12 | that bracketing determines the bound uniquely |
| Classifier.PrimeExamples | terraform-module/app.py:9-15 | 2 and 7 are prime; 0, 1, -7, 9 and 153 are not |
| Classifier.DivisorSum | terraform-module/app.py:29-31 | the sum of the divisors of n below k is at least 1 once the range holds 1, and at most 1 + 2 + ... + (k - 1) |
| Classifier.IsPerfect | terraform-module/app.py:17-32 | every perfect number is at least 6 and is not prime |
| Classifier.IsPerfectLoop | terraform-module/app.py:17-32 | false for n < 1; otherwise true exactly when the divisors of n in [1, n) sum to n |
| Classifier.PerfectExamples | terraform-module/app.py:17-32 | 6 is perfect; 0, 1, 5 and -6 are not |
| Classifier.TwentyEightIsPerfect | terraform-module/app.py:17-32 | 28 is perfect |
| Classifier.PrimeIsNotPerfect | terraform-module/app.py:17-32 | a prime's proper divisors sum to 1, so no prime is perfect |
| Classifier.IsArmstrong | terraform-module/app.py:34-38 | no number with two digits (10 <= abs(n) <= 99) is an Armstrong number |
| Classifier.ArmstrongIgnoresSign | terraform-module/app.py:34-38 | Armstrong status of -n equals that of n |
| Classifier.SingleDigitsAreArmstrong | terraform-module/app.py:34-38 | every n with abs(n) <= 9 is an Armstrong number |
| Classifier.ArmstrongExamples | terraform-module/app.py:34-38 | 153, -153 and 9474 are Armstrong numbers |
| Classifier.NotArmstrongExamples | terraform-module/app.py:34-38 | 154, 10 and -10 are not |
| Classifier.IsArmstrongLoop | terraform-module/app.py:36-38 | raising each character of str(abs(n)) to the string's length and summing gives abs(n) exactly for Armstrong numbers |
| Classifier.ParityTag | terraform-module/app.py:47-50 | the tag is "even" or "odd", and "even" exactly when n is twice some integer |
| Classifier.ParityTagIsParity | terraform-module/app.py:47-50 | the tag alternates between n and n+1, ignores sign and is "even" at 0, so -3 is "odd" |
| Classifier.Properties | terraform-module/app.py:42-52 | one or two tags; exactly one of "even"/"odd", matching n mod 2; "armstrong" present iff the number is Armstrong, and then first |
| Classifier.DigitSum | terraform-module/app.py:54-56 | at most 9 times the digit count of abs(n), and 0 only for n = 0 |
| Classifier.DigitSumFacts | terraform-module/app.py:54-56 | the digit sum of -n equals that of n, and it is congruent to abs(n) modulo 9 |
| Classifier.DigitSumExamples | terraform-module/app.py:54-56 | 123 gives 6, -45 gives 9, 0 gives 0 |
| Classifier.DigitSumLoop | terraform-module/app.py:56 | adding the digit characters of str(abs(n)) in order gives the digit sum |
| Decimal.Pow | terraform-module/app.py:38 | `b ** e` is never negative for b >= 0, and at least 1 for b >= 1 |
| Decimal.Digits | terraform-module/app.py:36 | the digits of str(abs(n)) are canonical (one or more, no leading zero) and denote n |
| Decimal.DigitsOfValue | terraform-module/app.py:36 | every canonical digit sequence is the digit sequence of its value |
| Decimal.DecimalRoundTrip | terraform-module/app.py:36 | int(str(n)) == n for n >= 0, and str(n) is a canonical decimal string |
| Decimal.DecimalRoundTripBack | terraform-module/app.py:36 | str(int(s)) == s for every canonical decimal string s |
| Decimal.DigitCountCharacterized | terraform-module/app.py:37 | the length of str(n) is the k >= 1 with 10^(k-1) <= n < 10^k (k = 1 for 0) |
| Decimal.ToDecimal | terraform-module/app.py:36 | str(n) for n >= 0 has one character per digit of n, each a digit character standing for that digit, in order |
| Decimal.IntToString | terraform-module/app.py:69-70 | str of an integer has a leading "-" exactly when it is negative; what follows the sign is a canonical decimal string that reads back as abs(n), one character per digit |
| Decimal.SumCongruentModNine | terraform-module/app.py:56 | a digit sequence's sum is congruent to its value modulo 9 |
| Text.IsSpace | terraform-module/app.py:78 | space, tab, newline and carriage return are whitespace; no digit, "-" or "." is |
| Text.TrimStart | terraform-module/app.py:78 | stripping on the left removes a prefix made only of whitespace and leaves no leading whitespace |
| Text.TrimEnd | terraform-module/app.py:78 | stripping on the right removes a suffix made only of whitespace and leaves no trailing whitespace |
| Text.Strip | terraform-module/app.py:78 | strip() is the slice of s left after cutting away only whitespace at both ends, starting right after the leading whitespace; it neither starts nor ends with whitespace |
| Text.StripEmptyIffAllSpace | terraform-module/app.py:78 | strip() gives "" exactly when every character is whitespace |
| Text.Join | terraform-module/app.py:69 | `sep.join(parts)` opens with the first part, followed by the separator when there is a second part |
| Text.SplitJoinedTerms | terraform-module/app.py:69 | " + ".join of one or more equal-width terms splits back into the same terms |
| Text.JoinSplitTerms | terraform-module/app.py:69 | whatever splits into terms is the " + ".join of those terms, so splitting and joining are inverse |
| FunFact.Term | terraform-module/app.py:69 | the term `f"{d}^{power}"` is 2 + the width of str(power) long and reads back as digit d and that power |
| FunFact.Terms | terraform-module/app.py:69 | the generator gives one term per digit, in digit order, each of the same width and reading back as its digit and the power |
| FunFact.DecodeTermExact | terraform-module/app.py:69 | reading back is one-to-one: the only text that reads as digit d and power p is the term `f"{d}^{p}"` itself |
| FunFact.ArmstrongFact | terraform-module/app.py:66-69 | for every n the sentence opens with str(n) and the marker and closes with " = abs(n)"; between them it splits into one "d^p" term per digit of abs(n), in digit order, each a digit character, "^" and a canonical decimal power that reads back as that digit and the digit count |
| FunFact.DigitCountFact | terraform-module/app.py:70 | the sentence is "The number str(n) has k digits", where k is written as a canonical decimal string and 10^(k-1) <= abs(n) < 10^k (k = 1 for 0) |
| FunFact.ReportsDigitCountExact | terraform-module/app.py:70 | a sentence that reports the digit count of m after a given opening is exactly that opening, str of the count and " digits" |
| FunFact.Fallback | terraform-module/app.py:66-70 | the fallback opens with str(n) exactly when n is an Armstrong number, so the two sentences are told apart by their opening |
| FunFact.Resolve | terraform-module/app.py:60-70 | a successful remote lookup's text is returned verbatim; on failure, the Armstrong explanation or the digit-count sentence |
| FunFact.ArmstrongFactLists | terraform-module/app.py:66-69 | for an Armstrong number, the fallback starts with the number and the marker and ends with " = abs(n)"; between them it splits into exactly one "d^p" term per digit of abs(n), in digit order, each a digit character, "^" and a canonical decimal power, reading back as that digit and p = the digit count |
| FunFact.ListsDigitTermsExact | terraform-module/app.py:69 | a sentence that lists the digit terms between a given opening and closing is exactly the opening, the " + ".join of the terms `f"{d}^{p}"`, and the closing |
| FunFact.JoinedTermsDecode | terraform-module/app.py:69 | the joined terms split back into exactly the generated terms, one per digit, each decoding to its digit and the power |
| FunFact.DigitCountFactReports | terraform-module/app.py:70 | for any other number, the reported count is a canonical decimal k with 10^(k-1) <= abs(n) < 10^k, and equals the length of str(n) minus its sign |
| FunFact.FloatToString | terraform-module/app.py:70 | str of a float holding an integer below 10^16 in magnitude is str of the integer followed by ".0" |
| FunFact.DigitCountFactAsWritten | terraform-module/app.py:70 | with the float the handler passes, the sentence shows str(n) + ".0", ends with " digits", and reports as a canonical decimal the digit count of abs(n) plus two |
| FunFact.AsWrittenOvercounts | terraform-module/app.py:70 | for every n below 10^16 in magnitude, the as-written sentence differs from the corrected one: right after the number it has "." where the corrected sentence has " " |
| FunFactCases.ArmstrongFallbackExample | terraform-module/app.py:66-69 | the fallback for 153 reads "153 is an Armstrong number because 1^3 + 5^3 + 3^3 = 153" |
| FunFactCases.DigitCountFallbackExample | terraform-module/app.py:70 | the fallback for -10 reads "The number -10 has 2 digits" |
| FunFactCases.AsWrittenCountExample | terraform-module/app.py:70 | as written, 154 is reported as "The number 154.0 has 5 digits" |
| Handler.IsMissing | terraform-module/app.py:78 | `not s or s.strip() == ""` holds exactly when the parameter is absent or every character of it is whitespace |
| Handler.Classify | terraform-module/app.py:89-97 | the payload carries the number, primality, perfection, exactly the tags of get_properties ("armstrong" iff Armstrong, ending in the parity tag), the digit sum, and the remote text on success or the local fallback sentence on failure |
| Handler.ClassifiedFields | terraform-module/app.py:82-97 | a present, non-blank parameter that parses to n gives status 200 with number n, primality Prime(n), the tags of get_properties and the digit sum of n |
| Handler.ClassifyNumber | terraform-module/app.py:74-99 | status 400 with a null number exactly when the parameter is absent or all whitespace; 400 echoing the parameter exactly when it is present but does not parse; otherwise 200 with the classification of the parsed number |
| Handler.HandleRequest | terraform-module/app.py:74-99 | the handler built from the loop methods gives the same response as `Handler.ClassifyNumber` on every input |
| Handler.RequestExample | terraform-module/app.py:89-99 | a request for 153 gives status 200, not prime, tags ["armstrong", "odd"], digit sum 9 |
| Handler.MissingParameterExamples | terraform-module/app.py:78-80 | an absent, empty or blank parameter gives BadRequest with a null number |

## Findings

| source | as written | input that shows it | evidently intended | confidence | as-written member | corrected member |
|---|---|---|---|---|---|---|
| terraform-module/app.py:70 | the handler passes `float(number_str)`, so `len(str(abs(n)))` also counts the two characters of the ".0" suffix | number=154 gives "The number 154.0 has 5 digits" | the count of decimal digits of abs(n), here 3 | high; not executed | FunFact.AsWrittenOvercounts | FunFact.DigitCountFactReports |

The rest of the model uses the corrected sentence, `FunFact.DigitCountFact`.
`FunFact.DigitCountFactAsWritten` models the sentence as written, and
`FunFactCases.AsWrittenCountExample` works out the 154 case.

## Left out

- Flask application setup, CORS, routing, `jsonify`, the `print` logging and `app.run` (app.py:1-7, 73-76, 98, 106-108). These are framework and I/O plumbing.
- The outbound HTTP request to the trivia service and `raise_for_status` (app.py:62-64). These are network I/O. The outcome is the `remote: Option<string>` parameter of `FunFact.Resolve`, and `lookup: int -> Option<string>` in the handler.
- `float(number_str)` (app.py:83). Numeric parsing is the `parse: string -> Option<int>` parameter of `Handler.ClassifyNumber`. Inputs are integers throughout.
- Float semantics, other than the digit-count finding above. This covers:
  - float rendering such as "153.0" in the payload and in the Armstrong sentence;
  - the float modulo of `is_perfect`;
  - the truncation of fractional inputs by `int(n)`;
  - `inf` and `nan`, with their `ValueError` and `OverflowError` paths.
- Classifier.IsPrime: the bound `int(math.sqrt(abs(n)))` is modelled as the exact integer square root. For n above 2^52 the floating-point square root can round, and the real bound may then differ by one.
- The catch-all status-500 path (app.py:101-103). With integer inputs, no step of the model can fail.
