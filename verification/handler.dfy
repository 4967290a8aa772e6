/** The decision made by the `/api/classify-number` request handler
    (`classify_number`): reject a missing or blank parameter, reject one that
    does not parse, otherwise classify the number. Parsing and the remote
    trivia lookup are parameters of the model. */
module Handler {
  import opened Wrappers
  import opened Decimal
  import opened Text
  import opened Classifier
  import opened FunFact

  /** The success payload: the number and everything derived from it. */
  datatype Classification = Classification(
    number: int,
    isPrime: bool,
    isPerfect: bool,
    properties: seq<string>,
    digitSum: nat,
    funFact: string)

  /** A classified number (status 200) or a client error (status 400)
      whose payload echoes the raw parameter, or null when it was missing. */
  datatype Response = Classified(body: Classification) | BadRequest(number: Option<string>)

  function StatusCode(r: Response): int
  {
    match r
    case Classified(_) => 200
    case BadRequest(_) => 400
  }

  /** The parameter is absent, empty, or nothing is left after stripping
      whitespace: absent or made of whitespace only. */
  predicate IsMissing(param: Option<string>)
    ensures IsMissing(param) <==>
              param.None? || forall i :: 0 <= i < |param.value| ==> IsSpace(param.value[i])
  {
    match param
    case None => true
    case Some(v) =>
      StripEmptyIffAllSpace(v);
      v == "" || Strip(v) == ""
  }

  /** Everything the handler derives from a parsed number. */
  function Classify(n: int, remote: Option<string>): (c: Classification)
    ensures c.number == n
    ensures c.isPrime <==> Prime(n)
    ensures c.isPerfect <==> n >= 1 && DivisorSum(n, n) == n
    ensures "armstrong" in c.properties <==> IsArmstrong(n)
    ensures |c.properties| >= 1 && c.properties[|c.properties| - 1] == ParityTag(n)
    ensures c.digitSum == DigitSum(n)
    ensures remote.Some? ==> c.funFact == remote.value
    ensures remote.None? ==> c.funFact == Fallback(n)
    ensures c.properties == Properties(n)
  {
    IsPrimeIffPrime(n);
    Classification(n, IsPrime(n), IsPerfect(n), Properties(n), DigitSum(n), Resolve(n, remote))
  }

  /** `classify_number` for one request: `param` is the `number` query
      parameter, `parse` stands for the numeric conversion and `lookup` for
      the remote trivia request. */
  function ClassifyNumber(param: Option<string>, parse: string -> Option<int>,
                          lookup: int -> Option<string>): (r: Response)
    ensures StatusCode(r) == 400 <==> r.BadRequest?
    ensures r == BadRequest(None) <==>
              param.None? || forall i :: 0 <= i < |param.value| ==> IsSpace(param.value[i])
    ensures r.BadRequest? && r.number.Some? <==>
              !IsMissing(param) && parse(param.value).None?
    ensures r.BadRequest? ==> r.number.None? || r.number == param
    ensures r.Classified? ==>
              && param.Some?
              && parse(param.value) == Some(r.body.number)
              && r.body == Classify(r.body.number, lookup(r.body.number))
  {
    if IsMissing(param) then
      BadRequest(None)
    else
      match parse(param.value)
      case None => BadRequest(param)
      case Some(n) => Classified(Classify(n, lookup(n)))
  }

  /** The handler computed with the loop methods rather than the
      specification functions. */
  method HandleRequest(param: Option<string>, parse: string -> Option<int>,
                       lookup: int -> Option<string>) returns (r: Response)
    ensures r == ClassifyNumber(param, parse, lookup)
  {
    if param.None? || param.value == "" || Strip(param.value) == "" {
      return BadRequest(None);
    }
    var parsed := parse(param.value);
    if parsed.None? {
      return BadRequest(param);
    }
    var n := parsed.value;
    var prime := IsPrimeLoop(n);
    IsPrimeIffPrime(n);
    var perfect := IsPerfectLoop(n);
    var armstrong := IsArmstrongLoop(n);
    var properties := if armstrong then ["armstrong"] else [];
    properties := properties + [if n % 2 == 0 then "even" else "odd"];
    var digitSum := DigitSumLoop(n);
    var fact := Resolve(n, lookup(n));
    return Classified(Classification(n, prime, perfect, properties, digitSum, fact));
  }

  /** A request for 153 that parses is classified: not prime, Armstrong and
      odd, digit sum 9. */
  lemma RequestExample(parse: string -> Option<int>, lookup: int -> Option<string>)
    requires parse("153") == Some(153)
    ensures var r := ClassifyNumber(Some("153"), parse, lookup);
            && StatusCode(r) == 200
            && !r.body.isPrime
            && r.body.properties == ["armstrong", "odd"]
            && r.body.digitSum == 9
  {
    NotMissing153();
    ClassifiedFields(Some("153"), parse, lookup, 153);
    PrimeExamples();
    DigitSum153();
    Properties153();
  }

  /** Without the parameter, or with only blanks, the payload's number is null. */
  lemma MissingParameterExamples(parse: string -> Option<int>, lookup: int -> Option<string>)
    ensures ClassifyNumber(None, parse, lookup) == BadRequest(None)
    ensures ClassifyNumber(Some(""), parse, lookup) == BadRequest(None)
    ensures ClassifyNumber(Some(" \t"), parse, lookup) == BadRequest(None)
  {
  }

  /** A present, non-blank parameter that parses to n is classified as n. */
  lemma ClassifiedFields(param: Option<string>, parse: string -> Option<int>,
                         lookup: int -> Option<string>, n: int)
    requires !IsMissing(param) && parse(param.value) == Some(n)
    ensures var r := ClassifyNumber(param, parse, lookup);
            && r.Classified?
            && r.body.number == n
            && (r.body.isPrime <==> Prime(n))
            && r.body.properties == Properties(n)
            && r.body.digitSum == DigitSum(n)
  {
  }

  lemma NotMissing153()
    ensures !IsMissing(Some("153"))
  {
    assert !IsSpace("153"[0]);
  }

  lemma Properties153()
    ensures Properties(153) == ["armstrong", "odd"]
  {
    ArmstrongExamples();
    assert ParityTag(153) == "odd";
  }

  lemma DigitSum153()
    ensures DigitSum(153) == 9
  {
    assert Digits(153) == [1, 5, 3];
    assert [1, 5, 3][..2] == [1, 5] && [1, 5][..1] == [1];
  }
}
