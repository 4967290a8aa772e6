/** Worked cases of the fun-fact fallback. */
module FunFactCases {
  import opened Decimal
  import opened Text
  import opened Classifier
  import opened FunFact

  lemma ArmstrongFallbackExample()
    ensures Fallback(153) == "153" + ArmstrongMarker + "1^3 + 5^3 + 3^3" + (" = " + "153")
  {
    ArmstrongExamples();
    ArmstrongFactOf153();
  }

  lemma ArmstrongFactOf153()
    ensures ArmstrongFact(153) == "153" + ArmstrongMarker + "1^3 + 5^3 + 3^3" + (" = " + "153")
  {
    var ds := Digits(153);
    assert ds == [1, 5, 3];
    assert ArmstrongFact(153)
        == IntToString(153) + ArmstrongMarker + Join(Terms(ds, 3), " + ") + (" = " + ToDecimal(153));
    DecimalOf153();
    TermsOf153();
  }

  lemma DecimalOf153()
    ensures ToDecimal(153) == "153" && IntToString(153) == "153"
  {
  }

  lemma TermsOf153()
    ensures Join(Terms([1, 5, 3], 3), " + ") == "1^3 + 5^3 + 3^3"
  {
  }

  lemma DigitCountFallbackExample()
    ensures Fallback(-10) == "The number -10 has 2 digits"
  {
    NotArmstrongExamples();
    assert Digits(10) == [1, 0];
    assert ToDecimal(10) == "10" && ToDecimal(2) == "2";
    assert IntToString(-10) == "-10";
    assert "The number " + "-10" == "The number -10";
    assert "The number -10" + " has " == "The number -10 has ";
    assert "The number -10 has " + "2" == "The number -10 has 2";
  }

  /** With the float the handler passes in, 154 is reported as having 5 digits. */
  lemma AsWrittenCountExample()
    ensures DigitCountFactAsWritten(154) == "The number " + "154.0" + " has " + "5" + DigitsSuffix
  {
  }
}
