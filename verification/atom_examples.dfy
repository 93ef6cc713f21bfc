/** Classification of the number and symbol tokens lis.py's demonstration
    program uses. */
module AtomExamples {
  import opened Atoms

  lemma ClassifyTen()
    ensures Classify("10") == Integer(10)
  {
    assert DropSign("10") == "10";
    assert "10"[..1] == "1";
    assert "1"[..0] == "";
    assert DigitsValue("1") == 1;
  }

  lemma ClassifyNegative()
    ensures Classify("-7") == Integer(-7)
  {
    assert "-7"[0] == '-';
    assert "-7"[1..] == "7";
    assert "7"[..0] == "";
    assert DigitsValue("7") == 7;
  }

  lemma ClassifyDecimal()
    ensures Classify("3.14") == Float("3.14")
  {
    ClassifyDecimalPoint("3", "14");
    assert "3" + "." + "14" == "3.14";
  }

  lemma ClassifyPi()
    ensures Classify("pi") == Symbol("pi")
  {
    ClassifyNoDigits("pi");
  }
}
