/** The event-value validator: an optional numeric value given as text. */
module ValueValidation {
  import opened Results
  import opened JsValues
  import opened Text

  const ValueError := "value must be null or number."

  /** Integer text `Number()` reads: decimal digits with an optional sign. */
  predicate IsNumeral(t: string) {
    (t != [] && IsDigits(t))
    || (|t| > 1 && (t[0] == '-' || t[0] == '+') && IsDigits(t[1..]))
  }

  function NumeralValue(t: string): int
    requires IsNumeral(t)
  {
    if t[0] == '-' then -(DigitsValue(t[1..]) as int)
    else if t[0] == '+' then DigitsValue(t[1..])
    else DigitsValue(t)
  }

  /** A missing value is valid and means `null`; text that is blank or is not
      a number is rejected with one fixed message; a numeral is its number. */
  function ValueValidator(raw: Raw): (r: Result<Option<int>>)
    ensures raw == Absent || raw == Null ==> r == Valid(None)
    ensures raw.Str? && AllSpace(raw.s) ==> r == Invalid(ValueError)
    ensures r.Invalid? <==> raw.Str? && !IsNumeral(Trim(raw.s))
    ensures r.Invalid? ==> r.error == ValueError
    ensures r == Valid(None) <==> !raw.Str?
  {
    match raw
    case Absent => Valid(None)
    case Null => Valid(None)
    case Str(s) =>
      var t := Trim(s);
      if t == [] || !IsNumeral(t) then Invalid(ValueError)
      else Valid(Some(NumeralValue(t)))
  }

  /** A numeral with any white space around it is read as its value. */
  lemma ValueValidatorReadsNumeral(pre: string, t: string, post: string)
    requires AllSpace(pre) && AllSpace(post) && IsTrimmed(t) && IsNumeral(t)
    ensures ValueValidator(Str(pre + t + post)) == Valid(Some(NumeralValue(t)))
  {
    TrimPadded(pre, t, post);
  }

  /** The decimal text of an integer is a numeral whose value is that
      integer. */
  lemma {:induction false} DecimalIsNumeral(n: int)
    ensures IsNumeral(IntToDecimal(n)) && NumeralValue(IntToDecimal(n)) == n
  {
    var d := IntToDecimal(n);
    if n < 0 {
      assert d[1..] == NatToDecimal(-n);
      NatToDecimalRoundTrip(-n);
    } else {
      NatToDecimalRoundTrip(n);
    }
  }

  /** The decimal text of any integer, with any white space around it, is
      read back as that integer. */
  lemma ValueValidatorReadsDecimal(pre: string, n: int, post: string)
    requires AllSpace(pre) && AllSpace(post)
    ensures ValueValidator(Str(pre + IntToDecimal(n) + post)) == Valid(Some(n))
  {
    DecimalIsNumeral(n);
    ValueValidatorReadsNumeral(pre, IntToDecimal(n), post);
  }

  /** A string of decimal digits is read as its decimal value. */
  lemma DigitStringValue(s: string)
    requires s != [] && IsDigits(s)
    ensures ValueValidator(Str(s)) == Valid(Some(DigitsValue(s)))
  {
    assert IsTrimmed(s);
  }
}
