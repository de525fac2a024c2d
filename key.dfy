/** The single-key validator `keyValidator(value, label)`, which checks a
    matchingKey or bucketingKey and returns it trimmed. */
module KeyValidation {
  import opened Results
  import opened JsValues
  import opened Text

  /** Longest key accepted, counted after trimming. */
  const MaxKeyLength := 250

  function NullMessage(field: string): string {
    "you passed a null or undefined " + field + ", " + field + " must be a non-empty string."
  }

  function EmptyMessage(field: string): string {
    "you passed an empty string, " + field + " must be a non-empty string."
  }

  function TooLongMessage(field: string): string {
    field + " too long, " + field + " must be 250 characters or less."
  }

  /** Rejection of a boolean, array or object key. */
  function WrongTypeMessage(field: string): string {
    "you passed an invalid " + field + ", " + field + " must be a non-empty string."
  }

  /** Validates one key field. `null` and `undefined` are rejected; a number
      is accepted as its decimal text; a string is trimmed and accepted when
      1 to 250 characters remain; anything else is rejected. An accepted key
      is never empty and has no white space at either end. */
  function KeyValidator(v: JsValue, field: string): (r: Result<string>)
    ensures r.Valid? ==> r.value != [] && IsTrimmed(r.value) && |r.value| <= MaxKeyLength
  {
    match v
    case Undefined => Invalid(NullMessage(field))
    case Defined(JNull) => Invalid(NullMessage(field))
    case Defined(JNumber(n)) =>
      NumberKeyLength(n);
      Valid(IntToDecimal(n))
    case Defined(JString(s)) =>
      var key := Trim(s);
      if |key| == 0 then Invalid(EmptyMessage(field))
      else if |key| > MaxKeyLength then Invalid(TooLongMessage(field))
      else Valid(key)
    case Defined(_) => Invalid(WrongTypeMessage(field))
  }

  /** The decimal text of a safe integer has at most 17 characters (a sign
      and 16 digits), well within the key length limit. */
  lemma NumberKeyLength(n: SafeInteger)
    ensures |IntToDecimal(n)| <= 17
  {
    assert Pow10(4) == 10000;
    assert Pow10(8) == 100000000;
    assert Pow10(12) == 1000000000000;
    assert Pow10(16) == 10000000000000000;
    NatToDecimalLength(if n < 0 then -n else n, 16);
  }

  /** Each way a key can fail, with its message, and what an accepted key
      is: a missing or `null` key, a blank string and a string longer than
      250 characters once trimmed are rejected; a string is accepted exactly
      when neither of the last two holds, as its trimmed text; a number is
      accepted as its decimal text; booleans, arrays and objects are
      rejected. */
  lemma KeyValidatorOutcomes(v: JsValue, field: string)
    ensures v == Undefined || v == Defined(JNull) ==> KeyValidator(v, field) == Invalid(NullMessage(field))
    ensures v.Defined? && v.json.JString? && AllSpace(v.json.s) ==>
              KeyValidator(v, field) == Invalid(EmptyMessage(field))
    ensures v.Defined? && v.json.JString? && |Trim(v.json.s)| > MaxKeyLength ==>
              KeyValidator(v, field) == Invalid(TooLongMessage(field))
    ensures v.Defined? && v.json.JString? ==>
              (KeyValidator(v, field).Valid? <==> !AllSpace(v.json.s) && |Trim(v.json.s)| <= MaxKeyLength)
    ensures v.Defined? && v.json.JString? && KeyValidator(v, field).Valid? ==>
              KeyValidator(v, field).value == Trim(v.json.s)
    ensures v.Defined? && v.json.JNumber? ==> KeyValidator(v, field) == Valid(IntToDecimal(v.json.n))
    ensures v.Defined? && (v.json.JBool? || v.json.JArray? || v.json.JObject?) ==> KeyValidator(v, field).Invalid?
  {
  }

  /** A key surrounded by white space is accepted as the bare key. */
  lemma KeyValidatorTrims(pre: string, key: string, post: string, field: string)
    requires AllSpace(pre) && AllSpace(post)
    requires IsTrimmed(key) && 0 < |key| <= MaxKeyLength
    ensures KeyValidator(Defined(JString(pre + key + post)), field) == Valid(key)
  {
    TrimPadded(pre, key, post);
  }

  /** Validating an accepted key string again accepts it unchanged. */
  lemma KeyValidatorIdempotent(s: string, field: string)
    requires KeyValidator(Defined(JString(s)), field).Valid?
    ensures var key := KeyValidator(Defined(JString(s)), field).value;
            KeyValidator(Defined(JString(key)), field) == Valid(key)
  {
  }
}
