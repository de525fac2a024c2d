/** The repository's own unit and HTTP test cases, stated about the model. */
module SourceTestCases {
  import opened Results
  import opened JsValues
  import opened Text
  import opened KeyValidation
  import opened SplitValidation
  import opened ValueValidation
  import opened KeysValidation

  // keyValidator, with the label "key"

  // The message texts, joined piece by piece.

  lemma NullMessageHead()
    ensures "you passed a null or undefined " + "key" + ", " == "you passed a null or undefined key, "
  {
  }

  lemma NonEmptyStringTail()
    ensures "key" + " must be a non-empty string." == "key must be a non-empty string."
  {
  }

  lemma NullMessageJoin()
    ensures "you passed a null or undefined key, " + "key must be a non-empty string."
         == "you passed a null or undefined key, key must be a non-empty string."
  {
  }

  lemma NullMessageText()
    ensures NullMessage("key") == "you passed a null or undefined key, key must be a non-empty string."
  {
    NullMessageHead();
    NonEmptyStringTail();
    NullMessageJoin();
  }

  lemma EmptyMessageHead()
    ensures "you passed an empty string, " + "key" == "you passed an empty string, key"
  {
  }

  lemma EmptyMessageJoin()
    ensures "you passed an empty string, key" + " must be a non-empty string."
         == "you passed an empty string, key must be a non-empty string."
  {
  }

  lemma EmptyMessageText()
    ensures EmptyMessage("key") == "you passed an empty string, key must be a non-empty string."
  {
    EmptyMessageHead();
    EmptyMessageJoin();
  }

  lemma KeyNullCase()
    ensures KeyValidator(Defined(JNull), "key")
         == Invalid("you passed a null or undefined key, key must be a non-empty string.")
  {
    NullMessageText();
  }

  lemma KeyEmptyCase()
    ensures KeyValidator(Defined(JString("")), "key")
         == Invalid("you passed an empty string, key must be a non-empty string.")
  {
    EmptyMessageText();
  }

  lemma KeyBlankCase()
    ensures KeyValidator(Defined(JString("   ")), "key")
         == Invalid("you passed an empty string, key must be a non-empty string.")
  {
    EmptyMessageText();
    assert AllSpace("   ");
  }

  /** 251 times the letter a. */
  lemma KeyTooLongCase(s: string)
    requires |s| == 251 && forall i :: 0 <= i < |s| ==> s[i] == 'a'
    ensures KeyValidator(Defined(JString(s)), "key") == Invalid(TooLongMessage("key"))
  {
    assert IsTrimmed(s);
  }

  lemma TooLongMessageHead()
    ensures "key" + " too long, " + "key" == "key too long, key"
  {
  }

  lemma TooLongMessageJoin()
    ensures "key too long, key" + " must be 250 characters or less."
         == "key too long, key must be 250 characters or less."
  {
  }

  lemma TooLongMessageText()
    ensures TooLongMessage("key") == "key too long, key must be 250 characters or less."
  {
    TooLongMessageHead();
    TooLongMessageJoin();
  }

  lemma KeyValidCase()
    ensures KeyValidator(Defined(JString("key")), "key") == Valid("key")
  {
    assert IsTrimmed("key");
    assert "key" == [] + "key" + [];
    KeyValidatorTrims([], "key", [], "key");
  }

  lemma KeyTrimCase()
    ensures KeyValidator(Defined(JString("   key ")), "key") == Valid("key")
  {
    assert IsTrimmed("key") && AllSpace("   ") && AllSpace(" ");
    assert "   key " == "   " + "key" + " ";
    KeyValidatorTrims("   ", "key", " ", "key");
  }

  // the split-name validator

  lemma SplitNullCase()
    ensures SplitValidator(Absent)
         == Invalid("you passed a null or undefined split-name, split-name must be a non-empty string.")
  {
  }

  lemma SplitEmptyCases()
    ensures SplitValidator(Str(""))
         == Invalid("you passed an empty split-name, split-name must be a non-empty string.")
    ensures SplitValidator(Str("  "))
         == Invalid("you passed an empty split-name, split-name must be a non-empty string.")
  {
    assert AllSpace("  ");
  }

  lemma SplitValidCase()
    ensures SplitValidator(Str("my-split")) == Valid("my-split")
  {
    assert IsTrimmed("my-split");
    assert "my-split" == [] + "my-split" + [];
    SplitValidatorTrims([], "my-split", []);
  }

  lemma SplitTrimCase()
    ensures SplitValidator(Str(" my-split     ")) == Valid("my-split")
  {
    assert IsTrimmed("my-split") && AllSpace(" ") && AllSpace("     ");
    assert " my-split     " == " " + "my-split" + "     ";
    SplitValidatorTrims(" ", "my-split", "     ");
  }

  // the event-value validator

  lemma ValueEmptyCase()
    ensures ValueValidator(Str("")) == Invalid("value must be null or number.")
  {
    assert AllSpace("");
  }

  lemma ValueBlankCase()
    ensures ValueValidator(Str("  ")) == Invalid("value must be null or number.")
  {
    assert AllSpace("  ");
  }

  lemma ValueUndefinedCase()
    ensures ValueValidator(Absent) == Valid(None)
  {
  }

  lemma ValueNumberCase()
    ensures ValueValidator(Str("1234")) == Valid(Some(1234))
  {
    assert IntToDecimal(1234) == "1234";
    assert "1234" == "" + IntToDecimal(1234) + "";
    ValueValidatorReadsDecimal("", 1234, "");
  }

  // validateKeys as the get-all-treatments-with-config endpoint exercises it

  lemma KeysMissingCase(parseJson: JsonParser, trafficTypeValidator: TrafficTypeValidator)
    ensures Keys(Absent, parseJson, trafficTypeValidator)
         == Invalid("you passed null or undefined keys, keys must be a non-empty array.")
  {
  }

  /** `?keys` with no value, and `?keys={}`. */
  lemma KeysNotAnArrayCases(parseJson: JsonParser, trafficTypeValidator: TrafficTypeValidator)
    requires parseJson("") == None
    requires parseJson("{}") == Some(JObject(map[]))
    ensures Keys(Str(""), parseJson, trafficTypeValidator) == Invalid("keys must be a valid format.")
    ensures Keys(Str("{}"), parseJson, trafficTypeValidator) == Invalid("keys must be a valid format.")
  {
  }

  lemma KeysEmptyArrayCase(parseJson: JsonParser, trafficTypeValidator: TrafficTypeValidator)
    requires parseJson("[]") == Some(JArray([]))
    ensures Keys(Str("[]"), parseJson, trafficTypeValidator)
         == Invalid("There should be at least one matchingKey-trafficType element.")
  {
  }

  /** Bare numbers are not key objects; the code answers with its format
      error. */
  lemma KeysOfNumbersCase(parseJson: JsonParser, trafficTypeValidator: TrafficTypeValidator)
    requires parseJson("[1, 2, 3, 4]") == Some(JArray([JNumber(1), JNumber(2), JNumber(3), JNumber(4)]))
    ensures Keys(Str("[1, 2, 3, 4]"), parseJson, trafficTypeValidator) == Invalid("keys must be a valid format.")
  {
    CheckElementFacts(JNumber(1), trafficTypeValidator);
    KeysRejectsBadElement("[1, 2, 3, 4]", parseJson, trafficTypeValidator, 0);
  }

  /** A trafficType the traffic-type validator rejects (missing, `true` or
      empty in the tests) rejects the whole parameter. */
  lemma KeysBadTrafficTypeCase(s: string, parseJson: JsonParser, trafficTypeValidator: TrafficTypeValidator,
                               trafficType: JsValue)
    requires parseJson(s) == Some(JArray([JObject(map["matchingKey" := JString("my-key")]
                                         + (if trafficType.Defined? then map["trafficType" := trafficType.json] else map[]))]))
    requires trafficTypeValidator(trafficType).Invalid?
    ensures Keys(Str(s), parseJson, trafficTypeValidator) == Invalid("keys must be a valid format.")
  {
    var key := parseJson(s).value.items[0];
    assert Property(key, "trafficType") == trafficType;
    CheckElementRejects(key, trafficTypeValidator);
    KeysRejectsBadElement(s, parseJson, trafficTypeValidator, 0);
  }

  /** A matchingKey that is missing. */
  lemma KeysMissingMatchingKeyCase(parseJson: JsonParser, trafficTypeValidator: TrafficTypeValidator)
    requires parseJson("[{\"trafficType\":\"my-tt\"}]")
          == Some(JArray([JObject(map["trafficType" := JString("my-tt")])]))
    ensures Keys(Str("[{\"trafficType\":\"my-tt\"}]"), parseJson, trafficTypeValidator)
         == Invalid("keys must be a valid format.")
  {
    var key := JObject(map["trafficType" := JString("my-tt")]);
    assert Property(key, "matchingKey") == Undefined;
    KeyValidatorOutcomes(Undefined, "matchingKey");
    CheckElementRejects(key, trafficTypeValidator);
    KeysRejectsBadElement("[{\"trafficType\":\"my-tt\"}]", parseJson, trafficTypeValidator, 0);
  }

  /** A matchingKey that is `true`. */
  lemma KeysBooleanMatchingKeyCase(parseJson: JsonParser, trafficTypeValidator: TrafficTypeValidator)
    requires parseJson("[{\"matchingKey\":true,\"trafficType\":\"my-tt\"}]")
          == Some(JArray([JObject(map["matchingKey" := JBool(true), "trafficType" := JString("my-tt")])]))
    ensures Keys(Str("[{\"matchingKey\":true,\"trafficType\":\"my-tt\"}]"), parseJson, trafficTypeValidator)
         == Invalid("keys must be a valid format.")
  {
    var key := JObject(map["matchingKey" := JBool(true), "trafficType" := JString("my-tt")]);
    assert Property(key, "matchingKey") == Defined(JBool(true));
    KeyValidatorOutcomes(Defined(JBool(true)), "matchingKey");
    CheckElementRejects(key, trafficTypeValidator);
    KeysRejectsBadElement("[{\"matchingKey\":true,\"trafficType\":\"my-tt\"}]", parseJson, trafficTypeValidator, 0);
  }

  /** A matchingKey that is empty or blank (`""` and `"    "` in the
      tests). */
  lemma KeysBlankMatchingKeyCase(s: string, parseJson: JsonParser, trafficTypeValidator: TrafficTypeValidator,
                                 blank: string)
    requires AllSpace(blank)
    requires parseJson(s) == Some(JArray([JObject(map["matchingKey" := JString(blank), "trafficType" := JString("my-tt")])]))
    ensures Keys(Str(s), parseJson, trafficTypeValidator) == Invalid("keys must be a valid format.")
  {
    var key := parseJson(s).value.items[0];
    assert Property(key, "matchingKey") == Defined(JString(blank));
    KeyValidatorOutcomes(Property(key, "matchingKey"), "matchingKey");
    CheckElementRejects(key, trafficTypeValidator);
    KeysRejectsBadElement(s, parseJson, trafficTypeValidator, 0);
  }

  /** A matchingKey longer than 250 characters once trimmed. */
  lemma KeysLongMatchingKeyCase(s: string, parseJson: JsonParser, trafficTypeValidator: TrafficTypeValidator,
                                long: string)
    requires IsTrimmed(long) && |long| > MaxKeyLength
    requires parseJson(s) == Some(JArray([JObject(map["matchingKey" := JString(long), "trafficType" := JString("my-tt")])]))
    ensures Keys(Str(s), parseJson, trafficTypeValidator) == Invalid("keys must be a valid format.")
  {
    var key := parseJson(s).value.items[0];
    assert Property(key, "matchingKey") == Defined(JString(long));
    assert Trim(long) == long;
    KeyValidatorOutcomes(Defined(JString(long)), "matchingKey");
    CheckElementRejects(key, trafficTypeValidator);
    KeysRejectsBadElement(s, parseJson, trafficTypeValidator, 0);
  }

  /** An element whose bucketingKey is an array is rejected. */
  lemma ArrayBucketingKeyElement(trafficTypeValidator: TrafficTypeValidator)
    ensures CheckElement(JObject(map["matchingKey" := JString("my-key"), "trafficType" := JString("my-tt"),
                                     "bucketingKey" := JArray([])]), trafficTypeValidator)
         == Rejected
  {
    var key := JObject(map["matchingKey" := JString("my-key"), "trafficType" := JString("my-tt"),
                           "bucketingKey" := JArray([])]);
    assert Property(key, "bucketingKey") == Defined(JArray([]));
    KeyValidatorOutcomes(Defined(JArray([])), "bucketingKey");
    CheckElementRejects(key, trafficTypeValidator);
  }

  /** A bucketingKey that is an array. */
  lemma KeysArrayBucketingKeyCase(parseJson: JsonParser, trafficTypeValidator: TrafficTypeValidator)
    requires parseJson("[{\"matchingKey\":\"my-key\", \"trafficType\":\"my-tt\", \"bucketingKey\":[]}]")
          == Some(JArray([JObject(map["matchingKey" := JString("my-key"), "trafficType" := JString("my-tt"),
                                      "bucketingKey" := JArray([])])]))
    ensures Keys(Str("[{\"matchingKey\":\"my-key\", \"trafficType\":\"my-tt\", \"bucketingKey\":[]}]"),
                 parseJson, trafficTypeValidator)
         == Invalid("keys must be a valid format.")
  {
    ArrayBucketingKeyElement(trafficTypeValidator);
    KeysRejectsBadElement("[{\"matchingKey\":\"my-key\", \"trafficType\":\"my-tt\", \"bucketingKey\":[]}]",
                          parseJson, trafficTypeValidator, 0);
  }

  /** A bucketingKey that is empty or blank (`""` and `"   "` in the
      tests), whatever the matchingKey. */
  lemma KeysBlankBucketingKeyCase(s: string, parseJson: JsonParser, trafficTypeValidator: TrafficTypeValidator,
                                  matchingKey: string, blank: string)
    requires AllSpace(blank)
    requires parseJson(s) == Some(JArray([JObject(map["matchingKey" := JString(matchingKey), "trafficType" := JString("my-tt"),
                                                      "bucketingKey" := JString(blank)])]))
    ensures Keys(Str(s), parseJson, trafficTypeValidator) == Invalid("keys must be a valid format.")
  {
    var key := parseJson(s).value.items[0];
    assert Property(key, "bucketingKey") == Defined(JString(blank));
    KeyValidatorOutcomes(Property(key, "bucketingKey"), "bucketingKey");
    CheckElementRejects(key, trafficTypeValidator);
    KeysRejectsBadElement(s, parseJson, trafficTypeValidator, 0);
  }

  /** A bucketingKey longer than 250 characters once trimmed. */
  lemma KeysLongBucketingKeyCase(s: string, parseJson: JsonParser, trafficTypeValidator: TrafficTypeValidator,
                                 long: string)
    requires IsTrimmed(long) && |long| > MaxKeyLength
    requires parseJson(s) == Some(JArray([JObject(map["matchingKey" := JString("my-key"), "bucketingKey" := JString(long),
                                                      "trafficType" := JString("my-tt")])]))
    ensures Keys(Str(s), parseJson, trafficTypeValidator) == Invalid("keys must be a valid format.")
  {
    var key := parseJson(s).value.items[0];
    assert Property(key, "bucketingKey") == Defined(JString(long));
    assert Trim(long) == long;
    KeyValidatorOutcomes(Defined(JString(long)), "bucketingKey");
    CheckElementRejects(key, trafficTypeValidator);
    KeysRejectsBadElement(s, parseJson, trafficTypeValidator, 0);
  }

  lemma DecimalText12345()
    ensures IntToDecimal(12345) == "12345"
  {
    assert NatToDecimal(12) == "12";
    assert NatToDecimal(123) == "123";
    assert NatToDecimal(1234) == "1234";
  }

  /** The element `{"matchingKey":12345,"trafficType":"localhost"}` is
      accepted, with the decimal text of the number as its matchingKey. */
  lemma NumericMatchingKeyElement(trafficTypeValidator: TrafficTypeValidator, tt: string)
    requires trafficTypeValidator(Defined(JString("localhost"))) == Valid(tt)
    ensures CheckElement(JObject(map["matchingKey" := JNumber(12345), "trafficType" := JString("localhost")]),
                         trafficTypeValidator)
         == Accepted(KeyRecord(tt, "12345", None))
  {
    var key := JObject(map["matchingKey" := JNumber(12345), "trafficType" := JString("localhost")]);
    assert Property(key, "matchingKey") == Defined(JNumber(12345));
    assert Property(key, "trafficType") == Defined(JString("localhost"));
    assert Property(key, "bucketingKey") == Undefined;
    KeyValidatorOutcomes(Defined(JNumber(12345)), "matchingKey");
    DecimalText12345();
  }

  /** A numeric matchingKey is accepted as its decimal text, with no
      bucketingKey. */
  lemma KeysNumericMatchingKeyCase(parseJson: JsonParser, trafficTypeValidator: TrafficTypeValidator, tt: string)
    requires parseJson("[{\"matchingKey\":12345,\"trafficType\":\"localhost\"}]")
          == Some(JArray([JObject(map["matchingKey" := JNumber(12345), "trafficType" := JString("localhost")])]))
    requires trafficTypeValidator(Defined(JString("localhost"))) == Valid(tt)
    ensures Keys(Str("[{\"matchingKey\":12345,\"trafficType\":\"localhost\"}]"), parseJson, trafficTypeValidator)
         == Valid([KeyRecord(tt, "12345", None)])
  {
    var key := JObject(map["matchingKey" := JNumber(12345), "trafficType" := JString("localhost")]);
    var record := KeyRecord(tt, "12345", None);
    NumericMatchingKeyElement(trafficTypeValidator, tt);
    assert CheckAll([key], ElementCheck(trafficTypeValidator)) == Some([record]) by {
      assert [key][1..] == [];
      assert [record] + [] == [record];
    }
    KeysOfArray("[{\"matchingKey\":12345,\"trafficType\":\"localhost\"}]", parseJson, trafficTypeValidator);
  }
}
