/** The bulk-keys validator `validateKeys`: turns the serialized `keys`
    request parameter into a list of normalized key records, all or nothing. */
module KeysValidation {
  import opened Results
  import opened JsValues
  import opened Text
  import opened KeyValidation

  const NullKeysError := "you passed null or undefined keys, keys must be a non-empty array."
  const FormatError := "keys must be a valid format."
  const EmptyKeysError := "There should be at least one matchingKey-trafficType element."

  /** A normalized key; `bucketingKey` is `None` for `null`. */
  datatype KeyRecord = KeyRecord(trafficType: string, matchingKey: string, bucketingKey: Option<string>)

  /** What checking one array element does: `Thrown` is the TypeError of
      reading a property of `null`, which the validator's `catch` turns into
      `FormatError`. */
  datatype ElementOutcome = Thrown | Rejected | Accepted(record: KeyRecord)

  /** `JSON.parse`, with `None` for a thrown SyntaxError. */
  type JsonParser = string -> Option<Json>

  /** The traffic-type validator, whose behaviour is not part of this model. */
  type TrafficTypeValidator = JsValue -> Result<string>

  /** The optional bucketing key: absent means `null` and is not validated;
      anything present, `null` included, goes through the key validator. */
  function BucketingKey(v: JsValue): (r: Result<Option<string>>)
    ensures v == Undefined ==> r == Valid(None)
    ensures v != Undefined ==> (r.Valid? <==> KeyValidator(v, "bucketingKey").Valid?)
    ensures v != Undefined && r.Valid? ==> r.value == Some(KeyValidator(v, "bucketingKey").value)
  {
    if v == Undefined then Valid(None)
    else match KeyValidator(v, "bucketingKey")
      case Valid(key) => Valid(Some(key))
      case Invalid(e) => Invalid(e)
  }

  /** Checks one element: its trafficType, its matchingKey and, when present,
      its bucketingKey; the record holds the three validated values. */
  function CheckElement(key: Json, trafficTypeValidator: TrafficTypeValidator): (o: ElementOutcome)
    ensures o.Thrown? <==> key == JNull
  {
    if key == JNull then Thrown
    else
      var trafficType := trafficTypeValidator(Property(key, "trafficType"));
      var matchingKey := KeyValidator(Property(key, "matchingKey"), "matchingKey");
      var bucketingKey := BucketingKey(Property(key, "bucketingKey"));
      if trafficType.Invalid? || matchingKey.Invalid? || bucketingKey.Invalid? then Rejected
      else Accepted(KeyRecord(trafficType.value, matchingKey.value, bucketingKey.value))
  }

  /** What an element's outcome tells about it: a missing matchingKey, a
      bucketingKey given as `null` or an element that is not an object is
      rejected, and an accepted record holds trimmed keys, with no
      bucketingKey exactly when the element has none. */
  lemma CheckElementFacts(key: Json, trafficTypeValidator: TrafficTypeValidator)
    ensures var o := CheckElement(key, trafficTypeValidator);
            && (key != JNull && Property(key, "matchingKey") == Undefined ==> o == Rejected)
            && (key != JNull && Property(key, "bucketingKey") == Defined(JNull) ==> o == Rejected)
            && (key != JNull && !key.JObject? ==> o == Rejected)
            && (o.Accepted? ==>
                  o.record.matchingKey != [] && IsTrimmed(o.record.matchingKey)
                  && |o.record.matchingKey| <= MaxKeyLength)
            && (o.Accepted? ==> (o.record.bucketingKey.None? <==> Property(key, "bucketingKey") == Undefined))
            && (o.Accepted? && o.record.bucketingKey.Some? ==>
                  o.record.bucketingKey.value != [] && IsTrimmed(o.record.bucketingKey.value)
                  && |o.record.bucketingKey.value| <= MaxKeyLength)
  {
  }

  /** A non-null element is rejected exactly when one of its three fields
      fails validation. */
  lemma CheckElementRejects(key: Json, trafficTypeValidator: TrafficTypeValidator)
    requires key != JNull
    ensures CheckElement(key, trafficTypeValidator) == Rejected <==>
              || trafficTypeValidator(Property(key, "trafficType")).Invalid?
              || KeyValidator(Property(key, "matchingKey"), "matchingKey").Invalid?
              || BucketingKey(Property(key, "bucketingKey")).Invalid?
  {
  }

  /** The callback `keys.some` is given, as a function value. */
  function ElementCheck(trafficTypeValidator: TrafficTypeValidator): Json -> ElementOutcome {
    key => CheckElement(key, trafficTypeValidator)
  }

  /** Runs `check` over the elements in order: the records of all of them,
      or `None` from the first element that is not accepted on. */
  function CheckAll(keys: seq<Json>, check: Json -> ElementOutcome): (r: Option<seq<KeyRecord>>)
    ensures r.Some? ==> |r.value| == |keys|
  {
    if keys == [] then Some([])
    else match check(keys[0])
      case Accepted(record) =>
        (match CheckAll(keys[1..], check)
         case Some(records) => Some([record] + records)
         case None => None)
      case _ => None
  }

  function Prepend(prefix: seq<KeyRecord>, rest: Option<seq<KeyRecord>>): Option<seq<KeyRecord>> {
    match rest
    case Some(records) => Some(prefix + records)
    case None => None
  }

  /** All or nothing: the elements yield records exactly when every one of
      them is accepted, and then record `i` is the one element `i` yields, so
      the list keeps the length and the order of the array. */
  lemma {:induction false} CheckAllAccepts(keys: seq<Json>, check: Json -> ElementOutcome)
    ensures CheckAll(keys, check).Some? <==> forall i :: 0 <= i < |keys| ==> check(keys[i]).Accepted?
    ensures CheckAll(keys, check).Some? ==>
              forall i :: 0 <= i < |keys| ==> check(keys[i]) == Accepted(CheckAll(keys, check).value[i])
  {
    if keys != [] {
      CheckAllAccepts(keys[1..], check);
      assert forall i :: 1 <= i < |keys| ==> keys[i] == keys[1..][i - 1];
    }
  }

  /** Checking two arrays one after the other is checking their
      concatenation: a single bad element anywhere discards every record. */
  lemma {:induction false} CheckAllAppend(a: seq<Json>, b: seq<Json>, check: Json -> ElementOutcome)
    ensures CheckAll(a + b, check) ==
              match CheckAll(a, check)
              case Some(first) => Prepend(first, CheckAll(b, check))
              case None => None
  {
    if a == [] {
      assert a + b == b;
      PrependEmpty(CheckAll(b, check));
    } else {
      assert (a + b)[0] == a[0] && (a + b)[1..] == a[1..] + b;
      CheckAllAppend(a[1..], b, check);
      if CheckAll(a, check).Some? && CheckAll(b, check).Some? {
        var first := CheckAll(a, check).value;
        assert first == [first[0]] + first[1..];
        assert first + CheckAll(b, check).value == [first[0]] + (first[1..] + CheckAll(b, check).value);
      }
    }
  }

  /** One step of the walk over the elements: while the records gathered
      so far are a prefix of the outcome, an accepted element extends that
      prefix by its record, and any other outcome makes the whole array fail. */
  lemma CheckAllStep(keys: seq<Json>, i: nat, gathered: seq<KeyRecord>, check: Json -> ElementOutcome)
    requires i < |keys|
    requires CheckAll(keys, check) == Prepend(gathered, CheckAll(keys[i..], check))
    ensures check(keys[i]).Accepted? ==>
              CheckAll(keys, check) == Prepend(gathered + [check(keys[i]).record], CheckAll(keys[i + 1..], check))
    ensures !check(keys[i]).Accepted? ==> CheckAll(keys, check) == None
  {
    assert keys[i..][0] == keys[i] && keys[i..][1..] == keys[i + 1..];
    if check(keys[i]).Accepted? {
      PrependTwice(gathered, check(keys[i]).record, CheckAll(keys[i + 1..], check));
    }
  }

  /** The records gathered before element `i` are the outcome of the
      prefix `keys[..i]`; an accepted element `i` extends them by its record. */
  lemma CheckAllPrefixStep(keys: seq<Json>, i: nat, gathered: seq<KeyRecord>, check: Json -> ElementOutcome)
    requires i < |keys|
    requires CheckAll(keys[..i], check) == Some(gathered)
    requires check(keys[i]).Accepted?
    ensures CheckAll(keys[..i + 1], check) == Some(gathered + [check(keys[i]).record])
  {
    assert keys[..i + 1] == keys[..i] + [keys[i]];
    CheckAllAppend(keys[..i], [keys[i]], check);
    assert [keys[i]][1..] == [];
    assert [check(keys[i]).record] + [] == [check(keys[i]).record];
  }

  /** The walk starts with no records and the whole array still to check. */
  lemma CheckAllStart(keys: seq<Json>, check: Json -> ElementOutcome)
    ensures CheckAll(keys, check) == Prepend([], CheckAll(keys[0..], check))
  {
    assert keys[0..] == keys;
    PrependEmpty(CheckAll(keys, check));
  }

  /** The walk ends when every element has been accepted: the records
      gathered are the outcome. */
  lemma CheckAllDone(keys: seq<Json>, gathered: seq<KeyRecord>, check: Json -> ElementOutcome)
    requires CheckAll(keys, check) == Prepend(gathered, CheckAll(keys[|keys|..], check))
    ensures CheckAll(keys, check) == Some(gathered)
  {
    assert keys[|keys|..] == [];
    assert gathered + [] == gathered;
  }

  lemma PrependEmpty(rest: Option<seq<KeyRecord>>)
    ensures Prepend([], rest) == rest
  {
    if rest.Some? {
      assert [] + rest.value == rest.value;
    }
  }

  lemma PrependTwice(prefix: seq<KeyRecord>, record: KeyRecord, rest: Option<seq<KeyRecord>>)
    ensures Prepend(prefix, Prepend([record], rest)) == Prepend(prefix + [record], rest)
  {
    if rest.Some? {
      assert prefix + ([record] + rest.value) == prefix + [record] + rest.value;
    }
  }

  /** The outcome `validateKeys` returns for a request parameter. */
  function Keys(maybeKeys: Raw, parseJson: JsonParser, trafficTypeValidator: TrafficTypeValidator)
    : (r: Result<seq<KeyRecord>>)
    ensures r.Invalid? ==> r.error == NullKeysError || r.error == FormatError || r.error == EmptyKeysError
    ensures r.Valid? ==> r.value != []
  {
    match maybeKeys
    case Absent => Invalid(NullKeysError)
    case Null => Invalid(NullKeysError)
    case Str(s) =>
      match parseJson(s)
      case Some(JArray(keys)) =>
        if |keys| == 0 then Invalid(EmptyKeysError)
        else
          (match CheckAll(keys, ElementCheck(trafficTypeValidator))
           case Some(records) => Valid(records)
           case None => Invalid(FormatError))
      case _ => Invalid(FormatError)
  }

  /** Once the parameter parses to a non-empty array, the outcome is decided
      by the elements alone. */
  lemma KeysOfArray(s: string, parseJson: JsonParser, trafficTypeValidator: TrafficTypeValidator)
    requires parseJson(s).Some? && parseJson(s).value.JArray? && parseJson(s).value.items != []
    ensures Keys(Str(s), parseJson, trafficTypeValidator) ==
              match CheckAll(parseJson(s).value.items, ElementCheck(trafficTypeValidator))
              case Some(records) => Valid(records)
              case None => Invalid(FormatError)
  {
  }

  /** The stages before the elements: a missing or `null` parameter, text
      that is not JSON or is JSON but not an array, and an empty array, each
      with its own message. */
  lemma KeysStages(maybeKeys: Raw, parseJson: JsonParser, trafficTypeValidator: TrafficTypeValidator)
    ensures maybeKeys == Absent || maybeKeys == Null ==>
              Keys(maybeKeys, parseJson, trafficTypeValidator) == Invalid(NullKeysError)
    ensures maybeKeys.Str? && (parseJson(maybeKeys.s).None? || !parseJson(maybeKeys.s).value.JArray?) ==>
              Keys(maybeKeys, parseJson, trafficTypeValidator) == Invalid(FormatError)
    ensures maybeKeys.Str? && parseJson(maybeKeys.s) == Some(JArray([])) ==>
              Keys(maybeKeys, parseJson, trafficTypeValidator) == Invalid(EmptyKeysError)
  {
  }

  /** For a non-empty array the result is valid exactly when every element
      is accepted; a valid list has one record per element, in order, holding
      the validated trafficType, matchingKey and (when given) bucketingKey;
      anything else is the format error, with no partial list. */
  lemma KeysAllOrNothing(s: string, parseJson: JsonParser, trafficTypeValidator: TrafficTypeValidator)
    requires parseJson(s).Some? && parseJson(s).value.JArray? && parseJson(s).value.items != []
    ensures var keys := parseJson(s).value.items;
            var r := Keys(Str(s), parseJson, trafficTypeValidator);
            && (r.Valid? <==> forall i :: 0 <= i < |keys| ==> CheckElement(keys[i], trafficTypeValidator).Accepted?)
            && (r.Invalid? ==> r.error == FormatError)
            && (r.Valid? ==> |r.value| == |keys|)
            && (r.Valid? ==> forall i :: 0 <= i < |keys| ==>
                  && keys[i] != JNull
                  && Valid(r.value[i].trafficType) == trafficTypeValidator(Property(keys[i], "trafficType"))
                  && Valid(r.value[i].matchingKey) == KeyValidator(Property(keys[i], "matchingKey"), "matchingKey")
                  && Valid(r.value[i].bucketingKey) == BucketingKey(Property(keys[i], "bucketingKey")))
  {
    var keys := parseJson(s).value.items;
    CheckAllAccepts(keys, ElementCheck(trafficTypeValidator));
    KeysOfArray(s, parseJson, trafficTypeValidator);
  }

  /** One element that throws or is rejected, wherever it stands, makes the
      whole parameter invalid with the format error. */
  lemma KeysRejectsBadElement(s: string, parseJson: JsonParser, trafficTypeValidator: TrafficTypeValidator, k: nat)
    requires parseJson(s).Some? && parseJson(s).value.JArray?
    requires k < |parseJson(s).value.items|
    requires !CheckElement(parseJson(s).value.items[k], trafficTypeValidator).Accepted?
    ensures Keys(Str(s), parseJson, trafficTypeValidator) == Invalid(FormatError)
  {
    KeysAllOrNothing(s, parseJson, trafficTypeValidator);
  }

  /** `validateKeys`: early returns for a missing parameter, unparsable or
      non-array JSON and an empty array, then a walk over the elements that
      appends each accepted record and stops at the first element that is
      not accepted. */
  method ValidateKeys(maybeKeys: Raw, parseJson: JsonParser, trafficTypeValidator: TrafficTypeValidator)
    returns (r: Result<seq<KeyRecord>>)
    ensures r == Keys(maybeKeys, parseJson, trafficTypeValidator)
  {
    if maybeKeys == Absent || maybeKeys == Null {
      return Invalid(NullKeysError);
    }
    var parsed := parseJson(maybeKeys.s);
    if parsed.None? || !parsed.value.JArray? {
      return Invalid(FormatError);
    }
    var keys := parsed.value.items;
    if |keys| == 0 {
      return Invalid(EmptyKeysError);
    }
    var validKeys: seq<KeyRecord> := [];
    var isInvalid := false;
    var i := 0;
    ghost var check := ElementCheck(trafficTypeValidator);
    CheckAllStart(keys, check);
    assert keys[..0] == [];
    while i < |keys|
      invariant 0 <= i <= |keys|
      invariant !isInvalid
      invariant CheckAll(keys[..i], check) == Some(validKeys)
      invariant CheckAll(keys, check) == Prepend(validKeys, CheckAll(keys[i..], check))
    {
      var outcome := CheckElement(keys[i], trafficTypeValidator);
      CheckAllStep(keys, i, validKeys, check);
      if outcome.Accepted? {
        CheckAllPrefixStep(keys, i, validKeys, check);
      }
      if outcome.Thrown? {
        // reading a property of a null element throws; the catch returns the format error
        KeysOfArray(maybeKeys.s, parseJson, trafficTypeValidator);
        return Invalid(FormatError);
      }
      if outcome.Rejected? {
        isInvalid := true;
        break;
      }
      validKeys := validKeys + [outcome.record];
      i := i + 1;
    }
    KeysOfArray(maybeKeys.s, parseJson, trafficTypeValidator);
    if isInvalid {
      r := Invalid(FormatError);
    } else {
      CheckAllDone(keys, validKeys, check);
      r := Valid(validKeys);
    }
  }
}
