# split-evaluator input validation, in Dafny

split-evaluator is an HTTP service that evaluates Split feature flags. Before
it evaluates anything, it validates the request parameters. This project
models that validation layer and proves properties of it:

- `validateKeys` (`utils/inputValidation/keys.js`) reads the `keys` query
  parameter of the get-all-treatments-with-config endpoint. It parses the
  parameter as JSON and expects a non-empty array of
  `{matchingKey, trafficType, bucketingKey?}` objects. It walks the elements
  and collects one validated record per element. It gives up at the first
  element that is not valid. It is modelled as the method
  `KeysValidation.ValidateKeys`, with a `while` loop and a break. That method
  is proved equal to the function `KeysValidation.Keys`, and the
  all-or-nothing behaviour is proved about `Keys`.
- `keyValidator(value, label)` checks a matchingKey or bucketingKey. A
  missing or `null` key is rejected, and so is a blank key or one longer than
  250 characters. A string is accepted trimmed. This is
  `KeyValidation.KeyValidator`. The string cases come from its unit tests
  (`key.test.js`). The endpoint tests add two more: a number is accepted
  (`allTreatmentsWithConfig.test.js:227`), and `true` or an array is
  rejected (`:120`, `:161`). Reading a number as its decimal text is this
  model's choice.
- The split-name validator (`SplitValidation.SplitValidator`) and the
  event-value validator (`ValueValidation.ValueValidator`) are modelled from
  their unit tests in the same way.
- `Text` models JavaScript's `String.prototype.trim`, with ECMAScript's
  white-space and line-terminator set. It also gives the decimal text of an
  integer. For the safe integers that JSON numbers are limited to here
  (magnitude at most 2^53 - 1), that text is what JavaScript's `String(n)`
  gives.

The core objects are modelled as follows:

- A JSON value is the datatype `JsValues.Json`. Its numbers are safe
  integers, which JavaScript represents exactly.
- A JavaScript property read is `JsValues.Property`. It yields `Undefined`
  for a missing field. It is not defined on `null`: reading a property of
  `null` throws.
- A query parameter is `JsValues.Raw`: absent, `null`, or a string.
- A validation result is `Results.Result`: `Valid(value)` or
  `Invalid(error)`.
- `JSON.parse` is a function parameter `string -> Option<Json>`, where
  `None` stands for a thrown `SyntaxError`.
- The traffic-type validator is a function parameter
  `JsValue -> Result<string>`, because its code is not part of this model.

The repository's own tests are stated as lemmas in `SourceTestCases`. For the
endpoint tests, the JSON parse of each query string is a precondition.

## Model

| member | source | states |
|---|---|---|
| KeysValidation.ValidateKeys | utils/inputValidation/keys.js:4-52 | The loop returns exactly `Keys(...)` for every input. It keeps two invariants. First, `validKeys` holds exactly the records of the elements before `i`, all of them accepted. Second, those records followed by the outcome of the unchecked suffix are the outcome of the whole array. It returns early for a thrown element and stops at the first rejected one. |
| KeysValidation.Keys | utils/inputValidation/keys.js:4-52 | Every error is one of the three messages (null or undefined keys, valid format, at least one element). A valid result is a non-empty list. |
| KeysValidation.KeysStages | utils/inputValidation/keys.js:10-22 | A missing or `null` parameter gives the null-or-undefined message. Text that does not parse, or parses to a non-array, gives the format error. An empty array gives the at-least-one-element message. |
| KeysValidation.KeysOfArray | utils/inputValidation/keys.js:23-48 | For a non-empty array, the outcome is decided by the elements alone: their records, or the format error. |
| KeysValidation.KeysAllOrNothing | utils/inputValidation/keys.js:25-48 | Valid if and only if every element is accepted. Anything else is the format error, with no partial list. A valid list has one record per element, in order. Record i holds element i's validated trafficType, matchingKey and bucketingKey. |
| KeysValidation.KeysRejectsBadElement | utils/inputValidation/keys.js:34-45 | One element that throws or is rejected, at any position, makes the whole parameter the format error. |
| KeysValidation.CheckElement | utils/inputValidation/keys.js:25-41 | An element throws exactly when it is `null`, because reading `key.trafficType` on `null` throws. |
| KeysValidation.CheckElementRejects | utils/inputValidation/keys.js:26-34 | A non-null element is rejected if and only if its trafficType, its matchingKey or its present bucketingKey fails validation. |
| KeysValidation.CheckElementFacts | utils/inputValidation/keys.js:26-40 | These elements are rejected: one with a missing matchingKey, one with a `null` bucketingKey, and one that is not an object. An accepted record has a non-empty, trimmed matchingKey of at most 250 characters. Its bucketingKey is `null` exactly when the field is absent, and is otherwise non-empty, trimmed and at most 250 characters long. |
| KeysValidation.BucketingKey | utils/inputValidation/keys.js:28 | An absent bucketingKey is valid as `null` without validation. Anything present, `null` included, is valid exactly when the key validator accepts it, and then carries the validated text. |
| KeysValidation.CheckAll | utils/inputValidation/keys.js:25-41 | A list of records has one record per element. |
| KeysValidation.CheckAllAccepts | utils/inputValidation/keys.js:25-41 | Records come back if and only if every element is accepted. Record i is element i's own record. |
| KeysValidation.CheckAllAppend | utils/inputValidation/keys.js:25-41 | Walking a concatenation is walking the first part, then the second. A failure in either part discards all records. |
| KeysValidation.CheckAllStep | utils/inputValidation/keys.js:25-40 | One step of the walk: an accepted element extends the gathered prefix by its record, and any other outcome makes the whole array fail. |
| KeysValidation.CheckAllPrefixStep | utils/inputValidation/keys.js:34-40 | When element i is accepted, the records of the prefix before i, plus its record, are the records of the prefix through i. |
| KeysValidation.CheckAllStart | utils/inputValidation/keys.js:23-25 | The walk starts with no records and the whole array still to check. |
| KeysValidation.CheckAllDone | utils/inputValidation/keys.js:45-48 | Once every element is accepted, the gathered records are the outcome. |
| JsValues.Property | utils/inputValidation/keys.js:26-28 | A property read is defined exactly when the object has the field, and then yields that field's value. |
| KeyValidation.KeyValidator | utils/inputValidation/__tests__/key.test.js:38-69 | An accepted key is never empty, has no white space at either end, and is at most 250 characters long. |
| KeyValidation.NumberKeyLength | client/__tests__/allTreatmentsWithConfig.test.js:207-230 | The decimal text of any safe integer has at most 17 characters, so a numeric key is always within the limit. |
| KeyValidation.KeyValidatorOutcomes | utils/inputValidation/__tests__/key.test.js:5-69 | Each outcome with its message: null or undefined; blank after trim; longer than 250 after trim. A string is accepted if and only if it is neither blank nor too long, and then as its trimmed text. A number is accepted as its decimal text. Booleans, arrays and objects are rejected. |
| KeyValidation.KeyValidatorTrims | utils/inputValidation/__tests__/key.test.js:62-69 | Any key of 1 to 250 characters, surrounded by any white space, is accepted as the bare key. |
| KeyValidation.KeyValidatorIdempotent | utils/inputValidation/__tests__/key.test.js:53-69 | Validating an accepted key again accepts it unchanged. |
| SplitValidation.SplitValidator | utils/inputValidation/__tests__/split.test.js:3-54 | A missing or null name gives the null message, and a blank one the empty-name message. A name longer than 250 characters once trimmed is rejected. Valid if and only if neither holds. A valid name is non-empty, trimmed and no longer than the input. |
| SplitValidation.SplitValidatorTrims | utils/inputValidation/__tests__/split.test.js:46-53 | A name surrounded by white space is accepted as the bare name. |
| ValueValidation.ValueValidator | utils/inputValidation/__tests__/eventValue.test.js:3-43 | A missing value is valid as `null`. The value is invalid, with the one fixed message, if and only if it is text whose trimmed form is not a numeral. Blank text is invalid. |
| ValueValidation.ValueValidatorReadsNumeral | utils/inputValidation/__tests__/eventValue.test.js:35-42 | A numeral, surrounded by any white space, is read as its value. |
| ValueValidation.DecimalIsNumeral | utils/inputValidation/__tests__/eventValue.test.js:35-42 | The decimal text of every integer is a numeral whose value is that integer. |
| ValueValidation.ValueValidatorReadsDecimal | utils/inputValidation/__tests__/eventValue.test.js:35-42 | Round trip: the decimal text of any integer, padded with white space, is read back as that integer. |
| ValueValidation.DigitStringValue | utils/inputValidation/__tests__/eventValue.test.js:35-42 | A string of decimal digits is read as its decimal value. |
| Text.Trim | utils/inputValidation/__tests__/key.test.js:27-36 | The result has no white space at either end. It is empty if and only if the input is all white space. It is never longer than the input, and an already trimmed string is left alone. |
| Text.TrimStart | utils/inputValidation/__tests__/key.test.js:62-69 | It drops only white space, and what remains is a suffix that does not start with white space. |
| Text.TrimEnd | utils/inputValidation/__tests__/key.test.js:62-69 | It drops only white space, and what remains is a prefix that does not end with white space. |
| Text.TrimPadded | utils/inputValidation/__tests__/key.test.js:62-69 | Trimming a trimmed core surrounded by any white space gives the core back. |
| Text.TrimStartPadded | utils/inputValidation/__tests__/split.test.js:46-53 | Leading white space before a core that starts with non-space is dropped exactly. |
| Text.TrimEndPadded | utils/inputValidation/__tests__/split.test.js:46-53 | Trailing white space after a core that ends with non-space is dropped exactly. |
| Text.TrimIdempotent | utils/inputValidation/__tests__/key.test.js:27-36 | Trimming twice is trimming once. |
| Text.NatToDecimal | client/__tests__/allTreatmentsWithConfig.test.js:207-230 | The decimal text is non-empty and made only of digits. It has no leading zero unless the number is 0. |
| Text.IntToDecimal | client/__tests__/allTreatmentsWithConfig.test.js:207-230 | The text is non-empty with no white space at either end. It starts with `-` if and only if the number is negative. |
| Text.NatToDecimalLength | client/__tests__/allTreatmentsWithConfig.test.js:207-230 | A natural number below 10^k has at most k digits. |
| Text.NatToDecimalRoundTrip | utils/inputValidation/__tests__/eventValue.test.js:35-42 | Reading back the decimal text of a natural number gives the number. |
| SourceTestCases.NullMessageText | utils/inputValidation/__tests__/key.test.js:6 | The null-key message for the label `key` is the exact text the test expects. |
| SourceTestCases.EmptyMessageText | utils/inputValidation/__tests__/key.test.js:17 | The empty-key message for the label `key` is the exact text the test expects. |
| SourceTestCases.TooLongMessageText | utils/inputValidation/__tests__/key.test.js:43 | The too-long message for the label `key` is the exact text the test expects. |
| SourceTestCases.KeyNullCase | utils/inputValidation/__tests__/key.test.js:5-14 | A `null` key is rejected with the null-key message. |
| SourceTestCases.KeyEmptyCase | utils/inputValidation/__tests__/key.test.js:16-25 | An empty key is rejected with the empty-string message. |
| SourceTestCases.KeyBlankCase | utils/inputValidation/__tests__/key.test.js:27-36 | A key of three spaces is rejected with the empty-string message. |
| SourceTestCases.KeyTooLongCase | utils/inputValidation/__tests__/key.test.js:38-51 | 251 letters `a` are rejected with the too-long message. |
| SourceTestCases.KeyValidCase | utils/inputValidation/__tests__/key.test.js:53-60 | `key` is accepted as `key`. |
| SourceTestCases.KeyTrimCase | utils/inputValidation/__tests__/key.test.js:62-69 | `   key ` is accepted as `key`. |
| SourceTestCases.SplitNullCase | utils/inputValidation/__tests__/split.test.js:4-13 | A missing split name gives the null message. |
| SourceTestCases.SplitEmptyCases | utils/inputValidation/__tests__/split.test.js:15-35 | An empty name and a blank name give the empty-name message. |
| SourceTestCases.SplitValidCase | utils/inputValidation/__tests__/split.test.js:37-44 | `my-split` is accepted unchanged. |
| SourceTestCases.SplitTrimCase | utils/inputValidation/__tests__/split.test.js:46-53 | ` my-split     ` is accepted as `my-split`. |
| SourceTestCases.ValueEmptyCase | utils/inputValidation/__tests__/eventValue.test.js:4-13 | An empty value is rejected with `value must be null or number.`. |
| SourceTestCases.ValueBlankCase | utils/inputValidation/__tests__/eventValue.test.js:15-24 | A blank value is rejected with `value must be null or number.`. |
| SourceTestCases.ValueUndefinedCase | utils/inputValidation/__tests__/eventValue.test.js:26-33 | A missing value is valid as `null`. |
| SourceTestCases.ValueNumberCase | utils/inputValidation/__tests__/eventValue.test.js:35-42 | `1234` is valid as the number 1234. |
| SourceTestCases.KeysMissingCase | client/__tests__/allTreatmentsWithConfig.test.js:25-33 | With no `keys` parameter, the result is the null-or-undefined-keys message. |
| SourceTestCases.KeysNotAnArrayCases | client/__tests__/allTreatmentsWithConfig.test.js:35-53 | An empty `keys` (which does not parse) and `{}` both give `keys must be a valid format.`. |
| SourceTestCases.KeysEmptyArrayCase | client/__tests__/allTreatmentsWithConfig.test.js:55-63 | `[]` gives the at-least-one-element message. |
| SourceTestCases.KeysOfNumbersCase | client/__tests__/allTreatmentsWithConfig.test.js:65-73 | `[1, 2, 3, 4]` is rejected with the format error (the test expects another message; see Left out). |
| SourceTestCases.KeysBadTrafficTypeCase | client/__tests__/allTreatmentsWithConfig.test.js:75-103 | A trafficType that the traffic-type validator rejects (missing, `true` or empty) makes the parameter invalid. |
| SourceTestCases.KeysMissingMatchingKeyCase | client/__tests__/allTreatmentsWithConfig.test.js:105-113 | An element without a matchingKey makes the parameter invalid. |
| SourceTestCases.KeysBooleanMatchingKeyCase | client/__tests__/allTreatmentsWithConfig.test.js:115-123 | A matchingKey of `true` makes the parameter invalid. |
| SourceTestCases.KeysBlankMatchingKeyCase | client/__tests__/allTreatmentsWithConfig.test.js:125-143 | An empty or blank matchingKey makes the parameter invalid. |
| SourceTestCases.KeysLongMatchingKeyCase | client/__tests__/allTreatmentsWithConfig.test.js:145-154 | A matchingKey longer than 250 characters makes the parameter invalid. |
| SourceTestCases.ArrayBucketingKeyElement | client/__tests__/allTreatmentsWithConfig.test.js:156-164 | The element with an array as its bucketingKey is rejected. |
| SourceTestCases.KeysArrayBucketingKeyCase | client/__tests__/allTreatmentsWithConfig.test.js:156-164 | A bucketingKey that is an array makes the parameter invalid. |
| SourceTestCases.KeysBlankBucketingKeyCase | client/__tests__/allTreatmentsWithConfig.test.js:166-184 | An empty or blank bucketingKey makes the parameter invalid. |
| SourceTestCases.KeysLongBucketingKeyCase | client/__tests__/allTreatmentsWithConfig.test.js:186-195 | A bucketingKey longer than 250 characters makes the parameter invalid. |
| SourceTestCases.NumericMatchingKeyElement | client/__tests__/allTreatmentsWithConfig.test.js:207-230 | The element with matchingKey 12345 is accepted, with matchingKey `12345` and no bucketingKey. |
| SourceTestCases.KeysNumericMatchingKeyCase | client/__tests__/allTreatmentsWithConfig.test.js:207-230 | `[{"matchingKey":12345,"trafficType":"localhost"}]` is valid, and yields one record with matchingKey `12345`. |

## Left out

- The `console.log` calls in `validateKeys` print diagnostics and do not affect the result, so they are not modelled.
- `JSON.parse` is a parameter, not a JSON parser. The endpoint cases state the parse of their query text as a precondition.
- The traffic-type validator (`utils/inputValidation/trafficType.js`) is not part of this model. It is a parameter, and nothing is assumed about it, including whether it lower-cases.
- The sources of `keyValidator`, the split-name validator and the event-value validator are not part of this model. Their behaviour follows their unit tests and the endpoint tests. Two behaviours no test fixes are this model's choices: the 250-character limit on split names, and reading a numeric key as its decimal text.
- KeyValidation.WrongTypeMessage: no test shows the message for a boolean, array or object key. Its wording is this model's choice; the lemmas only state that such a key is rejected.
- SplitValidation.SplitValidator: the 250-character bound and its message follow the key validator's pattern. No test fixes them.
- ValueValidation.ValueValidator: accepts only integer numerals with an optional sign. It rejects input the program accepts: `Number()` reads fractions (`1.5`), exponents (`1e3`), hexadecimal (`0x1F`) and `Infinity`, while this model answers `value must be null or number.` for them. It also reads integers of any size exactly, where `Number()` rounds above 2^53. `null` is treated like a missing value.
- JsValues.Json: numbers are safe integers (magnitude at most 2^53 - 1). Fractional numbers such as `1.5` are not modelled. Neither are the larger integers that `JSON.parse` rounds, nor the exponent form `String(n)` uses from 10^21 on. A `parseJson` parameter therefore stands only for parses whose numbers are safe integers.
- String lengths count code points. JavaScript counts UTF-16 code units, so the two disagree on characters outside the Basic Multilingual Plane.
- The source contradicts itself on the message for a bad element.
  - `keys.js` returns one shared error object for a non-array (keys.js:18), a rejected element (keys.js:45) and a thrown exception (keys.js:50). Its message is `keys must be a valid format.`.
  - The endpoint test expects that message for `{}` (allTreatmentsWithConfig.test.js:45-53).
  - For `[1, 2, 3, 4]` and every other bad element (allTreatmentsWithConfig.test.js:65-194), the same test expects `keys is array but there are errors inside of it. ...`.
  - A layer that sees only the returned object cannot produce both messages unless it parses `keys` again.
  - The model follows `keys.js` as written.
- Other parts of the service are not modelled: the attributes validator, the error aggregation of the endpoint, HTTP handling, authorisation, and flag evaluation.
