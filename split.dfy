/** The split-name validator: a feature-flag name must be a non-empty string,
    and is returned trimmed. */
module SplitValidation {
  import opened Results
  import opened JsValues
  import opened Text

  const MaxSplitNameLength := 250

  const NullSplitNameError := "you passed a null or undefined split-name, split-name must be a non-empty string."
  const EmptySplitNameError := "you passed an empty split-name, split-name must be a non-empty string."
  const LongSplitNameError := "split-name too long, split-name must be 250 characters or less."

  /** Rejects a missing or `null` name and a name that is empty once trimmed
      (with its own wording, not the key validator's), rejects one longer
      than 250 characters once trimmed, and otherwise returns it trimmed. */
  function SplitValidator(raw: Raw): (r: Result<string>)
    ensures raw == Absent || raw == Null ==> r == Invalid(NullSplitNameError)
    ensures raw.Str? && AllSpace(raw.s) ==> r == Invalid(EmptySplitNameError)
    ensures raw.Str? && |Trim(raw.s)| > MaxSplitNameLength ==> r == Invalid(LongSplitNameError)
    ensures r.Valid? <==> raw.Str? && !AllSpace(raw.s) && |Trim(raw.s)| <= MaxSplitNameLength
    ensures r.Valid? ==> r.value != [] && IsTrimmed(r.value) && |r.value| <= |raw.s|
  {
    match raw
    case Absent => Invalid(NullSplitNameError)
    case Null => Invalid(NullSplitNameError)
    case Str(s) =>
      var name := Trim(s);
      if |name| == 0 then Invalid(EmptySplitNameError)
      else if |name| > MaxSplitNameLength then Invalid(LongSplitNameError)
      else Valid(name)
  }

  /** A name with white space around it is accepted as the bare name, and a
      name without any is returned unchanged. */
  lemma SplitValidatorTrims(pre: string, name: string, post: string)
    requires AllSpace(pre) && AllSpace(post)
    requires IsTrimmed(name) && 0 < |name| <= MaxSplitNameLength
    ensures SplitValidator(Str(pre + name + post)) == Valid(name)
  {
    TrimPadded(pre, name, post);
  }
}
