/** Tagged results shared by every validator: `{valid: true, value}` or
    `{valid: false, error}`. A result carries exactly one of a value or an
    error message, by construction. */
module Results {

  datatype Option<+T> = None | Some(value: T)

  datatype Result<+T> = Valid(value: T) | Invalid(error: string)
}
