/** The values the validators receive: request parameters as Express hands
    them over, and the JavaScript values `JSON.parse` produces. */
module JsValues {
  import opened Results

  /** Largest integer a JavaScript number holds exactly (2^53 - 1). */
  const MaxSafeInteger := 9007199254740991

  /** The integers `Number.isSafeInteger` accepts. */
  type SafeInteger = n: int | -MaxSafeInteger <= n <= MaxSafeInteger

  /** A parsed JSON value. Numbers are limited to safe integers. */
  datatype Json =
    | JNull
    | JBool(b: bool)
    | JNumber(n: SafeInteger)
    | JString(s: string)
    | JArray(items: seq<Json>)
    | JObject(fields: map<string, Json>)

  /** A JavaScript value that may be `undefined`, such as the result of
      reading a property that an object does not have. */
  datatype JsValue = Undefined | Defined(json: Json)

  /** A raw request parameter: missing, `null`, or a string. */
  datatype Raw = Absent | Null | Str(s: string)

  /** `obj.name` on a value that is not `null`: an object's own property when
      it has one, and `undefined` otherwise (numbers, strings, booleans and
      arrays have none of the names the validators read). */
  function Property(obj: Json, name: string): (v: JsValue)
    requires obj != JNull
    ensures v.Defined? <==> obj.JObject? && name in obj.fields
    ensures v.Defined? ==> v.json == obj.fields[name]
  {
    match obj
    case JObject(fields) => if name in fields then Defined(fields[name]) else Undefined
    case _ => Undefined
  }
}
