/**
 * JSON values as the portal's JavaScript code receives them from
 * `JSON.parse` or `response.json()`, with the JavaScript notions the code
 * leans on: truthiness and property reads.
 */
module Json {
  import opened Optional

  /** A JSON value; numbers are reals (NaN and the infinities are not JSON). */
  datatype Json =
    | JNull
    | JBool(b: bool)
    | JNumber(n: real)
    | JString(s: string)
    | JArray(items: seq<Json>)
    | JObject(fields: map<string, Json>)

  /** JavaScript truthiness of a JSON value. */
  predicate Truthy(v: Json) {
    match v
    case JNull => false
    case JBool(b) => b
    case JNumber(n) => n != 0.0
    case JString(s) => s != ""
    case JArray(_) => true
    case JObject(_) => true
  }

  /**
   * The property read `v[key]` on a value that is not null: the field of an
   * object, undefined otherwise. Reading a property of null throws; callers
   * handle that case themselves.
   */
  function Field(v: Json, key: string): (r: Option<Json>)
    ensures r.Some? <==> v.JObject? && key in v.fields
    ensures r.Some? ==> r.value == v.fields[key]
  {
    if v.JObject? && key in v.fields then Some(v.fields[key]) else None
  }

  /** A string-valued field with the given content. */
  predicate HasString(v: Json, key: string, s: string) {
    Field(v, key) == Some(JString(s))
  }

  /**
   * The declared `DiagnosticResult` shape: the five string fields, with
   * `severity` one of the three lower-case levels. No code path checks a
   * parsed value against it; the lemmas use it to say which fallbacks have it.
   */
  predicate IsDiagnosticResult(v: Json) {
    && v.JObject?
    && (forall key :: key in ["issue", "explanation", "recommendation", "severity", "estimatedCost"] ==>
          key in v.fields && v.fields[key].JString?)
    && v.fields["severity"].s in ["low", "medium", "high"]
  }
}
