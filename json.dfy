/**
 * The parts of a decoded JSON payload that the tracker reads, with the Python
 * operations it applies to them: `dict.get`, `str(...)` and truthiness.
 */
module Json {

  /**
   * A scalar field value. A JSON number is treated as the text `str()` prints
   * for it, so a numeric 0 counts as truthy here, unlike in Python.
   */
  datatype Value = Null | Text(text: string)

  /** A JSON object; only the presence of keys other than the ones read matters. */
  type Object = map<string, Value>

  /** `o.get(key, default)`. */
  function Get(o: Object, key: string, default: Value): Value {
    if key in o then o[key] else default
  }

  /** `str(v)`: a null prints as "None". */
  function PyStr(v: Value): string {
    match v
    case Null => "None"
    case Text(t) => t
  }

  /** Python truthiness of a scalar: null and the empty string are false. */
  predicate Truthy(v: Value) {
    v.Text? && v.text != ""
  }
}
