/** JSON values as encoding/json decodes them into interface{} values, and
    the type assertions the Outline clients make on decoded maps. */
module JsonValues {
  /** A decoded JSON value, as encoding/json leaves it in an interface{}. */
  datatype Json =
    | JNull
    | JBool(b: bool)
    | JNum(n: int)
    | JStr(s: string)
    | JArr(items: seq<Json>)
    | JObj(fields: map<string, Json>)

  /** A missing key and a JSON null both read as a nil interface. */
  function Field(m: map<string, Json>, key: string): Json {
    if key in m then m[key] else JNull
  }
}
