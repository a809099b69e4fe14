/** The JavaScript values that cross the core's boundaries: numbers (IEEE
    doubles, of which only the finite/non-finite distinction and the finite
    value matter here) and JSON documents as `JSON.parse` produces them. */
module JsValues {

  /** A JavaScript number. Finite values are kept as reals; rounding to the
      nearest double is not modelled. */
  datatype JsNumber = Finite(v: real) | NaN | Infinity(negative: bool) {
    /** `Number.isFinite` */
    predicate IsFinite() { Finite? }
  }

  /** A parsed JSON value. Objects are maps: `JSON.parse` keeps the last of
      duplicated keys, and the key order of an object is not modelled. */
  datatype Json =
    | JNull
    | JBool(b: bool)
    | JNum(n: real)
    | JStr(s: string)
    | JArr(elems: seq<Json>)
    | JObj(fields: map<string, Json>)

  /** `{}` */
  const EmptyObject: Json := JObj(map[])
}
