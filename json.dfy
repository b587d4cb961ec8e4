/** JSON values as the request bodies deliver them after `express.json()`. */
module JsonValue {

  datatype Json =
    | JNull
    | JBool(b: bool)
    | JNum(n: real)
    | JStr(s: string)
    | JArr(items: seq<Json>)
    | JObj(fields: map<string, Json>)

  /** A JSON object: what `Joi.object()` accepts and what a module `config` holds. */
  type Object = map<string, Json>
}
