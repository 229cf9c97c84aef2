/**
 * JSON values as the request handlers of JobTrackr see them once Flask has
 * parsed a request body, and the responses they hand back to Flask.
 */
module Json {

  /** A JSON value. `JOid` is a BSON ObjectId, which only occurs in documents
      read back from MongoDB; `hex` is its text form. Numbers are integers. */
  datatype Json =
    | JNull
    | JBool(b: bool)
    | JNum(n: int)
    | JStr(s: string)
    | JArr(items: seq<Json>)
    | JObj(members: map<string, Json>)
    | JOid(hex: string)

  /** Python's truth value of a parsed JSON value (`not v` is `!Truthy(v)`). */
  predicate Truthy(v: Json) {
    match v
    case JNull => false
    case JBool(b) => b
    case JNum(n) => n != 0
    case JStr(s) => s != ""
    case JArr(items) => items != []
    case JObj(members) => members != map[]
    case JOid(_) => true
  }

  /** A JSON object as a Python dict: its keys in the order the request gave
      them, and the value under each key. */
  datatype Dict = Dict(keys: seq<string>, values: map<string, Json>) {
    predicate Valid() {
      && (forall i, j :: 0 <= i < j < |keys| ==> keys[i] != keys[j])
      && (forall k :: k in values ==> k in keys)
      && (forall k :: k in keys ==> k in values)
    }
  }

  /** A request body that parsed to a JSON object. */
  type Body = d: Dict | d.Valid() witness Dict([], map[])

  /** `data.get(key)`: the value under `key`, or None when it is absent. */
  function Get(data: Body, key: string): Json {
    if key in data.values then data.values[key] else JNull
  }

  /** A response: the HTTP status code and the JSON body Flask sends. */
  datatype Response = Response(status: int, body: Json)

  /** The body `{"error": msg}` that every error path of the handlers sends. */
  function ErrorBody(msg: string): Json {
    JObj(map["error" := JStr(msg)])
  }

  function Error(status: int, msg: string): Response {
    Response(status, ErrorBody(msg))
  }

  /** The body `{"message": msg}` of the success replies that carry no data. */
  function MessageBody(msg: string): Json {
    JObj(map["message" := JStr(msg)])
  }
}
