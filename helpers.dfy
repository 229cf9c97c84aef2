/**
 * The helper functions of app.py: identifier parsing that aborts the request
 * with a JSON error, and the conversion of a stored job to JSON-safe form.
 */
module Helpers {
  import opened Json
  import opened Platform

  datatype Option<T> = None | Some(value: T)

  /** Either a value, or the response with which `abort` ends the request. */
  datatype Result<T> = Ok(value: T) | Abort(response: Response)

  const InvalidIdFormat: Response := Error(400, "Invalid ID Format")

  /** `parse_object_id`: the identifier, or a 400 abort when bson rejects it. */
  function ParseObjectId(env: Env, s: string): (r: Result<ObjectId>)
    ensures r.Ok? <==> env.validId(s)
    ensures r.Ok? ==> r.value == s
    ensures r.Abort? ==> r.response.status == 400 && r.response == InvalidIdFormat
  {
    if env.validId(s) then Ok(s) else Abort(InvalidIdFormat)
  }

  /**
   * `current_user_object_id`: `ObjectId(identity)` for the subject claim of
   * the request's token. bson builds a fresh identifier (`generated`) from
   * None, copies an ObjectId, parses a string, and raises TypeError on any
   * other value; every failure becomes a 422 abort.
   */
  function CurrentUserObjectId(env: Env, identity: Json, generated: ObjectId): (r: Result<ObjectId>)
    ensures r.Abort? ==> r.response == Error(422, "Invalid token identity")
    ensures r.Abort? <==> !(identity.JNull? || identity.JOid? || (identity.JStr? && env.validId(identity.s)))
    ensures identity.JStr? && r.Ok? ==> r.value == identity.s
    ensures identity.JOid? ==> r == Ok(identity.hex)
  {
    match identity
    case JNull => Ok(generated)
    case JOid(hex) => Ok(hex)
    case JStr(s) => if env.validId(s) then Ok(s) else Abort(Error(422, "Invalid token identity"))
    case _ => Abort(Error(422, "Invalid token identity"))
  }

  /** `str(v)` for the values a stored document holds under `_id` or
      `user_id`: the text of an ObjectId, a string unchanged. */
  function Str(v: Json): Json {
    match v
    case JOid(hex) => JStr(hex)
    case _ => v
  }

  /** `serialize_job`: the document with `_id`, and `user_id` when present,
      turned into strings and every other field kept. */
  function SerializeJob(job: map<string, Json>): (r: map<string, Json>)
    requires "_id" in job
    ensures r.Keys == job.Keys
    ensures r["_id"] == Str(job["_id"])
    ensures "user_id" in job ==> r["user_id"] == Str(job["user_id"])
    ensures forall f :: f in job && f != "_id" && f != "user_id" ==> r[f] == job[f]
  {
    var withId := job["_id" := Str(job["_id"])];
    if "user_id" in job then withId["user_id" := Str(job["user_id"])] else withId
  }
}
