/**
 * What JobTrackr takes from its libraries without deciding anything itself:
 * which strings bson accepts as ObjectIds, werkzeug's password hashing, and
 * flask_jwt_extended's token creation. The model keeps them uninterpreted by
 * passing them in as an environment.
 */
module Platform {
  import opened Json

  /** An ObjectId, identified with its 24-character text form. */
  type ObjectId = string

  /**
   * - `validId(s)`: `ObjectId(s)` succeeds (bson's well-formedness rule).
   * - `hash(p)`: `generate_password_hash(p)`, salt included.
   * - `check(h, p)`: `check_password_hash(h, p)`.
   * - `token(uid)`: `create_access_token(identity=uid)`.
   */
  datatype Env = Env(
    validId: string -> bool,
    hash: Json -> string,
    check: (string, Json) -> bool,
    token: ObjectId -> string)
  {
    /** werkzeug's promise: a password always checks against its own hash. */
    ghost predicate HashSound() {
      forall p :: check(hash(p), p)
    }
  }
}
