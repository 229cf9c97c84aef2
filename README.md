# JobTrackr request handlers in Dafny

JobTrackr is a small Flask API for tracking job applications. It keeps two MongoDB
collections. `users` holds accounts created by `/register` and checked by `/login`.
`jobs` holds job applications, created, listed, read, updated and deleted through
`/jobs` and `/jobs/<job_id>`.

This project models the decision logic of those route handlers in `app.py`. The two
collections are maps from an identifier to a document. Each route is a function from
the collection and the parsed request to the reply (status code and JSON body) and
the new collection. These functions live in `Accounts` and `JobRoutes`. The class
`App.Server` holds the collections as fields and has one method per route. Each
method changes the fields step by step, with the same loops as the handlers. Each is
proved to produce exactly the reply and the new collection that its route's function
gives. The class follows `app.py` in everything but one reply. When `PUT /jobs/<job_id>`
rejects a field outside the allow-list, `app.py` sends status 200 (app.py:230), but
`App.Server.UpdateJob` sends 400 (see "## Findings").

Modules:

- `Json` (json.dfy): parsed JSON values, Python truthiness, request bodies as ordered
  dicts, and replies.
- `Platform` (platform.dfy): what the libraries decide, passed in as an environment
  `Env`. It holds bson's ObjectId well-formedness (`validId`), werkzeug's
  `generate_password_hash` / `check_password_hash` (`hash`, `check`), and
  flask_jwt_extended's `create_access_token` (`token`). `HashSound` states that
  `check(hash(p), p)` always holds.
- `Helpers` (helpers.dfy): `parse_object_id`, `current_user_object_id` and
  `serialize_job`.
- `Accounts` (accounts.dfy): `/register` and `/login`.
- `JobRoutes` (job_routes.dfy): the five `/jobs` routes, the invariant they keep, and
  properties that span several requests.
- `App` (app.dfy): the `Server` class.

Inputs that come from outside the code are parameters:
- the current time, already formatted (`now`);
- the identifier the store assigns to an inserted document (`newId`, not yet in the
  collection);
- for `GET /jobs`, the order in which the store returns documents (the ghost `order`).

The model follows the code as written:

- `add_job` checks only that `company`, `position` and `status` are present. It does
  not check that they are non-empty.
- The default `date_applied` is the local time.
- No `/jobs` route requires a token.

## Model

| member | source | states |
|---|---|---|
| Helpers.ParseObjectId | app.py:36-40 | succeeds exactly on well-formed identifiers and returns that identifier; otherwise aborts with 400 "Invalid ID Format" |
| Helpers.CurrentUserObjectId | app.py:43-49 | the token identity becomes an ObjectId when bson accepts it (None, an ObjectId, or a well-formed string); every other value aborts with 422 "Invalid token identity" |
| Helpers.SerializeJob | app.py:52-57 | same keys as the stored document; `_id` and, when present, `user_id` are replaced by their string form; every other field is unchanged |
| Accounts.FindUser | app.py:139 | finds a user exactly when one has that username, and the user it returns has that username |
| Accounts.Register | app.py:113-127 | 400 with no insert when username or password is missing or falsy; 400 "User already exists" with no insert when the username is taken; otherwise 201 with the new id as a string, one new user holding the hashed password, other users unchanged; keeps usernames unique |
| Accounts.Login | app.py:130-145 | 400 when a credential is missing; 200 exactly when a user with that username passes the password check, with a token for that user's id; an unknown user and a wrong password both get the same 401 "Invalid credentials" |
| Accounts.RegisterTwiceRejected | app.py:121-126 | registering a username a second time fails with "User already exists", and the first user's stored hash stays the same |
| Accounts.RegisterThenLogin | app.py:125-145 | when the hash is sound, logging in right after registering with the same body gives a token for the new user's id |
| JobRoutes.JobJsonIsSerialized | app.py:206 | stringifying `_id` in place, as the routes do, equals `serialize_job` on a stored job |
| JobRoutes.FirstAbsent | app.py:164-167 | no result exactly when every listed field is present; otherwise the result is the first listed field that is absent |
| JobRoutes.RequiredFieldsInOrder | app.py:164-167 | the required fields are checked in the order company, position, status |
| JobRoutes.AddJob | app.py:160-180 | names the first missing required field in a 400 and stores nothing; otherwise 201; exactly one new document; existing documents unchanged; the new document has exactly company, position and status from the body, plus date_applied from the body or else `now`; the reply is that document with its `_id` |
| JobRoutes.ListJobsAt | app.py:188-189 | entry k of the listing is the k-th job in store order, with `_id` as a string |
| JobRoutes.ListingIsComplete | app.py:184-191 | the GET /jobs listing has one entry per stored job; every stored job appears in it, and every entry is a stored job |
| JobRoutes.GetJob | app.py:195-207 | 400 "Invalid ID Format" for a malformed id; 404 "Job Not Found" for an absent one; otherwise 200 with the stored document and its `_id` as a string; the collection is only read |
| JobRoutes.FilterMeaning | app.py:222-230 | the scan accepts exactly when every key is allowed and then collects every key with its value; otherwise it rejects the first key outside the allow-list |
| JobRoutes.NoValidFieldsUnreachable | app.py:226-233 | for a non-empty body the scan either rejects a key or collects at least one field, so "No valid fields provided to update" is never sent |
| JobRoutes.ScanOfBody | app.py:222-230 | on a request body the scan rejects the first disallowed key, or accepts the whole body as the patch |
| JobRoutes.UpdateJobAsWritten | app.py:211-247 | as written: a body whose first disallowed key is k gets status 200 with the error naming k, and nothing is written; for every other request the reply and the writes are those of the corrected route |
| JobRoutes.FirstDisallowedExists | app.py:226-230 | a body with some key outside the allow-list has a first such key, which is the one the loop stops at |
| JobRoutes.FieldRejectionAnsweredOk | app.py:229-230 | for a valid id and body {"foo": "bar"}, the as-written route writes nothing and sends an error body with status 200, where the corrected route sends 400 |
| JobRoutes.UpdateJob | app.py:211-247 | checks run in this order: 400 for a malformed id, 400 for a missing or empty body, 400 naming the first disallowed key, 404 when no job has the id; every failure leaves the collection unchanged and has status 400 or 404; 200 exactly when all checks pass; then only the patched keys change, other fields and other documents are unchanged, and the reply is the whole updated document |
| JobRoutes.DeleteJob | app.py:251-262 | 400 for a malformed id; 404 with nothing removed for an absent one; otherwise 200, and exactly that document is removed while the others are unchanged |
| JobRoutes.AddThenGet | app.py:170-207 | a job just created reads back by its id as the document the create returned |
| JobRoutes.DeleteThenNotFound | app.py:195-260 | after a successful delete, both GET and DELETE on the same id give 404 |
| JobRoutes.UpdateStatusOnly | app.py:236-247 | an update whose body holds only `status` succeeds on any stored job and changes only `status` of that job |
| JobRoutes.AddJobPreservesWellFormed | app.py:170-178 | creating a job keeps every stored id well formed and every job with exactly company, position, status, date_applied |
| JobRoutes.UpdateJobPreservesWellFormed | app.py:222-239 | an update keeps that invariant, since it only sets allowed fields |
| JobRoutes.PatchPreservesWellFormed | app.py:236-238 | setting only allowed fields on a stored job keeps that invariant |
| JobRoutes.DeleteJobPreservesWellFormed | app.py:257 | a delete keeps that invariant |
| App.Server.constructor | app.py:27-29 | the application starts on the collections the database already holds, given as `jobs0` and `users0`, which must already have the shape the routes keep |
| App.Server.Register | app.py:113-127 | changes only `users`, as Accounts.Register gives, and keeps usernames unique |
| App.Server.Login | app.py:130-145 | replies as Accounts.Login gives and changes nothing |
| App.Server.AddJob | app.py:160-180 | the required-field loop and the insert change only `jobs`, as JobRoutes.AddJob gives, and keep the invariant |
| App.Server.GetJobs | app.py:184-191 | replies 200 with the listing of every stored job, in an order that lists each stored id exactly once: one entry per job, and every stored job, with `_id` as a string, among the entries |
| App.Server.GetJob | app.py:195-207 | replies as JobRoutes.GetJob gives and changes nothing |
| App.Server.ScanUpdateFields | app.py:222-230 | the loop over the body's items gives the scan's result: the first disallowed key, or every field to set |
| App.Server.UpdateJob | app.py:211-247 | changes only `jobs`, as JobRoutes.UpdateJob gives, and keeps the invariant |
| App.Server.DeleteJob | app.py:251-262 | changes only `jobs`, as JobRoutes.DeleteJob gives, and keeps the invariant |

## Left out

- Application setup is not modelled: constructing the Flask app, loading `.env`, and configuring the JWT secret and expiry (app.py:16-24). None of it makes a decision.
- The MongoDB connection (app.py:27-29) and `/test-mongo` (app.py:153-156) are not modelled. They are I/O, and the collections are maps here.
- The `/` liveness route (app.py:148-150) is not modelled. It returns a constant message.
- The 400/404/422 error handlers (app.py:64-82) are not modelled as functions. They turn `abort(code, description)` into `{"error": description}` with that code, and the model builds that reply directly.
- The JWT error loaders (app.py:88-105) are not modelled. They are callbacks of flask_jwt_extended with constant bodies.
- Token signing, expiry and validation happen inside flask_jwt_extended. `Env.token` stands for `create_access_token`.
- Password hashing is werkzeug's. `Env.hash` and `Env.check` stand for it, and only `HashSound` is assumed about them. The random salt is folded into `hash`.
- Which strings bson accepts as ObjectIds is abstract (`Env.validId`). An ObjectId is identified with its text. Ids that differ only in the case of their hex digits name the same ObjectId in bson but different documents in the model.
- `datetime.now().strftime(...)` is not modelled. The formatted time is the parameter `now`.
- The store chooses both the order of `db.jobs.find()` and the inserted identifiers. The order is the ghost out-parameter `order`, and a new identifier is any id not yet used (`newId`).
- Request bodies that are not JSON objects are not modelled (a list, a string, or no JSON at all). Flask or Python answers those with an error before or inside the handler. For PUT, a JSON `null` body is `None`.
- JSON numbers are integers, so floating-point values and their truthiness are not modelled.
- The order of keys in a reply is not modelled: `jsonify` sorts them, and the model's JSON objects are maps.
- Accounts.Register: any truthy password is hashed. werkzeug would raise on a password that is not a string, which Flask answers with 500.
- Accounts.Register: usernames are compared by equality. MongoDB would read an array or an operator object such as `{"$ne": null}` as a query, not as a literal value.
- Accounts.Login: same as Register; usernames are compared by equality, not as MongoDB queries. The function also assumes usernames are unique, which `register` maintains. With duplicates, `find_one` would pick one in store order.
- Helpers.SerializeJob: an `_id` or a `user_id` that is neither an ObjectId nor a string is kept as it is. Python would replace it with its `str()` text.
- App.Server.constructor: the class only starts on a database in which every job has a well-formed id and exactly the fields company, position, status and date_applied, and no two users share a username. A database written by other programs (for example a job carrying `user_id`, which `serialize_job` expects) is outside the class. The route functions in `Accounts` and `JobRoutes` take any collection.
- JSON integers are unbounded (`JNum`). BSON stores at most signed 64-bit integers, so `insert_one` (app.py:178), `update_one` (app.py:236) and the `find_one` of `register` (app.py:122) raise `OverflowError` on a larger value, and Flask answers 500. The model accepts and stores such values: for example `POST /jobs` with `{"company": 9223372036854775808, "position": "p", "status": "s"}` gets 201.
- Concurrency is not modelled. Two concurrent registrations of one username can both pass the check before either inserts. A delete between `update_one` and `find_one` in `update_job` makes the handler fail with 500. Each request is modelled as running alone.
- Authentication on `/jobs` is not modelled, because no route in `app.py` uses `jwt_required`. `current_user_object_id` is modelled but no route calls it.

## Findings

| source | as written | input that shows it | evidently intended | confidence | as-written member | corrected member |
|---|---|---|---|---|---|---|
| app.py:229-230 | the reply rejecting a field outside the allow-list has no status code, so Flask sends 200 with an error body and nothing is written | PUT /jobs/<well-formed id> with body `{"foo": "bar"}` | 400, like every other rejected request of the route | high; not executed | JobRoutes.UpdateJobAsWritten (shown by JobRoutes.FieldRejectionAnsweredOk) | JobRoutes.UpdateJob |

`App.Server.UpdateJob` follows the corrected `JobRoutes.UpdateJob`. For the corrected
route it is proved that status 200 is sent exactly when the update is applied, and that
every other reply is 400 or 404 and leaves the collection unchanged.
