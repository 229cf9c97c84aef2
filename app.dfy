/**
 * The Flask application: the two MongoDB collections it changes, held as
 * maps, and one method per route. Each method does what its route does step
 * by step and is proved to give the reply and the new collection that the
 * route's function in Accounts or JobRoutes describes.
 */
module App {
  import opened Json
  import opened Platform
  import opened Helpers
  import opened Accounts
  import opened JobRoutes

  class Server {
    const env: Env
    /** `db.jobs`: identifier to the job's other fields. */
    var jobs: JobTable
    /** `db.users`: identifier to the user document. */
    var users: UserTable

    /** The invariant every route keeps. Its two halves read one field each,
        so a route that changes one collection keeps the other half unread. */
    ghost predicate Valid()
      reads this
    {
      JobsValid() && UsersValid()
    }

    ghost predicate JobsValid()
      reads this`jobs
    {
      WellFormed(env, jobs)
    }

    ghost predicate UsersValid()
      reads this`users
    {
      UniqueUsernames(users)
    }

    /** Connects to a database whose collections already hold `jobs0` and
        `users0`, in the shape the routes keep. */
    constructor (env: Env, jobs0: JobTable, users0: UserTable)
      requires WellFormed(env, jobs0) && UniqueUsernames(users0)
      ensures Valid()
      ensures this.env == env && jobs == jobs0 && users == users0
    {
      this.env := env;
      jobs := jobs0;
      users := users0;
    }

    /** POST /register; `newId` is the identifier the store assigns. */
    method Register(data: Body, newId: ObjectId) returns (r: Response)
      requires Valid()
      requires newId !in users
      modifies this`users
      ensures Valid()
      ensures UserStep(r, users) == Accounts.Register(env, old(users), data, newId)
    {
      var username := Get(data, "username");
      var password := Get(data, "password");
      if !Truthy(username) || !Truthy(password) {
        return CredentialsRequired;
      }
      if exists id :: id in users && users[id].username == username {
        return Error(400, "User already exists");
      }
      var hashed := env.hash(password);
      users := users[newId := User(username, hashed)];
      r := Registered(newId);
    }

    /** POST /login. */
    method Login(data: Body) returns (r: Response)
      requires UniqueUsernames(users)
      ensures r == Accounts.Login(env, users, data)
    {
      var username := Get(data, "username");
      var password := Get(data, "password");
      if !Truthy(username) || !Truthy(password) {
        return CredentialsRequired;
      }
      if !exists id :: id in users && users[id].username == username {
        return InvalidCredentials;
      }
      var id :| id in users && users[id].username == username;
      assert FindUser(users, username) == Some(id);
      if !env.check(users[id].password, password) {
        return InvalidCredentials;
      }
      r := LoggedIn(env, id);
    }

    /** POST /jobs; `now` is the formatted local time, `newId` the identifier
        the store assigns. */
    method AddJob(data: Body, now: string, newId: ObjectId) returns (r: Response)
      requires Valid()
      requires newId !in jobs && env.validId(newId)
      modifies this`jobs
      ensures Valid()
      ensures JobStep(r, jobs) == JobRoutes.AddJob(old(jobs), data, now, newId)
    {
      RequiredFieldsInOrder(data.values.Keys);
      for i := 0 to |RequiredFields|
        invariant forall j :: 0 <= j < i ==> RequiredFields[j] in data.values
      {
        var field := RequiredFields[i];
        if field !in data.values {
          return MissingField(field);
        }
      }
      var job := map[
        "company" := data.values["company"],
        "position" := data.values["position"],
        "status" := data.values["status"],
        "date_applied" := if "date_applied" in data.values then data.values["date_applied"] else JStr(now)];
      jobs := jobs[newId := job];
      r := Response(201, JobJson(newId, job));
    }

    /** GET /jobs: every stored job, in an order the store chooses (`order`). */
    method GetJobs() returns (r: Response, ghost order: seq<ObjectId>)
      ensures Enumerates(order, jobs.Keys)
      ensures r == Response(200, JArr(ListJobs(jobs, order)))
      ensures r.status == 200 && r.body.JArr? && |r.body.items| == |jobs|
      ensures forall id :: id in jobs ==> JobJson(id, jobs[id]) in r.body.items
    {
      var list: seq<Json> := [];
      var rest := jobs.Keys;
      order := [];
      while rest != {}
        invariant rest <= jobs.Keys
        invariant forall i :: 0 <= i < |order| ==> order[i] in jobs.Keys && order[i] !in rest
        invariant forall i, j :: 0 <= i < j < |order| ==> order[i] != order[j]
        invariant forall id :: id in jobs.Keys ==> id in rest || id in order
        invariant list == ListJobs(jobs, order)
        decreases rest
      {
        var id :| id in rest;
        list := list + [JobJson(id, jobs[id])];
        order := order + [id];
        rest := rest - {id};
      }
      ListingIsComplete(jobs, order);
      r := Response(200, JArr(list));
    }

    /** GET /jobs/<job_id>. */
    method GetJob(id: string) returns (r: Response)
      ensures r == JobRoutes.GetJob(env, jobs, id)
    {
      var parsed := ParseObjectId(env, id);
      if parsed.Abort? {
        return parsed.response;
      }
      var oid := parsed.value;
      if oid !in jobs {
        return Error(404, "Job Not Found");
      }
      r := Response(200, JobJson(oid, jobs[oid]));
    }

    /** PUT /jobs/<job_id>; `data` is None when the body is JSON null. */
    method UpdateJob(id: string, data: Option<Body>) returns (r: Response)
      requires Valid()
      modifies this`jobs
      ensures Valid()
      ensures JobStep(r, jobs) == JobRoutes.UpdateJob(env, old(jobs), id, data)
    {
      var parsed := ParseObjectId(env, id);
      if parsed.Abort? {
        return parsed.response;
      }
      var oid := parsed.value;
      if data.None? || data.value.keys == [] {
        return Error(400, "No update data provided");
      }
      var scan := ScanUpdateFields(data.value);
      if scan.Rejected? {
        return Error(400, FieldNotAllowed(scan.key));
      }
      var fields := scan.fields;
      if fields == map[] {
        return Error(400, "No valid fields provided to update");
      }
      if oid !in jobs {
        return JobNotFound;
      }
      PatchPreservesWellFormed(env, jobs, oid, fields);
      jobs := jobs[oid := jobs[oid] + fields];
      r := Response(200, JobJson(oid, jobs[oid]));
    }

    /** The loop of `update_job` over the body's items that builds
        `update_fields`, stopping at the first key outside the allow-list. */
    static method ScanUpdateFields(body: Body) returns (scan: Filtered)
      ensures scan == Filter(body.keys, body.values)
      ensures scan.Accepted? ==> scan.fields.Keys <= AllowedFields
    {
      var fields: map<string, Json> := map[];
      for i := 0 to |body.keys|
        invariant forall j :: 0 <= j < i ==> body.keys[j] in AllowedFields
        invariant fields.Keys <= AllowedFields
        invariant Filter(body.keys[..i], body.values) == Accepted(fields)
      {
        var key := body.keys[i];
        FilterStep(body.keys, body.values, i);
        if key in AllowedFields {
          fields := fields[key := body.values[key]];
        } else {
          assert FirstDisallowedAt(body.keys, i);
          FilterMeaning(body.keys, body.values);
          return Rejected(key);
        }
      }
      assert body.keys[..|body.keys|] == body.keys;
      scan := Accepted(fields);
    }

    /** DELETE /jobs/<job_id>. */
    method DeleteJob(id: string) returns (r: Response)
      requires Valid()
      modifies this`jobs
      ensures Valid()
      ensures JobStep(r, jobs) == JobRoutes.DeleteJob(env, old(jobs), id)
    {
      var parsed := ParseObjectId(env, id);
      if parsed.Abort? {
        return parsed.response;
      }
      var oid := parsed.value;
      if oid !in jobs {
        return JobNotFound;
      }
      jobs := jobs - {oid};
      r := Response(200, MessageBody("Job deleted successfully"));
    }
  }
}
