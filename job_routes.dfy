/**
 * The `/jobs` routes over the `jobs` collection, as functions from the
 * collection and the request to the response and the new collection.
 * A stored job is kept without its `_id`; the table maps the identifier to
 * the other fields.
 */
module JobRoutes {
  import opened Json
  import opened Platform
  import opened Helpers

  type Doc = map<string, Json>
  type JobTable = map<ObjectId, Doc>

  datatype JobStep = JobStep(response: Response, jobs: JobTable)

  /** The fields `add_job` requires, in the order it checks them. */
  const RequiredFields: seq<string> := ["company", "position", "status"]

  /** The fields `update_job` lets a request change. */
  const AllowedFields: set<string> := {"company", "position", "status"}

  /** The fields of every stored job. */
  const JobFields: set<string> := {"company", "position", "status", "date_applied"}

  const JobNotFound: Response := Error(404, "Job not found")

  /** What the routes keep true of the collection: every key is a well-formed
      identifier and every job has exactly the fields `add_job` gives it. */
  predicate WellFormed(env: Env, jobs: JobTable) {
    forall id :: id in jobs ==> env.validId(id) && jobs[id].Keys == JobFields
  }

  /** A job as the routes send it: its fields with `_id` as a string. */
  function JobJson(id: ObjectId, doc: Doc): Json {
    JObj(doc["_id" := JStr(id)])
  }

  /** Stringifying `_id` in place, as the routes do, is `serialize_job` on a
      stored job, which has no `user_id`. */
  lemma JobJsonIsSerialized(id: ObjectId, doc: Doc)
    requires "user_id" !in doc
    ensures JobJson(id, doc) == JObj(SerializeJob(doc["_id" := JOid(id)]))
  {
  }

  // ----- POST /jobs -----

  /** The first of `fields` that is not a key of `present`. */
  function FirstAbsent(fields: seq<string>, present: set<string>): (r: Option<string>)
    ensures r.None? <==> forall i :: 0 <= i < |fields| ==> fields[i] in present
    ensures r.Some? ==> exists i :: 0 <= i < |fields| && fields[i] == r.value && r.value !in present
                                    && forall j :: 0 <= j < i ==> fields[j] in present
    decreases |fields|
  {
    if fields == [] then None
    else if fields[0] !in present then Some(fields[0])
    else
      var r := FirstAbsent(fields[1..], present);
      assert r.Some? ==> exists i :: 0 < i <= |fields[1..]| && fields[i] == r.value && r.value !in present
                                      && forall j :: 0 <= j < i ==> fields[j] in present by {
        if r.Some? {
          var i :| 0 <= i < |fields[1..]| && fields[1..][i] == r.value && r.value !in present
                   && forall j :: 0 <= j < i ==> fields[1..][j] in present;
          assert forall j :: 0 <= j < i + 1 ==> fields[j] in present by {
            forall j | 0 <= j < i + 1 ensures fields[j] in present {
              if j > 0 { assert fields[j] == fields[1..][j - 1]; }
            }
          }
        }
      }
      assert r.None? ==> forall i :: 0 <= i < |fields| ==> fields[i] in present by {
        if r.None? {
          forall i | 0 <= i < |fields| ensures fields[i] in present {
            if i > 0 { assert fields[i] == fields[1..][i - 1]; }
          }
        }
      }
      r
  }

  /** The reply naming a required field the body lacks. */
  function MissingField(field: string): Response {
    Error(400, "Missing required field: " + field)
  }

  /** The required fields are checked in the order company, position, status. */
  lemma RequiredFieldsInOrder(present: set<string>)
    ensures FirstAbsent(RequiredFields, present) ==
      if "company" !in present then Some("company")
      else if "position" !in present then Some("position")
      else if "status" !in present then Some("status")
      else None
  {
    assert RequiredFields[1..] == ["position", "status"];
    assert RequiredFields[1..][1..] == ["status"];
    assert RequiredFields[1..][1..][1..] == [];
  }

  /** The document `add_job` builds: the three required fields copied from
      the body, and `date_applied` from the body if present, else `now`. */
  function NewJob(data: Body, now: string): Doc
    requires forall f :: f in RequiredFields ==> f in data.values
  {
    map[
      "company" := data.values["company"],
      "position" := data.values["position"],
      "status" := data.values["status"],
      "date_applied" := if "date_applied" in data.values then data.values["date_applied"] else JStr(now)]
  }

  /**
   * POST /jobs. `now` is the local time already formatted, `newId` the
   * identifier the store gives the inserted document. Only the presence of
   * the required keys is checked, not their values.
   */
  function AddJob(jobs: JobTable, data: Body, now: string, newId: ObjectId): (out: JobStep)
    requires newId !in jobs
    ensures "company" !in data.values ==>
      out == JobStep(MissingField("company"), jobs)
    ensures "company" in data.values && "position" !in data.values ==>
      out == JobStep(MissingField("position"), jobs)
    ensures "company" in data.values && "position" in data.values && "status" !in data.values ==>
      out == JobStep(MissingField("status"), jobs)
    ensures out.response.status == 201 <==> forall f :: f in RequiredFields ==> f in data.values
    ensures out.response.status == 201 ==>
      && out.jobs.Keys == jobs.Keys + {newId}
      && (forall id :: id in jobs ==> out.jobs[id] == jobs[id])
      && out.jobs[newId].Keys == JobFields
      && (forall f :: f in RequiredFields ==> out.jobs[newId][f] == data.values[f])
      && out.jobs[newId]["date_applied"] == (if "date_applied" in data.values then data.values["date_applied"] else JStr(now))
      && out.response.body == JobJson(newId, out.jobs[newId])
  {
    RequiredFieldsInOrder(data.values.Keys);
    match FirstAbsent(RequiredFields, data.values.Keys)
    case Some(field) => JobStep(MissingField(field), jobs)
    case None =>
      var job := NewJob(data, now);
      JobStep(Response(201, JobJson(newId, job)), jobs[newId := job])
  }

  // ----- GET /jobs -----

  /** `order` lists each key of `keys` exactly once. */
  predicate Enumerates(order: seq<ObjectId>, keys: set<ObjectId>) {
    && (forall i, j :: 0 <= i < j < |order| ==> order[i] != order[j])
    && (forall i :: 0 <= i < |order| ==> order[i] in keys)
    && (forall id :: id in keys ==> id in order)
  }

  /** The jobs named by `order`, each as the routes send it. */
  function ListJobs(jobs: JobTable, order: seq<ObjectId>): (r: seq<Json>)
    requires forall i :: 0 <= i < |order| ==> order[i] in jobs
    ensures |r| == |order|
    decreases |order|
  {
    if order == [] then []
    else ListJobs(jobs, order[..|order| - 1]) + [JobJson(order[|order| - 1], jobs[order[|order| - 1]])]
  }

  lemma {:induction false} ListJobsAt(jobs: JobTable, order: seq<ObjectId>, k: nat)
    requires forall i :: 0 <= i < |order| ==> order[i] in jobs
    requires k < |order|
    ensures ListJobs(jobs, order)[k] == JobJson(order[k], jobs[order[k]])
    decreases |order|
  {
    if k < |order| - 1 {
      ListJobsAt(jobs, order[..|order| - 1], k);
    }
  }

  lemma {:induction false} DistinctCount(order: seq<ObjectId>)
    requires forall i, j :: 0 <= i < j < |order| ==> order[i] != order[j]
    ensures |set i | 0 <= i < |order| :: order[i]| == |order|
    decreases |order|
  {
    if order != [] {
      var prefix := order[..|order| - 1];
      DistinctCount(prefix);
      var last := order[|order| - 1];
      assert (set i | 0 <= i < |order| :: order[i]) == (set i | 0 <= i < |prefix| :: prefix[i]) + {last};
      assert last !in (set i | 0 <= i < |prefix| :: prefix[i]);
    }
  }

  /** GET /jobs answers with every stored job once and nothing else: as many
      entries as jobs, each stored job among them, each entry a stored job. */
  lemma ListingIsComplete(jobs: JobTable, order: seq<ObjectId>)
    requires Enumerates(order, jobs.Keys)
    ensures |ListJobs(jobs, order)| == |jobs|
    ensures forall id :: id in jobs ==> JobJson(id, jobs[id]) in ListJobs(jobs, order)
    ensures forall x :: x in ListJobs(jobs, order) ==> exists id :: id in jobs && x == JobJson(id, jobs[id])
  {
    var list := ListJobs(jobs, order);
    DistinctCount(order);
    assert (set i | 0 <= i < |order| :: order[i]) == jobs.Keys;
    forall id | id in jobs ensures JobJson(id, jobs[id]) in list {
      var k :| 0 <= k < |order| && order[k] == id;
      ListJobsAt(jobs, order, k);
    }
    forall x | x in list ensures exists id :: id in jobs && x == JobJson(id, jobs[id]) {
      var k :| 0 <= k < |list| && list[k] == x;
      ListJobsAt(jobs, order, k);
    }
  }

  // ----- GET /jobs/<job_id> -----

  /** GET /jobs/<job_id>; the collection is only read. */
  function GetJob(env: Env, jobs: JobTable, id: string): (r: Response)
    ensures !env.validId(id) ==> r == Error(400, "Invalid ID Format")
    ensures env.validId(id) && id !in jobs ==> r == Error(404, "Job Not Found")
    ensures r.status == 200 <==> env.validId(id) && id in jobs
    ensures r.status == 200 ==> r.body == JobJson(id, jobs[id])
  {
    match ParseObjectId(env, id)
    case Abort(response) => response
    case Ok(oid) => if oid !in jobs then Error(404, "Job Not Found") else Response(200, JobJson(oid, jobs[oid]))
  }

  // ----- PUT /jobs/<job_id> -----

  /** Outcome of the scan over the request's keys that builds `update_fields`. */
  datatype Filtered = Rejected(key: string) | Accepted(fields: map<string, Json>)

  /** `keys[i]` is the first key outside the allow-list. */
  predicate FirstDisallowedAt(keys: seq<string>, i: int) {
    0 <= i < |keys| && keys[i] !in AllowedFields && forall j :: 0 <= j < i ==> keys[j] in AllowedFields
  }

  /** The scan over `keys` (in order): stop at the first key outside the
      allow-list, else collect every key with its value. */
  function Filter(keys: seq<string>, values: map<string, Json>): Filtered
    requires forall k :: k in keys ==> k in values
    decreases |keys|
  {
    if keys == [] then Accepted(map[])
    else
      match Filter(keys[..|keys| - 1], values)
      case Rejected(k) => Rejected(k)
      case Accepted(m) =>
        var last := keys[|keys| - 1];
        if last in AllowedFields then Accepted(m[last := values[last]]) else Rejected(last)
  }

  /** What the scan computes: it accepts exactly the key sequences inside the
      allow-list, then collecting every key with its value, and otherwise
      rejects the first key outside it. */
  lemma {:induction false} FilterMeaning(keys: seq<string>, values: map<string, Json>)
    requires forall k :: k in keys ==> k in values
    ensures var r := Filter(keys, values);
      && (r.Accepted? <==> forall i :: 0 <= i < |keys| ==> keys[i] in AllowedFields)
      && (r.Accepted? ==> r.fields.Keys == (set k | k in keys) && forall k :: k in r.fields ==> r.fields[k] == values[k])
      && (forall i :: FirstDisallowedAt(keys, i) ==> r == Rejected(keys[i]))
    decreases |keys|
  {
    if keys != [] {
      var prefix, last := keys[..|keys| - 1], keys[|keys| - 1];
      FilterMeaning(prefix, values);
      assert keys == prefix + [last];
      assert (set k | k in keys) == (set k | k in prefix) + {last};
      forall i | FirstDisallowedAt(keys, i) ensures Filter(keys, values) == Rejected(keys[i]) {
        if i < |prefix| {
          assert FirstDisallowedAt(prefix, i);
        }
      }
    }
  }

  /** One more step of the scan, as the loop in `update_job` takes it. */
  lemma FilterStep(keys: seq<string>, values: map<string, Json>, i: int)
    requires forall k :: k in keys ==> k in values
    requires 0 <= i < |keys|
    ensures Filter(keys[..i + 1], values) ==
      match Filter(keys[..i], values)
      case Rejected(k) => Rejected(k)
      case Accepted(m) => if keys[i] in AllowedFields then Accepted(m[keys[i] := values[keys[i]]]) else Rejected(keys[i])
  {
    assert keys[..i + 1][..i] == keys[..i];
  }

  /** The "No valid fields provided to update" branch (the emptiness test of
      `update_fields`) is never taken for a non-empty body: the scan either
      rejects a key or collects every key. */
  lemma {:induction false} NoValidFieldsUnreachable(keys: seq<string>, values: map<string, Json>)
    requires forall k :: k in keys ==> k in values
    requires keys != []
    ensures Filter(keys, values).Rejected? || Filter(keys, values).fields != map[]
  {
    FilterMeaning(keys, values);
    var r := Filter(keys, values);
    if r.Accepted? {
      assert keys[0] in r.fields.Keys;
    }
  }

  function FieldNotAllowed(key: string): string {
    "Field'" + key + "' is not allowed to be updated"
  }

  /**
   * The decision logic of PUT /jobs/<job_id>, with the status code of the
   * reply that names a field outside the allow-list as a parameter.
   */
  function HandleUpdate(env: Env, jobs: JobTable, id: string, data: Option<Body>, rejectStatus: int): JobStep
  {
    match ParseObjectId(env, id)
    case Abort(response) => JobStep(response, jobs)
    case Ok(oid) =>
      if data.None? || data.value.keys == [] then JobStep(Error(400, "No update data provided"), jobs)
      else match Filter(data.value.keys, data.value.values)
        case Rejected(key) => JobStep(Response(rejectStatus, ErrorBody(FieldNotAllowed(key))), jobs)
        case Accepted(fields) =>
          if fields == map[] then JobStep(Error(400, "No valid fields provided to update"), jobs)
          else if oid !in jobs then JobStep(JobNotFound, jobs)
          else
            var updated := jobs[oid] + fields;
            JobStep(Response(200, JobJson(oid, updated)), jobs[oid := updated])
  }

  /** PUT /jobs/<job_id> as app.py writes it: the reply to a field outside the
      allow-list has no status code, so Flask sends 200. */
  function UpdateJobAsWritten(env: Env, jobs: JobTable, id: string, data: Option<Body>): (out: JobStep)
    ensures out.jobs == UpdateJob(env, jobs, id, data).jobs
    ensures out.response.body == UpdateJob(env, jobs, id, data).response.body
    ensures UpdateJob(env, jobs, id, data).response.status != 400 ==> out == UpdateJob(env, jobs, id, data)
    ensures env.validId(id) && data.Some? ==>
      forall i :: FirstDisallowedAt(data.value.keys, i) ==>
        out == JobStep(Response(200, ErrorBody(FieldNotAllowed(data.value.keys[i]))), jobs)
    ensures !(env.validId(id) && data.Some? && exists i :: FirstDisallowedAt(data.value.keys, i)) ==>
      out == UpdateJob(env, jobs, id, data)
  {
    if data.Some? && data.value.keys != [] then
      ScanOfBody(data.value);
      FirstDisallowedExists(data.value.keys);
      HandleUpdate(env, jobs, id, data, 200)
    else
      HandleUpdate(env, jobs, id, data, 200)
  }

  /** A key sequence with some key outside the allow-list has a first such key. */
  lemma {:induction false} FirstDisallowedExists(keys: seq<string>)
    ensures (exists i :: 0 <= i < |keys| && keys[i] !in AllowedFields) ==>
      exists i :: FirstDisallowedAt(keys, i)
    decreases |keys|
  {
    if keys != [] && exists i :: 0 <= i < |keys| && keys[i] !in AllowedFields {
      if keys[0] in AllowedFields {
        var i :| 0 <= i < |keys| && keys[i] !in AllowedFields;
        assert i > 0 && keys[1..][i - 1] !in AllowedFields;
        FirstDisallowedExists(keys[1..]);
        var j :| FirstDisallowedAt(keys[1..], j);
        assert FirstDisallowedAt(keys, j + 1);
      } else {
        assert FirstDisallowedAt(keys, 0);
      }
    }
  }

  /** Request bodies with at least one key, all of them in the allow-list. */
  predicate Patches(data: Option<Body>) {
    data.Some? && data.value.keys != [] && forall k :: k in data.value.keys ==> k in AllowedFields
  }

  /**
   * PUT /jobs/<job_id>, with the field rejection answered 400 like every
   * other rejected request. Checks run in order: identifier, empty body,
   * allow-list, existence; only the last step writes, with `$set` merge.
   */
  function UpdateJob(env: Env, jobs: JobTable, id: string, data: Option<Body>): (out: JobStep)
    ensures !env.validId(id) ==> out == JobStep(Error(400, "Invalid ID Format"), jobs)
    ensures env.validId(id) && (data.None? || data.value.keys == []) ==>
      out == JobStep(Error(400, "No update data provided"), jobs)
    ensures env.validId(id) && data.Some? ==>
      forall i :: FirstDisallowedAt(data.value.keys, i) ==>
        out == JobStep(Error(400, FieldNotAllowed(data.value.keys[i])), jobs)
    ensures env.validId(id) && Patches(data) && id !in jobs ==> out == JobStep(JobNotFound, jobs)
    ensures out.response.status == 200 <==> env.validId(id) && Patches(data) && id in jobs
    ensures out.response.status != 200 ==> out.jobs == jobs && out.response.status in {400, 404}
    ensures out.response.status == 200 ==>
      && out.jobs.Keys == jobs.Keys
      && (forall other :: other in jobs && other != id ==> out.jobs[other] == jobs[other])
      && out.jobs[id].Keys == jobs[id].Keys + data.value.values.Keys
      && (forall f :: f in data.value.values ==> out.jobs[id][f] == data.value.values[f])
      && (forall f :: f in jobs[id] && f !in data.value.values ==> out.jobs[id][f] == jobs[id][f])
      && out.response.body == JobJson(id, out.jobs[id])
  {
    if data.Some? && data.value.keys != [] then
      ScanOfBody(data.value);
      NoValidFieldsUnreachable(data.value.keys, data.value.values);
      HandleUpdate(env, jobs, id, data, 400)
    else
      HandleUpdate(env, jobs, id, data, 400)
  }

  /** For a request body, the scan rejects exactly the first disallowed key,
      or accepts the whole body as the patch. */
  lemma ScanOfBody(body: Body)
    ensures var f := Filter(body.keys, body.values);
      && (f.Accepted? <==> forall k :: k in body.keys ==> k in AllowedFields)
      && (f.Accepted? ==> f.fields == body.values)
      && (forall i :: FirstDisallowedAt(body.keys, i) ==> f == Rejected(body.keys[i]))
  {
    FilterMeaning(body.keys, body.values);
  }

  /** The finding, concretely: a body naming a field outside the allow-list
      is refused without a write, yet the reply's status is 200. */
  lemma FieldRejectionAnsweredOk(env: Env, jobs: JobTable, id: string)
    requires env.validId(id)
    ensures var body: Body := Dict(["foo"], map["foo" := JStr("bar")]);
      var data := Some(body);
      var out := UpdateJobAsWritten(env, jobs, id, data);
      && out.jobs == jobs
      && out.response == Response(200, ErrorBody(FieldNotAllowed("foo")))
      && UpdateJob(env, jobs, id, data).response.status == 400
  {
    var data: Body := Dict(["foo"], map["foo" := JStr("bar")]);
    assert FirstDisallowedAt(data.keys, 0);
  }

  // ----- DELETE /jobs/<job_id> -----

  /** DELETE /jobs/<job_id>: removes exactly the job with that identifier. */
  function DeleteJob(env: Env, jobs: JobTable, id: string): (out: JobStep)
    ensures !env.validId(id) ==> out == JobStep(Error(400, "Invalid ID Format"), jobs)
    ensures env.validId(id) && id !in jobs ==> out == JobStep(JobNotFound, jobs)
    ensures out.response.status == 200 <==> env.validId(id) && id in jobs
    ensures out.response.status == 200 ==>
      && out.response.body == MessageBody("Job deleted successfully")
      && out.jobs.Keys == jobs.Keys - {id}
      && forall other :: other in out.jobs ==> out.jobs[other] == jobs[other]
  {
    match ParseObjectId(env, id)
    case Abort(response) => JobStep(response, jobs)
    case Ok(oid) =>
      if oid !in jobs then JobStep(JobNotFound, jobs)
      else JobStep(Response(200, MessageBody("Job deleted successfully")), jobs - {oid})
  }

  // ----- Properties across requests -----

  /** A created job reads back as it was created. */
  lemma AddThenGet(env: Env, jobs: JobTable, data: Body, now: string, newId: ObjectId)
    requires newId !in jobs && env.validId(newId)
    requires AddJob(jobs, data, now, newId).response.status == 201
    ensures var out := AddJob(jobs, data, now, newId);
      GetJob(env, out.jobs, newId) == Response(200, out.response.body)
  {
  }

  /** After a successful delete, reading or deleting the same id again is 404. */
  lemma DeleteThenNotFound(env: Env, jobs: JobTable, id: string)
    requires DeleteJob(env, jobs, id).response.status == 200
    ensures var after := DeleteJob(env, jobs, id).jobs;
      && GetJob(env, after, id) == Error(404, "Job Not Found")
      && DeleteJob(env, after, id) == JobStep(JobNotFound, after)
  {
  }

  /** An update of `status` alone changes only `status`. */
  lemma UpdateStatusOnly(env: Env, jobs: JobTable, id: string, data: Body, value: Json)
    requires env.validId(id) && id in jobs
    requires data.values == map["status" := value]
    ensures var out := UpdateJob(env, jobs, id, Some(data));
      && out.response.status == 200
      && out.jobs == jobs[id := jobs[id]["status" := value]]
  {
    assert data.keys != [] by {
      assert "status" in data.values;
    }
    assert Patches(Some(data)) by {
      forall k | k in data.keys
        ensures k in AllowedFields
      {
        assert k in data.values;
      }
    }
    var out := UpdateJob(env, jobs, id, Some(data));
    var patched := jobs[id]["status" := value];
    assert out.jobs[id] == patched;
  }

  /** Creating a job keeps the collection well formed. */
  lemma AddJobPreservesWellFormed(env: Env, jobs: JobTable, data: Body, now: string, newId: ObjectId)
    requires WellFormed(env, jobs)
    requires newId !in jobs && env.validId(newId)
    ensures WellFormed(env, AddJob(jobs, data, now, newId).jobs)
  {
  }

  /** An update keeps the collection well formed: it only sets allowed fields,
      which every job already has. */
  lemma UpdateJobPreservesWellFormed(env: Env, jobs: JobTable, id: string, data: Option<Body>)
    requires WellFormed(env, jobs)
    ensures WellFormed(env, UpdateJob(env, jobs, id, data).jobs)
  {
    var out := UpdateJob(env, jobs, id, data);
    if out.response.status == 200 {
      var body := data.value;
      assert body.values.Keys <= AllowedFields by {
        forall k | k in body.values ensures k in AllowedFields {
          assert k in body.keys;
        }
      }
      assert out.jobs[id].Keys == JobFields;
      forall other | other in out.jobs
        ensures env.validId(other) && out.jobs[other].Keys == JobFields
      {
        if other != id {
          assert out.jobs[other] == jobs[other];
        }
      }
    }
  }

  /** Setting allowed fields of a stored job keeps the collection well formed. */
  lemma PatchPreservesWellFormed(env: Env, jobs: JobTable, id: ObjectId, fields: map<string, Json>)
    requires WellFormed(env, jobs)
    requires id in jobs && fields.Keys <= AllowedFields
    ensures WellFormed(env, jobs[id := jobs[id] + fields])
  {
  }

  /** A delete keeps the collection well formed. */
  lemma DeleteJobPreservesWellFormed(env: Env, jobs: JobTable, id: string)
    requires WellFormed(env, jobs)
    ensures WellFormed(env, DeleteJob(env, jobs, id).jobs)
  {
  }
}
