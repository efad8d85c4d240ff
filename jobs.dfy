/**
  Job definitions and the pure part of the job-management routes: building a job
  from a create request, merging an update into it, toggling it, and the listing
  projection. A job is the JavaScript object the service stores in its registry,
  so it is modelled as its own properties; the update route may add any property
  to it, and this representation keeps them all.
 */
module Jobs {
  import opened JsValues

  type JobId = string
  type Job = Object

  datatype ApiError =
    | MissingFields    // 400 "Missing required fields: name, schedule, tickers, phoneNumbers"
    | InvalidSchedule  // 400 "Invalid cron schedule format"
    | NotFound         // 404 "Cron job not found"

  datatype Result<+T> = Ok(value: T) | Err(error: ApiError)

  const DefaultStrategy: Value := Str("Reversal")
  const DefaultConfidenceThreshold: Value := Num(0.7)
  const DefaultBuyAmount: Value := Num(1000.0)

  /** The properties a newly created job object has. */
  const CreatedKeys: set<string> :=
    {"id", "name", "schedule", "tickers", "strategy", "confidenceThreshold",
     "buyAmount", "phoneNumbers", "isActive", "createdAt", "lastExecuted"}

  /** The properties the job listing reports; `updatedAt` and any property added
      by an update are not among them. */
  const ListedKeys: set<string> := CreatedKeys

  /** The create route's first check: the four required fields are all truthy. */
  predicate HasRequiredFields(body: Object) {
    Truthy(Get(body, "name")) && Truthy(Get(body, "schedule"))
    && Truthy(Get(body, "tickers")) && Truthy(Get(body, "phoneNumbers"))
  }

  /** The create route: validation, then the job object it stores under `id`.
      `valid` is the cron-expression validator; `createdAt` is the ISO time string. */
  function NewJob(body: Object, id: JobId, createdAt: string, valid: Value -> bool): (r: Result<Job>)
    ensures r == Err(MissingFields) <==> !HasRequiredFields(body)
    ensures r == Err(InvalidSchedule) <==> HasRequiredFields(body) && !valid(Get(body, "schedule"))
    ensures r.Ok? <==> HasRequiredFields(body) && valid(Get(body, "schedule"))
    ensures r.Ok? ==> r.value.Keys == CreatedKeys
    ensures r.Ok? ==>
      && r.value["id"] == Str(id)
      && r.value["name"] == Get(body, "name")
      && r.value["schedule"] == Get(body, "schedule")
      && r.value["isActive"] == Bool(true)
      && r.value["createdAt"] == Str(createdAt)
      && r.value["lastExecuted"] == Null
    // scalars are wrapped into one-element lists, lists are kept as they are
    ensures r.Ok? ==>
      && r.value["tickers"].Arr? && r.value["phoneNumbers"].Arr?
      && (Get(body, "tickers").Arr? ==> r.value["tickers"] == Get(body, "tickers"))
      && (!Get(body, "tickers").Arr? ==> r.value["tickers"].items == [Get(body, "tickers")])
      && (Get(body, "phoneNumbers").Arr? ==> r.value["phoneNumbers"] == Get(body, "phoneNumbers"))
      && (!Get(body, "phoneNumbers").Arr? ==> r.value["phoneNumbers"].items == [Get(body, "phoneNumbers")])
    // the three optional fields take their defaults only when absent
    ensures r.Ok? ==>
      && r.value["strategy"] ==
           (if Get(body, "strategy") == Undefined then DefaultStrategy else body["strategy"])
      && r.value["confidenceThreshold"] ==
           (if Get(body, "confidenceThreshold") == Undefined then DefaultConfidenceThreshold
            else body["confidenceThreshold"])
      && r.value["buyAmount"] ==
           (if Get(body, "buyAmount") == Undefined then DefaultBuyAmount else body["buyAmount"])
  {
    var name := Get(body, "name");
    var schedule := Get(body, "schedule");
    var tickers := Get(body, "tickers");
    var strategy := Defaulted(Get(body, "strategy"), DefaultStrategy);
    var confidenceThreshold := Defaulted(Get(body, "confidenceThreshold"), DefaultConfidenceThreshold);
    var buyAmount := Defaulted(Get(body, "buyAmount"), DefaultBuyAmount);
    var phoneNumbers := Get(body, "phoneNumbers");
    if !Truthy(name) || !Truthy(schedule) || !Truthy(tickers) || !Truthy(phoneNumbers) then
      Err(MissingFields)
    else if !valid(schedule) then
      Err(InvalidSchedule)
    else
      Ok(map[
        "id" := Str(id),
        "name" := name,
        "schedule" := schedule,
        "tickers" := AsList(tickers),
        "strategy" := strategy,
        "confidenceThreshold" := confidenceThreshold,
        "buyAmount" := buyAmount,
        "phoneNumbers" := AsList(phoneNumbers),
        "isActive" := Bool(true),
        "createdAt" := Str(createdAt),
        "lastExecuted" := Null])
  }

  /** `Object.assign(job, updates, { updatedAt })`: every supplied property takes its
      supplied value, `updatedAt` is set last, everything else is kept. */
  function Merged(job: Job, updates: Object, updatedAt: string): (r: Job)
    ensures r.Keys == job.Keys + updates.Keys + {"updatedAt"}
    ensures r["updatedAt"] == Str(updatedAt)
    ensures forall k :: k in updates && k != "updatedAt" ==> r[k] == updates[k]
    ensures forall k :: k in job && k !in updates && k != "updatedAt" ==> r[k] == job[k]
  {
    job + updates + map["updatedAt" := Str(updatedAt)]
  }

  /** The update route on an existing job, as written: the merge runs before the
      schedule comparison, so the comparison sees the new schedule on both sides. */
  function UpdateJob(job: Job, updates: Object, updatedAt: string, valid: Value -> bool): (r: Result<Job>)
    // the invalid-schedule branch cannot be taken: every update succeeds with the merge
    ensures r == Ok(Merged(job, updates, updatedAt))
    // in particular a supplied schedule is stored as given, valid or not
    ensures "schedule" in updates ==> r.value["schedule"] == updates["schedule"]
  {
    var merged := Merged(job, updates, updatedAt);
    var schedule := Get(updates, "schedule");
    if Truthy(schedule) && schedule != Get(merged, "schedule") then
      if !valid(schedule) then Err(InvalidSchedule)
      else Ok(merged["schedule" := schedule])
    else
      Ok(merged)
  }

  /** Applying the same update twice is the same as applying it once, up to the
      `updatedAt` stamp, which the later call sets. */
  lemma MergeIdempotent(job: Job, updates: Object, first: string, second: string)
    ensures Merged(Merged(job, updates, first), updates, second) == Merged(job, updates, second)
  {
  }

  /** `job.isActive = !job.isActive; job.updatedAt = ...`. */
  function Toggled(job: Job, updatedAt: string): (r: Job)
    ensures r.Keys == job.Keys + {"isActive", "updatedAt"}
    ensures r["isActive"].Bool? && (Truthy(r["isActive"]) <==> !Truthy(Get(job, "isActive")))
    ensures r["updatedAt"] == Str(updatedAt)
    ensures forall k :: k in job && k != "isActive" && k != "updatedAt" ==> r[k] == job[k]
  {
    job["isActive" := Bool(!Truthy(Get(job, "isActive")))]["updatedAt" := Str(updatedAt)]
  }

  /** Toggling twice restores whether the job counts as active, and restores the
      flag itself when it is a boolean (as it is from creation until an update
      replaces it). */
  lemma ToggleTwice(job: Job, first: string, second: string)
    ensures Truthy(Toggled(Toggled(job, first), second)["isActive"]) <==> Truthy(Get(job, "isActive"))
    ensures Get(job, "isActive").Bool? ==>
      Toggled(Toggled(job, first), second)["isActive"] == job["isActive"]
  {
  }

  /** An update may store a non-boolean truthy `isActive`; toggling it twice then
      yields `true`, not the original value. */
  lemma ToggleTwiceNormalizes(job: Job, first: string, second: string)
    requires Truthy(Get(job, "isActive")) && !Get(job, "isActive").Bool?
    ensures Toggled(Toggled(job, first), second)["isActive"] == Bool(true)
    ensures Toggled(Toggled(job, first), second)["isActive"] != job["isActive"]
  {
  }

  /** The listing's projection of one job. Properties that are absent would be
      `undefined` and are dropped from the JSON response, so the projection is
      the restriction of the job to the listed properties. */
  function ListView(job: Job): (r: Object)
    ensures r.Keys == job.Keys * ListedKeys
    ensures forall k :: k in r ==> r[k] == job[k]
    ensures "updatedAt" !in r
  {
    map k | k in job && k in ListedKeys :: job[k]
  }

  /** `Array.from(cronJobs.values()).map(...)`, visiting the ids in `ids` order. */
  function Listing(ids: seq<JobId>, jobs: map<JobId, Job>): (r: seq<Object>)
    requires forall i :: 0 <= i < |ids| ==> ids[i] in jobs
    ensures |r| == |ids|
    ensures forall i :: 0 <= i < |ids| ==> r[i] == ListView(jobs[ids[i]])
  {
    if ids == [] then [] else [ListView(jobs[ids[0]])] + Listing(ids[1..], jobs)
  }

  /** An empty list of tickers is truthy, so it passes creation and is stored as given. */
  lemma EmptyTickerListAccepted(body: Object, id: JobId, createdAt: string, valid: Value -> bool)
    requires Get(body, "tickers") == Arr([])
    requires Truthy(Get(body, "name")) && Truthy(Get(body, "schedule")) && Truthy(Get(body, "phoneNumbers"))
    requires valid(Get(body, "schedule"))
    ensures NewJob(body, id, createdAt, valid).Ok?
    ensures NewJob(body, id, createdAt, valid).value["tickers"] == Arr([])
  {
  }
}
