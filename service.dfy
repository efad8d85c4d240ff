/**
  The service's in-memory state and the bodies of its routes. `CronService`
  holds the job registry (`cronJobs`), the execution history (`jobHistory`), and
  what node-cron keeps for every job ever created: a timer bound to the schedule
  the job was created with. Timers are never stopped or re-armed: deleting a job
  leaves its object reachable from its timer (`detached`), toggling it does not
  disarm it, and updating its schedule does not re-arm it.

  External collaborators enter as values: the cron-expression validator and the
  API credential are fixed at construction, the HTTP call to the trading API is a
  function from payload to outcome, and fresh ids and clock readings are
  arguments.
 */
module Service {
  import opened JsValues
  import opened Jobs
  import opened Dispatch
  import opened History

  /** No id occurs twice. */
  predicate Distinct(ids: seq<JobId>) {
    ids == [] || (ids[0] !in ids[1..] && Distinct(ids[1..]))
  }

  /** The ids occurring in `ids`. */
  function Elems(ids: seq<JobId>): (r: set<JobId>)
    ensures forall x :: x in r <==> x in ids
  {
    if ids == [] then {} else {ids[0]} + Elems(ids[1..])
  }

  /** `ids` with `id` taken out: what a JavaScript `Map` iterates after `delete(id)`. */
  function Without(ids: seq<JobId>, id: JobId): (r: seq<JobId>)
    ensures Elems(r) == Elems(ids) - {id}
    ensures Distinct(ids) ==> Distinct(r)
    ensures id !in ids ==> r == ids
  {
    if ids == [] then []
    else if ids[0] == id then Without(ids[1..], id)
    else
      var rest := Without(ids[1..], id);
      assert ([ids[0]] + rest)[1..] == rest;
      [ids[0]] + rest
  }

  /** Deleting keeps the other ids in their insertion order: only the one occurrence
      of `id` is cut out. */
  lemma {:induction false} WithoutAt(ids: seq<JobId>, id: JobId, k: nat)
    requires Distinct(ids) && k < |ids| && ids[k] == id
    ensures Without(ids, id) == ids[..k] + ids[k + 1..]
    decreases k
  {
    if k == 0 {
      assert ids[1..] == ids[k + 1..];
    } else {
      var tail := ids[1..];
      assert tail[k - 1] == id;
      assert ids[0] != id;
      WithoutAt(tail, id, k - 1);
      assert tail[..k - 1] + tail[k..] == ids[1..k] + ids[k + 1..];
      assert ids[..k] + ids[k + 1..] == [ids[0]] + (ids[1..k] + ids[k + 1..]);
    }
  }

  /** Taking out an id that occurs once shortens the sequence by one. */
  lemma {:induction false} WithoutCount(ids: seq<JobId>, id: JobId)
    requires Distinct(ids) && id in ids
    ensures |Without(ids, id)| == |ids| - 1
    decreases |ids|
  {
    if ids[0] != id {
      WithoutCount(ids[1..], id);
    }
  }

  lemma {:induction false} AppendFresh(ids: seq<JobId>, id: JobId)
    requires Distinct(ids) && id !in ids
    ensures Distinct(ids + [id]) && Elems(ids + [id]) == Elems(ids) + {id}
    decreases |ids|
  {
    if ids != [] {
      AppendFresh(ids[1..], id);
      assert (ids + [id])[1..] == ids[1..] + [id];
    }
  }

  /** A sequence of distinct ids has as many elements as the set of them. */
  lemma {:induction false} DistinctCount(ids: seq<JobId>)
    requires Distinct(ids)
    ensures |Elems(ids)| == |ids|
    decreases |ids|
  {
    if ids != [] {
      DistinctCount(ids[1..]);
      assert Elems(ids) == {ids[0]} + Elems(ids[1..]);
    }
  }

  /** The registry invariant, on the key sets: `order` lists every registered id
      once, and every job ever created, registered or deleted, has exactly one
      timer. */
  ghost predicate Consistent(registered: set<JobId>, order: seq<JobId>, armed: set<JobId>,
                             deleted: set<JobId>)
  {
    && Distinct(order)
    && registered == Elems(order)
    && registered !! deleted
    && armed == registered + deleted
  }

  lemma DeleteKeepsConsistent(registered: set<JobId>, order: seq<JobId>, armed: set<JobId>,
                              deleted: set<JobId>, id: JobId)
    requires Consistent(registered, order, armed, deleted) && id in registered
    ensures Consistent(registered - {id}, Without(order, id), armed, deleted + {id})
  {
  }

  class CronService {
    /** `cron.validate`, as an opaque predicate on the schedule value. */
    const validSchedule: Value -> bool
    /** `process.env.DHANTRA_API_KEY`. */
    const apiKey: Value

    /** `cronJobs`: the registry, keyed by job id. */
    var jobs: map<JobId, Job>
    /** The insertion order of `cronJobs`, which its iteration follows. */
    var order: seq<JobId>
    /** For every job ever created, the schedule its node-cron timer was armed with. */
    var timers: map<JobId, Value>
    /** Objects of deleted jobs, still captured by their running timer. */
    var detached: map<JobId, Job>
    /** `jobHistory`. */
    var history: seq<ExecutionRecord>

    ghost predicate Valid()
      reads this
    {
      Consistent(jobs.Keys, order, timers.Keys, detached.Keys)
    }

    /** The state at start-up: no jobs, no timers, no history. */
    constructor (validSchedule: Value -> bool, apiKey: Value)
      ensures Valid()
      ensures this.validSchedule == validSchedule && this.apiKey == apiKey
      ensures jobs == map[] && order == [] && timers == map[] && detached == map[] && history == []
    {
      this.validSchedule := validSchedule;
      this.apiKey := apiKey;
      jobs, order, timers, detached, history := map[], [], map[], map[], [];
    }

    /** POST /api/cron-jobs. `id` is the fresh uuid, `createdAt` the ISO time. */
    method Create(body: Object, id: JobId, createdAt: string) returns (r: Result<Job>)
      requires Valid()
      requires id !in timers
      modifies this
      ensures Valid()
      ensures r == NewJob(body, id, createdAt, validSchedule)
      ensures r.Ok? ==>
        && jobs == old(jobs)[id := r.value]
        && order == old(order) + [id]
        && timers == old(timers)[id := body["schedule"]]
      ensures r.Err? ==> jobs == old(jobs) && order == old(order) && timers == old(timers)
      ensures detached == old(detached) && history == old(history)
    {
      r := NewJob(body, id, createdAt, validSchedule);
      if r.Ok? {
        Register(id, r.value, body["schedule"]);
      }
    }

    /** `cronJobs.set(id, job)` together with `cron.schedule(schedule, ...)`: the job
        is registered last in iteration order and gets its timer. */
    method Register(id: JobId, job: Job, schedule: Value)
      requires Valid()
      requires id !in timers
      modifies this
      ensures Valid()
      ensures jobs == old(jobs)[id := job] && order == old(order) + [id] && timers == old(timers)[id := schedule]
      ensures detached == old(detached) && history == old(history)
    {
      AppendFresh(order, id);
      timers := timers[id := schedule];
      jobs := jobs[id := job];
      order := order + [id];
    }

    /** PUT /api/cron-jobs/:id, as written: the stored job is merged with the update
        before the schedule comparison, which therefore never differs. */
    method Update(id: JobId, updates: Object, updatedAt: string) returns (r: Result<Job>)
      requires Valid()
      modifies this
      ensures Valid()
      ensures id !in old(jobs) ==> r == Err(NotFound) && jobs == old(jobs)
      ensures id in old(jobs) ==>
        && r == UpdateJob(old(jobs)[id], updates, updatedAt, validSchedule)
        && jobs == old(jobs)[id := Merged(old(jobs)[id], updates, updatedAt)]
      ensures order == old(order) && timers == old(timers)
      ensures detached == old(detached) && history == old(history)
    {
      if id !in jobs {
        return Err(NotFound);
      }
      // Object.assign has already changed the stored job when the schedule check runs
      var job := jobs[id];
      jobs := jobs[id := Merged(job, updates, updatedAt)];
      r := UpdateJob(job, updates, updatedAt, validSchedule);
    }

    /** DELETE /api/cron-jobs/:id: the job leaves the registry, its timer keeps
        running with the job object, and the history is kept. */
    method Delete(id: JobId) returns (r: Result<Job>)
      requires Valid()
      modifies this
      ensures Valid()
      ensures id !in old(jobs) ==>
        r == Err(NotFound) && jobs == old(jobs) && order == old(order) && detached == old(detached)
      ensures id in old(jobs) ==>
        && r == Ok(old(jobs)[id])
        && jobs == old(jobs) - {id}
        && order == Without(old(order), id)
        && |order| == |old(order)| - 1
        && detached == old(detached)[id := old(jobs)[id]]
      ensures timers == old(timers) && history == old(history)
    {
      if id in jobs {
        var job := jobs[id];
        DeleteKeepsConsistent(jobs.Keys, order, timers.Keys, detached.Keys, id);
        WithoutCount(order, id);
        assert (jobs - {id}).Keys == jobs.Keys - {id};
        assert detached[id := job].Keys == detached.Keys + {id};
        jobs, order, detached := jobs - {id}, Without(order, id), detached[id := job];
        r := Ok(job);
      } else {
        r := Err(NotFound);
      }
    }

    /** PATCH /api/cron-jobs/:id/toggle: the flag flips; the timer is not touched. */
    method Toggle(id: JobId, updatedAt: string) returns (r: Result<Job>)
      requires Valid()
      modifies this
      ensures Valid()
      ensures id !in old(jobs) ==> r == Err(NotFound) && jobs == old(jobs)
      ensures id in old(jobs) ==>
        r == Ok(Toggled(old(jobs)[id], updatedAt)) && jobs == old(jobs)[id := r.value]
      ensures order == old(order) && timers == old(timers)
      ensures detached == old(detached) && history == old(history)
    {
      if id !in jobs {
        return Err(NotFound);
      }
      var job := Toggled(jobs[id], updatedAt);
      jobs := jobs[id := job];
      r := Ok(job);
    }

    /** `executeCronJob(job)`: build the payload, make the call, append and return
        the one record classifying its outcome. It never fails. `start` and
        `finish` are the `Date.now()` readings around the call, `stamp` the
        completion time of the record. */
    method ExecuteCronJob(job: Job, call: Payload -> Outcome, executionId: string,
                          start: nat, finish: nat, stamp: nat)
      returns (rec: ExecutionRecord)
      modifies this`history
      ensures rec == RecordOf(job, executionId, call(PayloadFor(job, apiKey)), start, finish, stamp)
      ensures history == old(history) + [rec]
    {
      var payload := PayloadFor(job, apiKey);
      var outcome := call(payload);
      rec := RecordOf(job, executionId, outcome, start, finish, stamp);
      history := history + [rec];
    }

    /** POST /api/cron-jobs/:id/execute: dispatches the stored job whether or not it
        is active, and leaves the registry as it was. */
    method ExecuteManually(id: JobId, call: Payload -> Outcome, executionId: string,
                           start: nat, finish: nat, stamp: nat)
      returns (r: Result<ExecutionRecord>)
      requires Valid()
      modifies this`history
      ensures Valid()
      ensures id !in jobs ==> r == Err(NotFound) && history == old(history)
      ensures id in jobs ==>
        && r == Ok(RecordOf(jobs[id], executionId, call(PayloadFor(jobs[id], apiKey)), start, finish, stamp))
        && history == old(history) + [r.value]
    {
      if id !in jobs {
        return Err(NotFound);
      }
      var rec := ExecuteCronJob(jobs[id], call, executionId, start, finish, stamp);
      r := Ok(rec);
    }

    /** `job.lastExecuted = new Date().toISOString()` on the object the timer for
        `id` captured: the registered job, or the deleted one it still holds. */
    method Stamp(id: JobId, firedAt: string) returns (job: Job)
      requires Valid()
      requires id in timers
      modifies this
      ensures Valid()
      ensures job == (if id in old(jobs) then old(jobs)[id] else old(detached)[id])["lastExecuted" := Str(firedAt)]
      ensures id in old(jobs) ==> jobs == old(jobs)[id := job] && detached == old(detached)
      ensures id !in old(jobs) ==> jobs == old(jobs) && detached == old(detached)[id := job]
      ensures order == old(order) && timers == old(timers) && history == old(history)
    {
      if id in jobs {
        job := jobs[id]["lastExecuted" := Str(firedAt)];
        assert jobs[id := job].Keys == jobs.Keys;
        jobs := jobs[id := job];
      } else {
        job := detached[id]["lastExecuted" := Str(firedAt)];
        assert detached[id := job].Keys == detached.Keys;
        detached := detached[id := job];
      }
    }

    /** One firing of the timer armed for `id`: it stamps `lastExecuted` on the job
        object it captured, then dispatches that object. There is no `isActive`
        check, and the object fires whether or not it is still registered. */
    method Tick(id: JobId, firedAt: string, call: Payload -> Outcome, executionId: string,
                start: nat, finish: nat, stamp: nat)
      returns (rec: ExecutionRecord)
      requires Valid()
      requires id in timers
      modifies this
      ensures Valid()
      ensures var job := (if id in old(jobs) then old(jobs)[id] else old(detached)[id])
                           ["lastExecuted" := Str(firedAt)];
        && rec == RecordOf(job, executionId, call(PayloadFor(job, apiKey)), start, finish, stamp)
        && (id in old(jobs) ==> jobs == old(jobs)[id := job] && detached == old(detached))
        && (id !in old(jobs) ==> jobs == old(jobs) && detached == old(detached)[id := job])
      ensures history == old(history) + [rec]
      ensures order == old(order) && timers == old(timers)
    {
      var job := Stamp(id, firedAt);
      rec := ExecuteCronJob(job, call, executionId, start, finish, stamp);
    }

    /** GET /api/execution-history. Without a truthy `jobId` the sort runs on the
        history itself, which stays reordered newest first. */
    method QueryHistory(jobId: Value, limit: Limit) returns (page: seq<ExecutionRecord>)
      modifies this`history
      ensures page == HistoryPage(old(history), jobId, limit)
      ensures Truthy(jobId) ==> history == old(history)
      ensures !Truthy(jobId) ==> history == SortNewestFirst(old(history))
      ensures multiset(history) == multiset(old(history))
    {
      if Truthy(jobId) {
        var sorted := SortNewestFirst(ForJob(history, jobId));
        SameElements(sorted, ForJob(history, jobId));
        page := sorted[..SliceEnd(|sorted|, limit)];
      } else {
        history := SortNewestFirst(history);
        SameElements(history, old(history));
        page := history[..SliceEnd(|history|, limit)];
      }
    }

    /** GET /api/cron-jobs: the listing projection of every job, in insertion order. */
    method List() returns (views: seq<Object>, total: nat)
      requires Valid()
      ensures views == Listing(order, jobs)
      ensures total == |views| == |jobs| == |order|
    {
      views := Listing(order, jobs);
      total := |views|;
      DistinctCount(order);
    }

    /** `activeJobs` of GET /health: the size of the registry, inactive jobs included,
        which is the listing's total. */
    method Health() returns (activeJobs: nat)
      requires Valid()
      ensures activeJobs == |jobs| == |order|
    {
      activeJobs := |jobs|;
      DistinctCount(order);
    }
  }
}
