/**
  The pure part of `executeCronJob`: the request payload sent to the trading API
  and the execution record that classifies the call's outcome. The HTTP call
  itself is external; its result enters as an `Outcome`.
 */
module Dispatch {
  import opened JsValues
  import opened Jobs

  /** The JSON body posted to the trading API. */
  datatype Payload = Payload(
    tickers: Value,
    strategy: Value,
    confidenceThreshold: Value,
    buyAmount: Value,
    phoneNumbers: Value,
    apiKey: Value)

  /** What the awaited POST produced: the response body, or the message of the
      error it threw (a non-2xx status, a timeout or a network failure). */
  datatype Outcome = Response(data: Value) | Thrown(message: string)

  datatype ExecStatus = SUCCESS | FAILED

  /** One entry of the execution history. `executionTimeMs` is the elapsed time the
      source renders as the string "<n>ms"; `timestamp` is the completion time in
      milliseconds, which the source stores as its ISO string. */
  datatype ExecutionRecord = ExecutionRecord(
    id: string,
    jobId: Value,
    jobName: Value,
    status: ExecStatus,
    executionTimeMs: int,
    timestamp: nat,
    response: Option<Value>,
    error: Option<string>)

  /** A record carries the response exactly when it succeeded and the error exactly
      when it failed. */
  predicate WellFormed(r: ExecutionRecord) {
    if r.status == SUCCESS then r.response.Some? && r.error.None?
    else r.response.None? && r.error.Some?
  }

  /** The payload built from the job object, each field falling back when falsy. */
  function PayloadFor(job: Job, apiKey: Value): (p: Payload)
    // every field but the credential is truthy, whatever the job holds
    ensures Truthy(p.tickers) && Truthy(p.strategy) && Truthy(p.confidenceThreshold)
    ensures Truthy(p.buyAmount) && Truthy(p.phoneNumbers)
    // a truthy job property is sent as it is
    ensures Truthy(Get(job, "tickers")) ==> p.tickers == job["tickers"]
    ensures Truthy(Get(job, "strategy")) ==> p.strategy == job["strategy"]
    ensures Truthy(Get(job, "confidenceThreshold")) ==> p.confidenceThreshold == job["confidenceThreshold"]
    ensures Truthy(Get(job, "buyAmount")) ==> p.buyAmount == job["buyAmount"]
    ensures Truthy(Get(job, "phoneNumbers")) ==> p.phoneNumbers == job["phoneNumbers"]
    // a falsy one is replaced: the lists by the singular legacy property, the rest by constants
    ensures !Truthy(Get(job, "tickers")) ==> p.tickers == Arr([Get(job, "ticker")])
    ensures !Truthy(Get(job, "strategy")) ==> p.strategy == DefaultStrategy
    ensures !Truthy(Get(job, "confidenceThreshold")) ==> p.confidenceThreshold == DefaultConfidenceThreshold
    ensures !Truthy(Get(job, "buyAmount")) ==> p.buyAmount == DefaultBuyAmount
    ensures !Truthy(Get(job, "phoneNumbers")) ==> p.phoneNumbers == Arr([Get(job, "phoneNumber")])
    ensures p.apiKey == apiKey
  {
    Payload(
      Or(Get(job, "tickers"), Arr([Get(job, "ticker")])),
      Or(Get(job, "strategy"), DefaultStrategy),
      Or(Get(job, "confidenceThreshold"), DefaultConfidenceThreshold),
      Or(Get(job, "buyAmount"), DefaultBuyAmount),
      Or(Get(job, "phoneNumbers"), Arr([Get(job, "phoneNumber")])),
      apiKey)
  }

  /** The record `executeCronJob` pushes and returns: SUCCESS with the response body
      when the call returned, FAILED with the error message when it threw. `start`
      and `finish` are the two `Date.now()` readings, `stamp` the completion time. */
  function RecordOf(job: Job, executionId: string, outcome: Outcome, start: nat, finish: nat, stamp: nat)
    : (r: ExecutionRecord)
    ensures WellFormed(r)
    ensures r.status == SUCCESS <==> outcome.Response?
    ensures outcome.Response? ==> r.response == Some(outcome.data)
    ensures outcome.Thrown? ==> r.error == Some(outcome.message)
    ensures r.id == executionId && r.jobId == Get(job, "id") && r.jobName == Get(job, "name")
    ensures r.executionTimeMs + start == finish && r.timestamp == stamp
  {
    match outcome
    case Response(data) =>
      ExecutionRecord(executionId, Get(job, "id"), Get(job, "name"), SUCCESS,
                      finish - start, stamp, Some(data), None)
    case Thrown(message) =>
      ExecutionRecord(executionId, Get(job, "id"), Get(job, "name"), FAILED,
                      finish - start, stamp, None, Some(message))
  }

  /** For a job as the create route stores it, the two default mechanisms compose:
      the payload carries the requested strategy when it is truthy and "Reversal"
      otherwise (an explicit `null` survives creation but not dispatch), and the
      lists it sends are the job's lists. */
  lemma CreatedJobPayload(body: Object, id: JobId, createdAt: string, valid: Value -> bool, apiKey: Value)
    requires NewJob(body, id, createdAt, valid).Ok?
    ensures var p := PayloadFor(NewJob(body, id, createdAt, valid).value, apiKey);
      && p.strategy == (if Truthy(Get(body, "strategy")) then body["strategy"] else DefaultStrategy)
      && p.confidenceThreshold ==
           (if Truthy(Get(body, "confidenceThreshold")) then body["confidenceThreshold"]
            else DefaultConfidenceThreshold)
      && p.buyAmount == (if Truthy(Get(body, "buyAmount")) then body["buyAmount"] else DefaultBuyAmount)
      && p.tickers == AsList(body["tickers"])
      && p.phoneNumbers == AsList(body["phoneNumbers"])
  {
  }
}
