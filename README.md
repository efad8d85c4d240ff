# Cron job registry and execution history (dhantra-cron-service)

This project models the core of the service in `src/index.js`. That core is the
in-memory registry of cron jobs (`cronJobs`), the execution history
(`jobHistory`), the function `executeCronJob`, and the route bodies that read
and change these two structures: create, update, delete, toggle, manual
execute, execution history, list and health.

The model is written in Dafny and laid out in five modules:

- `JsValues` (`js_values.dfy`): the JavaScript values the routes handle. These
  are request bodies, stored job objects, query parameters and the opaque
  response of the trading API. The module also states truthiness, `a || b`,
  property reads that may give `undefined`, destructuring defaults,
  `Array.isArray` wrapping and strict equality.
- `Jobs` (`jobs.dfy`): a job is the JavaScript object the registry stores, seen
  as a map from property name to value. The module holds the pure part of the
  create, update, toggle and list routes.
- `Dispatch` (`dispatch.dfy`): the request payload with its fallbacks, and the
  execution record that classifies the outcome of the call as SUCCESS or FAILED.
- `History` (`history.dfy`): the history query. It filters by job id, sorts
  newest first with a stable sort, and truncates with JavaScript `slice`
  semantics.
- `Service` (`service.dfy`): the class `CronService`. It holds the registry, its
  insertion order, the node-cron timers, the job objects that deleted jobs'
  timers still hold, and the history. It has one method per route body and one
  for a timer firing.

External pieces enter the model as values:

- `cron.validate` is the class constant `validSchedule`, a predicate the model
  does not look inside.
- `process.env.DHANTRA_API_KEY` is the class constant `apiKey`.
- The axios POST is a function `call` from payload to `Outcome`: either the
  response body or the message of the thrown error.
- Fresh uuids and clock readings are method arguments.

The model follows the code as written, also where its own comments promise
more ("If schedule changed, restart the job", src/index.js:268; "Stop and
remove the job", src/index.js:312):

- A timer firing does not check `isActive`.
- Toggling a job does not disarm its timer.
- Deleting a job does not stop its timer. The timer keeps firing with the
  deleted job's object and keeps appending records.
- Updating the schedule neither re-validates nor re-arms it. `Object.assign`
  runs before the comparison `updates.schedule !== job.schedule`, so the
  comparison is always false. The invalid-schedule branch can never be taken,
  and an invalid schedule is stored as given. `Jobs.UpdateJob` keeps this
  behaviour as written.

## Model

| member | source | states |
|---|---|---|
| JsValues.Truthy | src/index.js:176 | a value is truthy exactly when it is none of `undefined`, `null`, `false`, `0` and `""`; empty arrays and objects are truthy |
| JsValues.Get | src/index.js:165-173 | reading a property gives `undefined` exactly when it is absent or holds `undefined`, and otherwise the stored value |
| JsValues.StrictEquals | src/index.js:375 | `===` against a query parameter holds only between equal values, and never when the parameter is an array or object, which is a fresh reference |
| JsValues.Or | src/index.js:67-71 | `a \|\| b` is the first operand when it is truthy and the second otherwise; the result is truthy iff either operand is |
| JsValues.AsList | src/index.js:196 | `Array.isArray(v) ? v : [v]` always yields an array: the value itself if it is one, else the one-element list of it |
| Jobs.NewJob | src/index.js:165-204 | MissingFields iff one of name, schedule, tickers, phoneNumbers is falsy; InvalidSchedule iff they are all truthy and the schedule fails validation; otherwise a job with exactly the eleven created properties: the fresh id, `isActive` true, `lastExecuted` null, the creation time, the lists wrapped, and the three optional fields defaulted only when absent |
| Jobs.EmptyTickerListAccepted | src/index.js:176-196 | for every body whose `tickers` is an empty array, with the other required fields truthy and a valid schedule, creation succeeds and stores the empty array as given |
| Jobs.Merged | src/index.js:264-266 | after `Object.assign(job, updates, {updatedAt})` the keys are the union of both, every supplied property has its supplied value, `updatedAt` is the new time, and every other property is kept |
| Jobs.UpdateJob | src/index.js:261-280 | the update on an existing job always succeeds with the merge: the invalid-schedule branch cannot be taken, and a supplied schedule is stored as given |
| Jobs.MergeIdempotent | src/index.js:264-266 | applying the same update twice equals applying it once with the later time |
| Jobs.Toggled | src/index.js:344-345 | `isActive` becomes the boolean negation of the old truthiness, `updatedAt` is set, and every other property is kept |
| Jobs.ToggleTwice | src/index.js:344 | toggling twice restores whether the job is active, and restores the flag itself when it was a boolean |
| Jobs.ToggleTwiceNormalizes | src/index.js:344 | every non-boolean truthy flag (one an update can store) comes back from two toggles as `true`, which differs from the original value |
| Jobs.ListView | src/index.js:141-153 | the listing's projection is the job restricted to the eleven listed properties; `updatedAt` never appears |
| Jobs.Listing | src/index.js:141-153 | one projection per registered id, in iteration order |
| Dispatch.PayloadFor | src/index.js:66-73 | every payload field except the credential is truthy; a truthy job property is sent as it is, and a falsy one is replaced by `[ticker]`, `'Reversal'`, `0.7`, `1000.0` or `[phoneNumber]` |
| Dispatch.RecordOf | src/index.js:88-123 | the record is SUCCESS with the response body iff the call returned, FAILED with the error message iff it threw, never both; it takes its id from the execution and `jobId` and `jobName` from the job, and its elapsed time is finish minus start |
| Dispatch.CreatedJobPayload | src/index.js:66-73 | for a freshly created job the payload carries the requested strategy, threshold and amount when they are truthy and the defaults otherwise, and the job's wrapped lists |
| History.SortNewestFirst | src/index.js:379-380 | the sorted history is in non-increasing timestamp order and is a permutation of the input |
| History.SortStable | src/index.js:380 | the sort is stable: records with equal timestamps keep their relative order |
| History.SameArrangement | src/index.js:380 | two newest-first sequences with the same records in every group of equal timestamps are equal |
| History.SortIsTheStableSort | src/index.js:380 | every stable newest-first rearrangement of the history equals `SortNewestFirst` of it |
| History.ForJob | src/index.js:374-376 | the filter keeps exactly the records whose `jobId` is strictly equal to the parameter, each as often as it occurs in the history, and drops every other one |
| History.Selected | src/index.js:372-376 | the records the query considers: with a truthy `jobId` every matching record as often as it occurs, otherwise the whole history |
| History.SliceEnd | src/index.js:370-381 | the end index `slice(0, parseInt(limit))` uses: 50 when the parameter is absent, `min(n, len)` for a non-negative `n`, counted from the back for a negative `n`, and 0 for NaN |
| History.Newest | src/index.js:379-381 | the first `e` records of the sorted sequence are newest first, form a sub-multiset of the input, and no record left out is newer than one kept |
| History.HistoryPage | src/index.js:370-381 | the query returns as many records as `slice` keeps of the matching ones, a sub-multiset of the matching records, newest first, with no matching record left out newer than one returned; the page is a prefix of the stable sort of the matching records |
| History.LimitOneIsMostRecent | src/index.js:379-381 | with `limit=1` and at least one matching record, the answer is one record that is at least as recent as every matching record |
| Service.Without | src/index.js:313 | deleting an id from the insertion order removes exactly that id and keeps the ids distinct |
| Service.WithoutAt | src/index.js:313 | deleting the id at position `k` of the insertion order cuts out exactly that position and keeps every other id in its order |
| Service.WithoutCount | src/index.js:313 | deleting an id that is registered shortens the insertion order by one |
| Service.AppendFresh | src/index.js:215 | `cronJobs.set` with a fresh id appends it to the insertion order and keeps the ids distinct |
| Service.DistinctCount | src/index.js:135 | the registry has as many jobs as its insertion order has ids |
| Service.CronService.constructor | src/index.js:54-55 | the service starts with no jobs, no timers and an empty history |
| Service.CronService.Create | src/index.js:165-218 | the result is `NewJob` of the body; on success exactly one entry is added under the fresh id, with a timer armed with the body's schedule, and every other entry is kept; on an error nothing changes; the history never changes |
| Service.CronService.Register | src/index.js:207-218 | storing a job under a fresh id appends it to the insertion order and arms its timer, and keeps the registry invariant |
| Service.CronService.Update | src/index.js:252-280 | with an unknown id: NotFound and nothing changes; otherwise the stored job becomes the merge, the result is `UpdateJob` of the old job, and the timers, order and history are kept |
| Service.CronService.Delete | src/index.js:303-313 | with an unknown id: NotFound and nothing changes; otherwise exactly that id leaves the registry and the insertion order, which gets one shorter, its object stays with its running timer, and the history is kept |
| Service.CronService.Toggle | src/index.js:335-345 | with an unknown id: NotFound and nothing changes; otherwise the stored job becomes `Toggled` of it and every other job, the timers and the history are kept |
| Service.CronService.ExecuteCronJob | src/index.js:58-125 | the call is made with the job's payload, exactly one record is appended, and that record is the one returned |
| Service.CronService.ExecuteManually | src/index.js:394-404 | with an unknown id: NotFound and no record is appended; otherwise the stored job is dispatched whether or not it is active, and its record is appended and returned |
| Service.CronService.Stamp | src/index.js:207-208 | a timer firing sets `lastExecuted` on the object it holds: the registered job, or the deleted job's object |
| Service.CronService.Tick | src/index.js:207-209 | a timer firing stamps `lastExecuted` and then dispatches that object with no `isActive` check, appending exactly one record |
| Service.CronService.QueryHistory | src/index.js:370-381 | the answer is `HistoryPage` of the history; with a truthy `jobId` the history is unchanged, and without one the history itself is reordered into `SortNewestFirst` of it, a permutation of its old contents |
| Service.CronService.List | src/index.js:141-158 | the listing is the projection of every registered job in insertion order, and `total` is the number of registered jobs |
| Service.CronService.Health | src/index.js:135 | `activeJobs` is the size of the registry, inactive jobs included, which is also the length of the insertion order |

## Left out

- Express setup is not modelled: helmet, CORS, the rate limiter, the 404 and error middleware, `app.listen` and the signal handlers (src/index.js:11-51, 421-454). This is HTTP and process plumbing.
- winston logging is not modelled, because it has no effect on state.
- The axios POST, its URL, headers and 30-second timeout are not modelled. The call is the `call` parameter, and a timeout is one more way for it to throw.
- `cron.validate` is a foreign library, and its cron grammar is not modelled. A schedule that makes `cron.validate` or `cron.schedule` throw (the 500 responses) is not modelled either.
- The node-cron timer machinery is not modelled. Timer firings are the `Tick` method, called by whoever drives the model.
- Concurrency is not modelled: each operation runs to completion. In the source, `executeCronJob` reads `jobId` and `jobName` after the awaited call. An update that lands during the call can change them, and the model reads them before the call.
- The 500 catch paths of the routes are not modelled.
- Response bodies beyond their contents are not modelled. Create's 201 body is the stored job without `lastExecuted`; the toggle response holds only the id, name and flag. The model returns the stored job.
- Numbers are reals: NaN, the infinities and floating-point arithmetic are not modelled. The elapsed time is kept as a number of milliseconds, not as the string `"<n>ms"`.
- The string parsing of `parseInt` is not modelled. `Limit` takes its result (absent, an integer or NaN), and a repeated query parameter that arrives as an array is not modelled.
- JSON serialisation is not modelled, so for example `[undefined]` is not turned into `[null]`.
- Record timestamps are milliseconds, not ISO strings. At millisecond resolution the two orders agree.
- src/firebase-logging.js (telemetry) is not part of this model, and neither is src/test.js (an integration script).
- Object identity is not modelled: a `jobId` parameter that arrives as an array or object is a fresh reference, so it is equal to no stored id. The model states this rather than modelling references.
