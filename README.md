# knock-server dispatch core, in Dafny

This project models the in-memory job dispatcher of `knock-server/app.py`.
Remote devices poll the server on a timer. Callers queue "knock" jobs, either
for any device or for one named device. Each poll records the device's
heartbeat and hands it at most one job: the first queued job that names no
target or names that device. A device later confirms the job, which marks it
completed and adds one to the device's knock counter.

The server's four stores are the fields of the class `Dispatch.KnockServer`:

- `devices`: a map from device id to `Device(knocks, lastSeen)`;
- `knockQueue`: a sequence of `Job(id, target)`;
- `jobHistory`: a map from job id to `JobRecord(status, worker)`;
- `systemLogs`: a newest-first sequence of log events.

Each request handler that updates these fields is a method of the class
and runs as one atomic step: `QueueKnock`, `Poll` (made of `Heartbeat` then
`Claim`) and `ConfirmKnock`. The helper they call to write the log,
`log_event`, is the method `LogEvent`. The read-only pages are functions that read
the object: `JobStatus`, `OnlineCount` (the index page) and `Admin`. A
handler's request arguments, the current time and the new job id are
parameters. A request argument that may be missing is an `Option<string>`.

The ghost field `claimed` records the ids of every job a poll has claimed.
The object invariant `Valid()` says five things:

- every queued id has a history entry, so the history lookup after a claim
  never misses;
- no id is queued twice;
- every claimed id has a history entry;
- no claimed id is in the queue;
- the log holds at most 50 entries.

Every handler keeps this invariant, given that a new job id is fresh (not yet
in the history).

The first-match scan is the loop of `Jobs.FindFirstEligible`. It is proved
equal to the recursive reference `Jobs.FirstEligible`, whose lemma states the
ordering contract: the chosen entry is eligible and every entry before it is
not. `Poll`'s contract then says exactly what changes and what does not:

- the device record;
- the queue, which loses exactly the claimed index and keeps the rest in order;
- the claimed job's history entry;
- the log.

Each job is claimed at most once, over any sequence of handler calls. A
claiming `Poll` adds the claimed id to `claimed` and promises that the id was
not already there. The invariant keeps claimed ids out of the queue. New
jobs need fresh ids, and claimed ids stay in the history, so no claimed id
can be queued again. The client method `ClaimOnceScenario` uses these
contracts: after a claiming poll, a fresh submission, a confirmation and a
second poll, the second poll does not claim the same job.

The client methods `EndToEndScenario`, `ClaimOnceScenario`, `QueueOrderScenario`,
`FirstMatchScenario`, `SkipTargetedScenario` and `TargetedJobScenario` derive
concrete runs from the handler contracts alone:

- a job's life from queueing to confirmation;
- the first-match order for the queue `[any, for W2, any]`.

Behaviour of the code worth knowing:

- A job's status is not monotone. `confirm_knock` completes any known job,
  including one that is still queued, and a later poll then sets it back to
  `assigned`. The completing device also overwrites the recorded worker. The
  model states the code's behaviour and claims no monotonicity.
- A job queued with the empty string as its target is logged as an untargeted
  knock, because the string is falsy. But no poll ever matches it: a
  non-empty device id is never equal to "", and "" is not `None`. The lemma
  `Jobs.EmptyTargetUnclaimable` states this.

## Model

| member | source | states |
|---|---|---|
| `Registry.OnlineDevices` | knock-server/app.py:25 | the online set is exactly the stored devices with `now - last_seen < 10`, and it is no larger than the registry |
| `Registry.CountOnlineIsSize` | knock-server/app.py:25 | summing one per online device, taking the devices in any order, gives the number of online devices |
| `Registry.AdminView` | knock-server/app.py:33-37 | the admin table has one row per stored device, copies its knocks and last-seen time, and shows `seconds_ago = now - last_seen` and `is_online` exactly when the device is online |
| `Registry.AdminAgreesWithIndex` | knock-server/app.py:25-37 | the admin page flags exactly as many devices online as the index page counts |
| `Registry.LivenessBoundary` | knock-server/app.py:36 | a device is online if and only if `now < last_seen + 10`: online 5 and 9 seconds after its poll, offline at 10 and 15 seconds |
| `Jobs.FirstEligibleIsFirst` | knock-server/app.py:85-88 | the first-match search finds nothing only when no entry has target `None` or equal to the device; otherwise it finds an eligible entry, and every entry before it is ineligible |
| `Jobs.FindFirstEligible` | knock-server/app.py:85-88 | the head-to-tail scan returns the index of the first eligible entry, or nothing when none is eligible, and agrees with the reference search |
| `Jobs.RemoveAt` | knock-server/app.py:87 | `pop(i)` shortens the queue by one; entries before `i` stay, entries after it move up one place; the multiset loses exactly the popped entry |
| `Jobs.RemoveAtDistinct` | knock-server/app.py:87 | popping from a queue with distinct ids keeps the ids distinct, and the popped id no longer occurs |
| `Jobs.EmptyTargetUnclaimable` | knock-server/app.py:86 | no poll with a non-empty device id ever claims a job whose target is the empty string |
| `EventLog.Logged` | knock-server/app.py:14-17 | the new event is at index 0 and older entries move down one place; the length grows by one below the cap of 50 and otherwise stays; a log within the cap stays within it |
| `Dispatch.KnockServer.constructor` | knock-server/app.py:9-12 | the server starts with no devices, an empty queue, an empty history, an empty log and no claimed ids, and satisfies the invariant |
| `Dispatch.KnockServer.LogEvent` | knock-server/app.py:14-17 | the prepend-and-trim leaves the log as `Logged` describes, within the cap of 50 if it was within it, with the new event at index 0 |
| `Dispatch.KnockServer.QueueKnock` | knock-server/app.py:44-54 | a fresh job is appended to the queue's tail as `{id, target}` and recorded as `{queued, None}`; devices are unchanged; the log gets a force-knock event for a truthy target and a user-knock event otherwise; the set of claimed ids is unchanged; the invariant is kept |
| `Dispatch.KnockServer.JobStatus` | knock-server/app.py:56-58 | the lookup returns the stored history entry, and "unknown" exactly when the id is absent |
| `Dispatch.KnockServer.ConfirmKnock` | knock-server/app.py:60-70 | the queue never changes. For an unknown or missing job id nothing changes. For a known id the entry becomes `{completed, mac}`, one event is logged, and the knock counter rises by exactly one, and only when `mac` is a known device. The set of claimed ids is unchanged. The answer is always `ok` |
| `Dispatch.KnockServer.Heartbeat` | knock-server/app.py:77-81 | an unseen device is created with 0 knocks and logged as joined; an existing device keeps its knocks; `last_seen` becomes `now` in both cases; no other device changes |
| `Dispatch.KnockServer.Claim` | knock-server/app.py:84-94 | with an eligible entry, the first one is removed from the queue (others keep their order) and its history entry becomes `{assigned, mac}`; no other entry changes; the answer is KNOCK with its id, and that id, not claimed before, joins the claimed ids; otherwise queue, history, log and claimed ids are unchanged and the answer is SLEEP |
| `Dispatch.KnockServer.Poll` | knock-server/app.py:72-96 | a missing or empty id gives `missing_id` and changes nothing; otherwise the heartbeat is recorded, the device is online at `now`, and the claim behaves as in `Claim`; the claimed id was in the history, had not been claimed before, joins the claimed ids and is no longer queued; history keys never change; the invariant, which keeps every claimed id out of the queue, is kept |
| `Dispatch.KnockServer.OnlineCount` | knock-server/app.py:21-28 | the index page's count equals the number of devices that are online at `now`, and it is at most the number of devices |
| `Dispatch.KnockServer.Admin` | knock-server/app.py:30-40 | the admin page lists every stored device, flags it online exactly when it is online at `now`, and shows the log unchanged |
| `Dispatch.EndToEndScenario` | knock-server/app.py:44-70 | queueing a job, one poll by workerA and its confirmation give the reply KNOCK with that job's id; the job's status becomes `{completed, workerA}` and workerA's counter becomes 1; a never-issued id is "unknown" |
| `Dispatch.ClaimOnceScenario` | knock-server/app.py:84-94 | after a poll claims a job, a submission with a fresh id, any confirmation and a second poll by any device, that second poll does not claim the same job |
| `Dispatch.QueueOrderScenario` | knock-server/app.py:47-49 | three submissions leave the queue in submission order |
| `Dispatch.FirstMatchScenario` | knock-server/app.py:85-88 | on the queue `[any, for W2, any]` a poll from W1 takes the head job and leaves the rest in order |
| `Dispatch.SkipTargetedScenario` | knock-server/app.py:85-88 | a poll from W1 skips the job targeted at W2 and takes the next untargeted job |
| `Dispatch.TargetedJobScenario` | knock-server/app.py:72-96 | a job targeted at W2 sends W1 to sleep, is taken by W2, and a poll with an empty id is rejected |

## Left out

- HTTP plumbing is not modelled: routing, argument and JSON parsing, `jsonify`, the 400 status code, `render_template` and `app.run`. Handler inputs are parameters and outputs are datatypes.
- A JSON body that is absent, or an argument that is not a string, is not modelled; missing arguments are `None`.
- Clock: `time.time()` is a float. The model takes `now` as a whole number of seconds, so `int(now - last_seen)` on the admin page is plain subtraction.
- Log wording: `datetime.now()` and the log line's time stamp and text are cosmetic. A log entry is an event value that names its kind and arguments.
- Job ids: `uuid.uuid4()` is not modelled. `QueueKnock` takes the id as a parameter and requires it to be absent from the history. A colliding id is outside the model.
- Concurrency: the source has no lock. Each handler is one atomic step, so interleavings inside a handler are not modelled.
- The `status = 'online'` field a poll writes into the device record is not modelled. The admin page copies it into every device's row, offline devices included, but liveness never uses it; it comes from `last_seen`. `Registry.Device`, `Registry.DeviceView` and `Registry.AdminView` leave the field out.
- `Dispatch.KnockServer.OnlineCount` is a ghost function. It counts the devices by choosing them one at a time, so it does not fix the order in which `devices.values()` yields them.
- No claim is made that a job's status only moves forward, or that every queued job has status `queued`. The code guarantees neither (see above).
