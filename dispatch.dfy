/** The dispatch server: the four in-memory stores and the request
    handlers that read and update them. Each handler runs as one atomic
    step; the request's arguments, the current time and (for a new job)
    the fresh job id are its parameters. */
module Dispatch {

  import opened Wrappers
  import opened Registry
  import opened Jobs
  import opened EventLog

  /** Reply to a queue request: `{"status": "queued", "job_id": …}`. */
  datatype QueueReply = QueuedJob(jobId: string)

  /** Reply to a poll: the `missing_id` error, a KNOCK command with the
      claimed job's id, or SLEEP. */
  datatype PollReply = MissingId | Knock(jobId: string) | Sleep

  /** Reply to a confirmation: always `{"status": "ok"}`. */
  datatype Ack = Ok

  /** What the admin page shows: every device with its derived status,
      and the log. */
  datatype AdminPage = AdminPage(devices: map<string, DeviceView>, logs: seq<LogEntry>)

  /** A Python value used as a condition: `None` and "" are false. */
  predicate Truthy(s: Option<string>)
  {
    s.Some? && s.value != ""
  }

  class KnockServer {
    var devices: map<string, Device>
    var knockQueue: seq<Job>
    var jobHistory: map<string, JobRecord>
    var systemLogs: seq<LogEntry>
    /** The ids of every job a poll has claimed so far. */
    ghost var claimed: set<string>

    /** Every queued id has a history entry (so the lookup after a claim
        never misses), no id is queued twice, no claimed id is queued again
        (so each job is claimed at most once), and the log is within its
        cap. */
    ghost predicate Valid()
      reads this
    {
      (forall k :: 0 <= k < |knockQueue| ==> knockQueue[k].id in jobHistory) &&
      DistinctIds(knockQueue) &&
      claimed <= jobHistory.Keys &&
      (forall k :: 0 <= k < |knockQueue| ==> knockQueue[k].id !in claimed) &&
      |systemLogs| <= MaxLogs
    }

    constructor ()
      ensures Valid()
      ensures devices == map[] && knockQueue == [] && jobHistory == map[] && systemLogs == []
      ensures claimed == {}
    {
      devices, knockQueue, jobHistory, systemLogs := map[], [], map[], [];
      claimed := {};
    }

    /** Puts `e` at the head of the log and drops the oldest entry when the
        log has grown past its cap. */
    method LogEvent(e: LogEntry)
      modifies this`systemLogs
      ensures systemLogs == Logged(old(systemLogs), e)
      ensures old(|systemLogs|) <= MaxLogs ==> |systemLogs| <= MaxLogs
      ensures systemLogs[0] == e
    {
      systemLogs := [e] + systemLogs;
      if |systemLogs| > MaxLogs {
        systemLogs := systemLogs[..|systemLogs| - 1];
      }
    }

    /** Records a new job as queued and appends it to the tail of the
        queue. */
    method QueueKnock(target: Option<string>, jobId: string) returns (reply: QueueReply)
      requires Valid()
      requires jobId !in jobHistory
      modifies this
      ensures Valid()
      ensures reply == QueuedJob(jobId)
      ensures knockQueue == old(knockQueue) + [Job(jobId, target)]
      ensures claimed == old(claimed)
      ensures jobHistory == old(jobHistory)[jobId := JobRecord(Queued, None)]
      ensures devices == old(devices)
      ensures systemLogs == Logged(old(systemLogs),
        if Truthy(target) then ForceKnockQueued(target.value) else KnockQueued(jobId))
    {
      jobHistory := jobHistory[jobId := JobRecord(Queued, None)];
      knockQueue := knockQueue + [Job(jobId, target)];
      if Truthy(target) {
        LogEvent(ForceKnockQueued(target.value));
      } else {
        LogEvent(KnockQueued(jobId));
      }
      return QueuedJob(jobId);
    }

    /** The stored history entry of a job, or "unknown". */
    function JobStatus(jobId: string): (reply: StatusReply)
      reads this
      ensures reply.Unknown? <==> jobId !in jobHistory
      ensures reply.Known? ==> reply.record == jobHistory[jobId]
    {
      if jobId in jobHistory then Known(jobHistory[jobId]) else Unknown
    }

    /** Marks a known job completed by the reporting device and bumps that
        device's counter when the device is known. An unknown job id
        changes nothing. The answer is always "ok". */
    method ConfirmKnock(jobId: Option<string>, mac: Option<string>) returns (ack: Ack)
      requires Valid()
      modifies this
      ensures Valid()
      ensures ack == Ok
      ensures claimed == old(claimed)
      ensures knockQueue == old(knockQueue)
      ensures jobHistory.Keys == old(jobHistory).Keys
      ensures devices.Keys == old(devices).Keys
      ensures jobId.None? || jobId.value !in old(jobHistory) ==>
        jobHistory == old(jobHistory) && devices == old(devices) && systemLogs == old(systemLogs)
      ensures jobId.Some? && jobId.value in old(jobHistory) ==>
        jobHistory == old(jobHistory)[jobId.value := JobRecord(Completed, mac)] &&
        systemLogs == Logged(old(systemLogs), KnockExecuted(mac))
      ensures jobId.Some? && jobId.value in old(jobHistory) && mac.Some? && mac.value in old(devices) ==>
        devices == old(devices)[mac.value := old(devices)[mac.value].(knocks := old(devices)[mac.value].knocks + 1)]
      ensures mac.None? || mac.value !in old(devices) ==> devices == old(devices)
    {
      if jobId.Some? && jobId.value in jobHistory {
        jobHistory := jobHistory[jobId.value := JobRecord(Completed, mac)];
        if mac.Some? && mac.value in devices {
          var d := devices[mac.value];
          devices := devices[mac.value := d.(knocks := d.knocks + 1)];
        }
        LogEvent(KnockExecuted(mac));
      }
      return Ok;
    }

    /** The heartbeat: registers the device (with no knocks, and a log
        entry) if it is new, and sets its last-seen time to `now`. */
    method Heartbeat(mac: string, now: int)
      requires |systemLogs| <= MaxLogs
      modifies this`devices, this`systemLogs
      ensures |systemLogs| <= MaxLogs
      ensures devices == old(devices)[mac :=
        Device(if mac in old(devices) then old(devices)[mac].knocks else 0, now)]
      ensures systemLogs ==
        if mac in old(devices) then old(systemLogs) else Logged(old(systemLogs), DeviceJoined(mac))
    {
      if mac !in devices {
        LogEvent(DeviceJoined(mac));
        devices := devices[mac := Device(0, now)];
      }
      devices := devices[mac := devices[mac].(lastSeen := now)];
    }

    /** The claim: takes the first queue entry `mac` may take out of the
        queue and records the job as assigned to `mac`. */
    method Claim(mac: string) returns (reply: PollReply)
      requires Valid()
      modifies this`knockQueue, this`jobHistory, this`systemLogs, this`claimed
      ensures Valid()
      ensures reply.Knock? || reply == Sleep
      ensures FirstEligible(old(knockQueue), mac).None? ==>
        reply == Sleep && knockQueue == old(knockQueue) &&
        jobHistory == old(jobHistory) && systemLogs == old(systemLogs)
      ensures FirstEligible(old(knockQueue), mac).Some? ==>
        var i := FirstEligible(old(knockQueue), mac).value;
        reply == Knock(old(knockQueue)[i].id) &&
        knockQueue == RemoveAt(old(knockQueue), i) &&
        jobHistory == old(jobHistory)[old(knockQueue)[i].id := JobRecord(Assigned, Some(mac))] &&
        systemLogs == Logged(old(systemLogs), Dispatched(old(knockQueue)[i].id, mac))
      ensures reply.Knock? ==> reply.jobId !in old(claimed) && claimed == old(claimed) + {reply.jobId}
      ensures !reply.Knock? ==> claimed == old(claimed)
      ensures reply.Knock? ==>
        reply.jobId in old(jobHistory) &&
        forall k :: 0 <= k < |knockQueue| ==> knockQueue[k].id != reply.jobId
    {
      var found := FindFirstEligible(knockQueue, mac);
      if found.None? {
        return Sleep;
      }
      var i := found.value;
      var job := knockQueue[i];
      RemoveAtDistinct(knockQueue, i);
      knockQueue := RemoveAt(knockQueue, i);
      jobHistory := jobHistory[job.id := JobRecord(Assigned, Some(mac))];
      claimed := claimed + {job.id};
      LogEvent(Dispatched(job.id, mac));
      return Knock(job.id);
    }

    /** The device's poll: its heartbeat followed by its claim. A missing
        or empty id is rejected and nothing changes. Otherwise the device
        is registered (with no knocks) if new, its last-seen time becomes
        `now`, and the first queue entry it may take is claimed: removed
        from the queue, recorded as assigned to the device, and answered
        with KNOCK. With no such entry the queue and history stay as they
        were and the answer is SLEEP. */
    method Poll(id: Option<string>, now: int) returns (reply: PollReply)
      requires Valid()
      modifies this
      ensures Valid()
      ensures !Truthy(id) ==>
        reply == MissingId && devices == old(devices) && knockQueue == old(knockQueue) &&
        jobHistory == old(jobHistory) && systemLogs == old(systemLogs)
      ensures Truthy(id) ==>
        devices == old(devices)[id.value :=
          Device(if id.value in old(devices) then old(devices)[id.value].knocks else 0, now)]
      ensures Truthy(id) ==> IsOnline(devices[id.value], now)
      ensures Truthy(id) && FirstEligible(old(knockQueue), id.value).None? ==>
        reply == Sleep && knockQueue == old(knockQueue) && jobHistory == old(jobHistory)
      ensures Truthy(id) && FirstEligible(old(knockQueue), id.value).Some? ==>
        var i := FirstEligible(old(knockQueue), id.value).value;
        reply == Knock(old(knockQueue)[i].id) &&
        knockQueue == RemoveAt(old(knockQueue), i) &&
        jobHistory == old(jobHistory)[old(knockQueue)[i].id := JobRecord(Assigned, Some(id.value))]
      ensures reply.Knock? ==> reply.jobId !in old(claimed) && claimed == old(claimed) + {reply.jobId}
      ensures !reply.Knock? ==> claimed == old(claimed)
      ensures reply.Knock? ==>
        reply.jobId in old(jobHistory) &&
        forall k :: 0 <= k < |knockQueue| ==> knockQueue[k].id != reply.jobId
      ensures jobHistory.Keys == old(jobHistory).Keys
      ensures Truthy(id) ==>
        var joined := if id.value in old(devices) then old(systemLogs)
                      else Logged(old(systemLogs), DeviceJoined(id.value));
        systemLogs == if reply.Knock? then Logged(joined, Dispatched(reply.jobId, id.value)) else joined
    {
      if !Truthy(id) {
        return MissingId;
      }
      Heartbeat(id.value, now);
      reply := Claim(id.value);
    }

    /** The index page's number of online devices. */
    ghost function OnlineCount(now: int): (n: nat)
      reads this
      ensures n == |OnlineDevices(devices, now)|
      ensures n <= |devices|
    {
      CountOnlineIsSize(devices, now);
      CountOnline(devices, now)
    }

    /** The admin page: every device with its age and online flag, and the
        log, newest first. */
    function Admin(now: int): (page: AdminPage)
      reads this
      ensures page.devices.Keys == devices.Keys
      ensures forall mac :: mac in page.devices ==>
        (page.devices[mac].isOnline <==> IsOnline(devices[mac], now))
      ensures page.logs == systemLogs
    {
      AdminPage(AdminView(devices, now), systemLogs)
    }
  }

  /** A client of the handlers' contracts: a job's run from queueing to
      confirmation, as its status lookups and the device's counter show
      it. */
  method EndToEndScenario(now: int) returns (server: KnockServer, claimed: PollReply)
    ensures claimed == Knock("abc123")
    ensures server.JobStatus("abc123") == Known(JobRecord(Completed, Some("workerA")))
    ensures "workerA" in server.devices && server.devices["workerA"].knocks == 1
    ensures server.JobStatus("never") == Unknown
  {
    server := new KnockServer();
    var q := server.QueueKnock(None, "abc123");
    assert q == QueuedJob("abc123");
    assert FirstEligible([Job("abc123", None)], "workerA") == Some(0);
    claimed := server.Poll(Some("workerA"), now);
    assert claimed == Knock("abc123");
    assert server.JobStatus("abc123") == Known(JobRecord(Assigned, Some("workerA")));
    var a := server.ConfirmKnock(Some("abc123"), Some("workerA"));
  }

  /** A job is claimed at most once: after a poll claims it, neither a new
      submission (which needs a fresh id) nor a confirmation puts it back in
      the queue, so the next poll, by any device, does not claim it again. */
  method ClaimOnceScenario(server: KnockServer, mac: Option<string>, now: int,
                           target: Option<string>, freshId: string,
                           jobId: Option<string>, reporter: Option<string>,
                           mac': Option<string>, now': int)
      returns (first: PollReply, second: PollReply)
    requires server.Valid()
    requires freshId !in server.jobHistory
    modifies server
    ensures server.Valid()
    ensures first.Knock? ==> second != Knock(first.jobId)
  {
    first := server.Poll(mac, now);
    var q := server.QueueKnock(target, freshId);
    var a := server.ConfirmKnock(jobId, reporter);
    second := server.Poll(mac', now');
  }

  /** Jobs are queued in the order they are submitted. */
  method QueueOrderScenario() returns (server: KnockServer)
    ensures server.Valid()
    ensures server.knockQueue == [Job("j1", None), Job("j2", Some("W2")), Job("j3", None)]
  {
    server := new KnockServer();
    var j1 := server.QueueKnock(None, "j1");
    var j2 := server.QueueKnock(Some("W2"), "j2");
    var j3 := server.QueueKnock(None, "j3");
  }

  /** First-match dispatch: a device takes the earliest job it may take. */
  method FirstMatchScenario(server: KnockServer, now: int)
    requires server.Valid()
    requires server.knockQueue == [Job("j1", None), Job("j2", Some("W2")), Job("j3", None)]
    modifies server
    ensures server.Valid() && server.knockQueue == [Job("j2", Some("W2")), Job("j3", None)]
  {
    assert FirstEligible(server.knockQueue, "W1") == Some(0);
    var p1 := server.Poll(Some("W1"), now);
    assert p1 == Knock("j1");
  }

  /** A device passes over a job targeted at another device and takes the
      next one it may take. */
  method SkipTargetedScenario(server: KnockServer, now: int)
    requires server.Valid()
    requires server.knockQueue == [Job("j2", Some("W2")), Job("j3", None)]
    modifies server
    ensures server.Valid() && server.knockQueue == [Job("j2", Some("W2"))]
  {
    ghost var q := server.knockQueue;
    assert !Eligible(q[0], "W1") && q[1..] == [Job("j3", None)];
    assert FirstEligible(q[1..], "W1") == Some(0);
    var p2 := server.Poll(Some("W1"), now);
    assert p2 == Knock("j3");
    assert |server.knockQueue| == 1 && server.knockQueue[0] == Job("j2", Some("W2"));
  }

  /** A targeted job waits for its target: other devices are told to
      sleep, the target takes it, and a poll without an id is rejected. */
  method TargetedJobScenario(server: KnockServer, now: int)
    requires server.Valid()
    requires server.knockQueue == [Job("j2", Some("W2"))]
    modifies server
    ensures server.Valid() && server.knockQueue == []
  {
    ghost var q := server.knockQueue;
    assert !Eligible(q[0], "W1") && q[1..] == [];
    assert FirstEligible(q, "W1") == None;
    var p3 := server.Poll(Some("W1"), now);
    assert p3 == Sleep;
    assert server.knockQueue == q;
    assert FirstEligible(q, "W2") == Some(0);
    var p4 := server.Poll(Some("W2"), now);
    assert p4 == Knock("j2");
    assert |server.knockQueue| == 0;
    var p5 := server.Poll(Some(""), now);
    assert p5 == MissingId;
  }
}
