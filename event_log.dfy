/** The system log: a newest-first list of events, capped at fifty. */
module EventLog {

  import opened Wrappers

  const MaxLogs: nat := 50

  /** The events the handlers log; the time stamp and wording of the log
      line are not modelled. */
  datatype LogEntry =
    | DeviceJoined(mac: string)
    | ForceKnockQueued(target: string)
    | KnockQueued(jobId: string)
    | KnockExecuted(worker: Option<string>)
    | Dispatched(jobId: string, mac: string)

  /** The log after `e` is put in front and, when that makes it longer than
      the cap, the oldest entry is dropped (once). */
  function Logged(logs: seq<LogEntry>, e: LogEntry): (r: seq<LogEntry>)
    ensures |r| == if |logs| < MaxLogs then |logs| + 1 else |logs|
    ensures |logs| <= MaxLogs ==> |r| <= MaxLogs
    ensures r[0] == e
    ensures forall k :: 1 <= k < |r| ==> r[k] == logs[k - 1]
  {
    var grown := [e] + logs;
    if |grown| > MaxLogs then grown[..|grown| - 1] else grown
  }
}
