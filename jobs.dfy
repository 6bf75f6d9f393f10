/** The pending queue and the job history: job records, the eligibility
    rule a polling device applies to queue entries, and the first-match
    scan. */
module Jobs {

  import opened Wrappers

  datatype Status = Queued | Assigned | Completed

  /** A history entry: the job's status and the device recorded against it
      (`None` until the job is assigned or confirmed). */
  datatype JobRecord = JobRecord(status: Status, worker: Option<string>)

  /** A queue entry: the job id and its optional target device. */
  datatype Job = Job(id: string, target: Option<string>)

  /** The answer to a status lookup: the stored entry, or "unknown". */
  datatype StatusReply = Known(record: JobRecord) | Unknown

  /** A device may take a job that names no target or names that device. */
  predicate Eligible(job: Job, mac: string)
  {
    job.target == None || job.target == Some(mac)
  }

  /** The index of the first entry of `q` that `mac` may take, if any. */
  function FirstEligible(q: seq<Job>, mac: string): (r: Option<nat>)
    ensures r.Some? ==> r.value < |q|
  {
    if q == [] then None
    else if Eligible(q[0], mac) then Some(0)
    else match FirstEligible(q[1..], mac)
      case None => None
      case Some(i) => Some(i + 1)
  }

  /** FirstEligible finds an eligible entry exactly when there is one, and
      every entry before the one it finds is ineligible. */
  lemma {:induction false} FirstEligibleIsFirst(q: seq<Job>, mac: string)
    ensures FirstEligible(q, mac).None? ==>
      forall k :: 0 <= k < |q| ==> !Eligible(q[k], mac)
    ensures FirstEligible(q, mac).Some? ==>
      var i := FirstEligible(q, mac).value;
      i < |q| && Eligible(q[i], mac) && forall k :: 0 <= k < i ==> !Eligible(q[k], mac)
  {
    if q != [] && !Eligible(q[0], mac) {
      FirstEligibleIsFirst(q[1..], mac);
      assert forall k :: 1 <= k < |q| ==> q[k] == q[1..][k - 1];
    }
  }

  /** The first-match scan over the pending queue: it walks the queue from
      the head and stops at the first entry the device may take. */
  method FindFirstEligible(q: seq<Job>, mac: string) returns (r: Option<nat>)
    ensures r == FirstEligible(q, mac)
    ensures r.None? ==> forall k :: 0 <= k < |q| ==> !Eligible(q[k], mac)
    ensures r.Some? ==>
      r.value < |q| && Eligible(q[r.value], mac) &&
      forall k :: 0 <= k < r.value ==> !Eligible(q[k], mac)
  {
    FirstEligibleIsFirst(q, mac);
    var i := 0;
    while i < |q|
      invariant 0 <= i <= |q|
      invariant forall k :: 0 <= k < i ==> !Eligible(q[k], mac)
    {
      if Eligible(q[i], mac) {
        return Some(i);
      }
      i := i + 1;
    }
    return None;
  }

  /** The queue with the entry at index `i` taken out; the other entries
      keep their order. */
  function RemoveAt(q: seq<Job>, i: nat): (r: seq<Job>)
    requires i < |q|
    ensures |r| == |q| - 1
    ensures forall k :: 0 <= k < i ==> r[k] == q[k]
    ensures forall k :: i <= k < |r| ==> r[k] == q[k + 1]
    ensures multiset(r) + multiset{q[i]} == multiset(q)
  {
    assert q == q[..i] + [q[i]] + q[i + 1..];
    q[..i] + q[i + 1..]
  }

  /** No id occurs twice in the queue. */
  ghost predicate DistinctIds(q: seq<Job>)
  {
    forall k, l :: 0 <= k < l < |q| ==> q[k].id != q[l].id
  }

  /** Taking one entry out keeps the ids distinct, and the id taken out no
      longer occurs. */
  lemma RemoveAtDistinct(q: seq<Job>, i: nat)
    requires i < |q| && DistinctIds(q)
    ensures DistinctIds(RemoveAt(q, i))
    ensures forall k :: 0 <= k < |RemoveAt(q, i)| ==> RemoveAt(q, i)[k].id != q[i].id
  {
    var r := RemoveAt(q, i);
    forall k, l | 0 <= k < l < |r| ensures r[k].id != r[l].id {
      var k' := if k < i then k else k + 1;
      var l' := if l < i then l else l + 1;
      assert r[k] == q[k'] && r[l] == q[l'] && k' < l';
    }
  }

  /** A job queued with the empty string as its target is skipped by every
      poll, since a poll always carries a non-empty device id. */
  lemma EmptyTargetUnclaimable(q: seq<Job>, mac: string)
    requires mac != ""
    ensures FirstEligible(q, mac).Some? ==> q[FirstEligible(q, mac).value].target != Some("")
  {
    FirstEligibleIsFirst(q, mac);
  }
}
