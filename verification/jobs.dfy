/** The job table and the status resolver (src/platform/agent_controller.py:87-128).
    A job's future becomes a handle that is pending until a worker finishes it. */
module Jobs {
  import opened Common
  import opened Registry
  import opened Dispatch

  type JobId = string

  /** A pending handle remembers the token list its routine will run with. */
  datatype Handle = Pending(tokens: Option<seq<string>>) | Done(outcome: Outcome)

  /** `submittedAt` is the `utcnow()` reading, in microseconds. */
  datatype Job = Job(agent: AgentName, submittedAt: nat, handle: Handle)

  datatype Entry = Entry(id: JobId, job: Job)

  /** The `_jobs` dict: entries in insertion order. */
  type JobTable = seq<Entry>

  ghost predicate DistinctIds(t: JobTable) {
    forall i, j :: 0 <= i < j < |t| ==> t[i].id != t[j].id
  }

  /** `self._jobs.get(job_id)`. */
  function Find(t: JobTable, id: JobId): (r: Option<Job>)
    ensures r.None? <==> forall i :: 0 <= i < |t| ==> t[i].id != id
    ensures r.Some? ==> exists i :: 0 <= i < |t| && t[i] == Entry(id, r.value)
  {
    if t == [] then None
    else if t[0].id == id then Some(t[0].job)
    else
      var r := Find(t[1..], id);
      assert forall i :: 1 <= i < |t| ==> t[i] == t[1..][i - 1];
      r
  }

  /** With distinct ids the entry found is the one entry holding the id. */
  lemma FindUnique(t: JobTable, i: nat)
    requires DistinctIds(t) && i < |t|
    ensures Find(t, t[i].id) == Some(t[i].job)
  {
  }

  /** Replaces the handle of job `id` (the entry `Find` sees); every other
      entry and the order stay. */
  function SetHandle(t: JobTable, id: JobId, h: Handle): (r: JobTable)
    ensures |r| == |t|
    ensures forall i :: 0 <= i < |t| ==> r[i].id == t[i].id
    ensures forall i :: 0 <= i < |t| && r[i] != t[i] ==>
      && t[i].id == id && Find(t, id) == Some(t[i].job)
      && r[i].job == Job(t[i].job.agent, t[i].job.submittedAt, h)
    ensures Find(t, id).Some? ==> Find(r, id) == Some(Find(t, id).value.(handle := h))
    ensures Find(t, id).None? ==> r == t
    ensures forall other :: other != id ==> Find(r, other) == Find(t, other)
  {
    if t == [] then []
    else if t[0].id == id then [Entry(id, t[0].job.(handle := h))] + t[1..]
    else
      var rest := SetHandle(t[1..], id, h);
      EntriesPastHead(t, id, h, rest);
      FindsPastHead(t, id, h, rest);
      [t[0]] + rest
  }

  /** What `SetHandle` promises entry by entry about `r`. */
  ghost predicate EntriesSet(t: JobTable, id: JobId, h: Handle, r: JobTable) {
    && |r| == |t|
    && (forall i :: 0 <= i < |t| ==> r[i].id == t[i].id)
    && (forall i :: 0 <= i < |t| && r[i] != t[i] ==>
          && t[i].id == id && Find(t, id) == Some(t[i].job)
          && r[i].job == Job(t[i].job.agent, t[i].job.submittedAt, h))
  }

  /** What `SetHandle` promises about lookups in `r`. */
  ghost predicate FindsSet(t: JobTable, id: JobId, h: Handle, r: JobTable) {
    && (Find(t, id).Some? ==> Find(r, id) == Some(Find(t, id).value.(handle := h)))
    && (Find(t, id).None? ==> r == t)
    && (forall other :: other != id ==> Find(r, other) == Find(t, other))
  }

  /** Keeping a head entry of another id in front of a correct update of the
      rest keeps every entry correct. */
  lemma EntriesPastHead(t: JobTable, id: JobId, h: Handle, rest: JobTable)
    requires t != [] && t[0].id != id && EntriesSet(t[1..], id, h, rest)
    ensures EntriesSet(t, id, h, [t[0]] + rest)
  {
    var r := [t[0]] + rest;
    assert forall i :: 1 <= i < |t| ==> t[i] == t[1..][i - 1] && r[i] == rest[i - 1];
    assert Find(t, id) == Find(t[1..], id);
  }

  /** Keeping a head entry of another id in front of a correct update of the
      rest keeps every lookup correct. */
  lemma FindsPastHead(t: JobTable, id: JobId, h: Handle, rest: JobTable)
    requires t != [] && t[0].id != id && FindsSet(t[1..], id, h, rest)
    ensures FindsSet(t, id, h, [t[0]] + rest)
  {
    assert t == [t[0]] + t[1..];
    FindCons(t[0], t[1..]);
    FindCons(t[0], rest);
  }

  /** Looking up in a table with a known first entry. */
  lemma FindCons(e: Entry, t: JobTable)
    ensures forall id :: Find([e] + t, id) == if e.id == id then Some(e.job) else Find(t, id)
  {
    assert ([e] + t)[1..] == t;
  }

  datatype RunState = Running | Completed | Failed

  /** The dict `get_job_status` returns (`submitted_at` kept as the timestamp;
      its ISO rendering is in module IsoTime). */
  datatype JobStatus = JobStatus(
    jobId: JobId, agent: AgentName, submittedAt: nat,
    status: RunState, result: Option<Payload>, error: Option<string>)

  /** Renders a job's handle without waiting: running while pending, then the
      returned payload or the text of the raised exception. */
  function Resolve(id: JobId, job: Job): (s: JobStatus)
    ensures s.jobId == id && s.agent == job.agent && s.submittedAt == job.submittedAt
    ensures s.status == Running <==> job.handle.Pending?
    ensures s.status == Running ==> s.result == None && s.error == None
    ensures s.status == Completed <==> job.handle.Done? && job.handle.outcome.Returned?
    ensures s.status == Completed ==> s.result == Some(job.handle.outcome.result) && s.error == None
    ensures s.status == Failed <==> job.handle.Done? && job.handle.outcome.Raised?
    ensures s.status == Failed ==> s.result == None && s.error == Some(job.handle.outcome.error.Text())
  {
    match job.handle
    case Pending(_) => JobStatus(id, job.agent, job.submittedAt, Running, None, None)
    case Done(Returned(p)) => JobStatus(id, job.agent, job.submittedAt, Completed, Some(p), None)
    case Done(Raised(e)) => JobStatus(id, job.agent, job.submittedAt, Failed, None, Some(e.Text()))
  }

  /** One status per entry, in table order: what `list_jobs` resolves before sorting. */
  function Snapshot(t: JobTable): (r: seq<JobStatus>)
    ensures |r| == |t|
    ensures forall i :: 0 <= i < |t| ==> r[i] == Resolve(t[i].id, t[i].job)
  {
    seq(|t|, i requires 0 <= i < |t| => Resolve(t[i].id, t[i].job))
  }
}
