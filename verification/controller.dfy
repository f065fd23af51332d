/** `AgentController` as a sequential state machine
    (src/platform/agent_controller.py:24-187). The worker pool is replaced by
    explicit steps: a worker finishing a job is a step of its own, and the
    lock-protected reads and writes of the job table become plain functions on
    the state. */
module Controller {
  import opened Common
  import opened Registry
  import opened Agents
  import opened InstanceCache
  import opened Dispatch
  import opened Sorting
  import opened Jobs

  /** The controller's mutable state: `_instances`, `_jobs`, and the log of
      every call made into agent code so far. */
  datatype Controller = Controller(cache: Cache, jobs: JobTable, log: seq<Call>)

  /** A freshly constructed controller. */
  const Initial: Controller := Controller(map[], [], [])

  /** What every reachable state satisfies: ids are unique, only registered
      names are cached, every job names a registered agent. */
  ghost predicate Valid(c: Controller) {
    && DistinctIds(c.jobs)
    && (forall n :: n in c.cache ==> IsRegistered(n))
    && (forall i :: 0 <= i < |c.jobs| ==> IsRegistered(c.jobs[i].job.agent))
  }

  /** The `KeyError`s the controller raises to its caller, with their texts. */
  datatype ControllerError = UnknownAgent(name: AgentName) | JobNotFound(jobId: JobId) {
    function Message(): (s: string)
      ensures UnknownAgent? ==> s == "Unknown agent '" + name + "'"
      ensures JobNotFound? ==> s == "Job '" + jobId + "' not found"
    {
      match this
      case UnknownAgent(n) => "Unknown agent '" + n + "'"
      case JobNotFound(id) => "Job '" + id + "' not found"
    }
  }

  // ---------------------------------------------------------------------
  // Registry listing
  // ---------------------------------------------------------------------

  datatype AgentInfo = AgentInfo(name: AgentName, description: string, supportsTokens: bool, warm: bool)

  /** `list_agents`: every registry entry in order, warm when its instance is cached. */
  function ListAgents(c: Controller): (r: seq<AgentInfo>)
    ensures |r| == |Descriptors|
    ensures forall i :: 0 <= i < |r| ==>
      r[i].name == Descriptors[i].name && r[i].description == Descriptors[i].description
    ensures forall i :: 0 <= i < |r| ==> (r[i].warm <==> r[i].name in c.cache)
    ensures forall i :: 0 <= i < |r| ==> (r[i].supportsTokens <==> r[i].name == "strategy")
    ensures forall n :: IsRegistered(n) <==> exists i :: 0 <= i < |r| && r[i].name == n
  {
    seq(|Descriptors|, i requires 0 <= i < |Descriptors| =>
      AgentInfo(Descriptors[i].name, Descriptors[i].description, Descriptors[i].supportsTokens, Descriptors[i].name in c.cache))
  }

  // ---------------------------------------------------------------------
  // Job management
  // ---------------------------------------------------------------------

  datatype Submission = Submission(after: Controller, reply: Result<JobId, ControllerError>)

  /** `submit_agent_run`. `id` stands for the fresh `uuid4()` and `now` for
      `utcnow()`; scheduling the routine records a pending handle and calls no
      agent code. */
  function Submit(c: Controller, name: AgentName, tokens: Option<seq<string>>, id: JobId, now: nat): (r: Submission)
    requires Find(c.jobs, id).None?
    // an unknown name is refused and nothing changes
    ensures !IsRegistered(name) <==> r.reply == Err(UnknownAgent(name))
    ensures !IsRegistered(name) ==> r.after == c
    // a known name gets exactly one new, pending record under `id`
    ensures IsRegistered(name) ==>
      && r.reply == Ok(id)
      && r.after.cache == c.cache && r.after.log == c.log
      && |r.after.jobs| == |c.jobs| + 1
      && r.after.jobs[..|c.jobs|] == c.jobs
      && Find(r.after.jobs, id) == Some(Job(name, now, Pending(tokens)))
      && forall other :: other != id ==> Find(r.after.jobs, other) == Find(c.jobs, other)
  {
    if !IsRegistered(name) then Submission(c, Err(UnknownAgent(name)))
    else
      var jobs := c.jobs + [Entry(id, Job(name, now, Pending(tokens)))];
      assert jobs[..|c.jobs|] == c.jobs;
      FindAppend(c.jobs, Entry(id, Job(name, now, Pending(tokens))));
      Submission(c.(jobs := jobs), Ok(id))
  }

  /** Looking up in a table that gained one entry at the end. */
  lemma {:induction false} FindAppend(t: JobTable, e: Entry)
    requires Find(t, e.id).None?
    ensures Find(t + [e], e.id) == Some(e.job)
    ensures forall other :: other != e.id ==> Find(t + [e], other) == Find(t, other)
  {
    if t != [] {
      assert (t + [e])[1..] == t[1..] + [e];
      FindAppend(t[1..], e);
    }
  }

  /** `get_job_status`: an unknown id is refused; a known one is resolved. */
  function GetJobStatus(c: Controller, id: JobId): (r: Result<JobStatus, ControllerError>)
    ensures Find(c.jobs, id).None? <==> r == Err(JobNotFound(id))
    ensures r.Ok? ==> r.value.jobId == id && r.value.agent == Find(c.jobs, id).value.agent
    ensures r.Ok? ==> r.value.submittedAt == Find(c.jobs, id).value.submittedAt
    ensures r.Ok? ==> (r.value.status == Running <==> Find(c.jobs, id).value.handle.Pending?)
    ensures r.Ok? && r.value.status == Running ==> r.value.result == None && r.value.error == None
    // a returned future: completed, with the returned payload
    ensures r.Ok? ==> (r.value.status == Completed <==>
      Find(c.jobs, id).value.handle.Done? && Find(c.jobs, id).value.handle.outcome.Returned?)
    ensures r.Ok? && r.value.status == Completed ==>
      r.value.result == Some(Find(c.jobs, id).value.handle.outcome.result) && r.value.error == None
    // a raised future: failed, with `str(exc)` and no result
    ensures r.Ok? ==> (r.value.status == Failed <==>
      Find(c.jobs, id).value.handle.Done? && Find(c.jobs, id).value.handle.outcome.Raised?)
    ensures r.Ok? && r.value.status == Failed ==>
      r.value.result == None && r.value.error == Some(Find(c.jobs, id).value.handle.outcome.error.Text())
  {
    match Find(c.jobs, id)
    case None => Err(JobNotFound(id))
    case Some(job) => Ok(Resolve(id, job))
  }

  /** The sort key of `list_jobs` and its order. */
  function SubmittedAt(s: JobStatus): nat { s.submittedAt }
  function AtLeast(a: nat, b: nat): bool { a >= b }

  /** `list_jobs`: every job's status, newest first, equal times in table order. */
  function ListJobs(c: Controller): (r: seq<JobStatus>)
    ensures |r| == |c.jobs|
    ensures multiset(r) == multiset(Snapshot(c.jobs))
    ensures forall i, j :: 0 <= i < j < |r| ==> r[i].submittedAt >= r[j].submittedAt
    ensures forall t :: KeyClass(r, SubmittedAt, t) == KeyClass(Snapshot(c.jobs), SubmittedAt, t)
  {
    var r := SortDesc(Snapshot(c.jobs), SubmittedAt, AtLeast);
    SortDescSorted(Snapshot(c.jobs), SubmittedAt, AtLeast);
    assert forall t :: KeyClass(r, SubmittedAt, t) == KeyClass(Snapshot(c.jobs), SubmittedAt, t) by {
      forall t { SortDescStable(Snapshot(c.jobs), SubmittedAt, AtLeast, t); }
    }
    r
  }

  // ---------------------------------------------------------------------
  // Job completion (the worker pool)
  // ---------------------------------------------------------------------

  /** The future of job `id` finishes with `outcome`: the one transition a
      handle makes, from pending to done. A job that is unknown or already
      done is left alone. */
  function Complete(c: Controller, id: JobId, outcome: Outcome): (r: Controller)
    ensures r.cache == c.cache && r.log == c.log
    ensures |r.jobs| == |c.jobs|
    ensures forall i :: 0 <= i < |c.jobs| ==> r.jobs[i].id == c.jobs[i].id
    ensures forall i :: 0 <= i < |c.jobs| ==>
      && r.jobs[i].job.agent == c.jobs[i].job.agent
      && r.jobs[i].job.submittedAt == c.jobs[i].job.submittedAt
    // only a pending handle changes, and only to done
    ensures forall i :: 0 <= i < |c.jobs| && r.jobs[i] != c.jobs[i] ==>
      c.jobs[i].job.handle.Pending? && r.jobs[i].job.handle == Done(outcome)
    ensures forall i :: 0 <= i < |c.jobs| && c.jobs[i].id != id ==> r.jobs[i] == c.jobs[i]
    ensures forall other :: other != id ==> Find(r.jobs, other) == Find(c.jobs, other)
    ensures Find(c.jobs, id).Some? && Find(c.jobs, id).value.handle.Pending? ==>
      Find(r.jobs, id) == Some(Find(c.jobs, id).value.(handle := Done(outcome)))
    ensures Find(c.jobs, id).None? || Find(c.jobs, id).value.handle.Done? ==> r == c
  {
    match Find(c.jobs, id)
    case Some(job) =>
      if job.handle.Pending? then
        c.(jobs := SetHandle(c.jobs, id, Done(outcome)))
      else c
    case None => c
  }

  /** A worker runs job `id`: `_execute_agent(name, tokens)` against the
      current cache and call log, then the handle completes with its outcome. */
  function RunJob(c: Controller, env: Env, id: JobId): (r: Controller)
    ensures Find(c.jobs, id).None? || Find(c.jobs, id).value.handle.Done? ==> r == c
    ensures Find(c.jobs, id).Some? && Find(c.jobs, id).value.handle.Pending? ==>
      var job := Find(c.jobs, id).value;
      var e := Execute(env, c.log, c.cache, job.agent, job.handle.tokens);
      && r.cache == e.cache
      && r.log == c.log + e.calls
      && r.jobs == Complete(c, id, e.outcome).jobs
      && Find(r.jobs, id) == Some(job.(handle := Done(e.outcome)))
    ensures forall other :: other != id ==> Find(r.jobs, other) == Find(c.jobs, other)
  {
    match Find(c.jobs, id)
    case Some(job) =>
      if job.handle.Pending? then
        var e := Execute(env, c.log, c.cache, job.agent, job.handle.tokens);
        Complete(c.(cache := e.cache, log := c.log + e.calls), id, e.outcome)
      else c
    case None => c
  }

  // ---------------------------------------------------------------------
  // The state machine
  // ---------------------------------------------------------------------

  /** The state-changing events: a submission, a worker finishing a job with
      some outcome, and a worker running a job against the collaborators. */
  datatype Step =
    | SubmitRun(name: AgentName, tokens: Option<seq<string>>, id: JobId, now: nat)
    | Finish(id: JobId, outcome: Outcome)
    | Work(env: Env, id: JobId)

  /** A submission needs a fresh id; every other step can always happen. */
  predicate Enabled(c: Controller, step: Step) {
    step.SubmitRun? ==> Find(c.jobs, step.id).None?
  }

  function Next(c: Controller, step: Step): Controller
    requires Enabled(c, step)
  {
    match step
    case SubmitRun(name, tokens, id, now) => Submit(c, name, tokens, id, now).after
    case Finish(id, outcome) => Complete(c, id, outcome)
    case Work(env, id) => RunJob(c, env, id)
  }

  // ---------------------------------------------------------------------
  // Properties of the state machine
  // ---------------------------------------------------------------------

  /** Every step keeps the invariant, starting from the initial state. */
  lemma InitialValid()
    ensures Valid(Initial)
  {
  }

  lemma StepPreservesValid(c: Controller, step: Step)
    requires Valid(c) && Enabled(c, step)
    ensures Valid(Next(c, step))
  {
    match step
    case SubmitRun(name, tokens, id, now) =>
      SubmitKeepsValid(c, name, tokens, id, now);
    case Finish(id, outcome) =>
      CompleteKeepsValid(c, id, outcome);
    case Work(env, id) =>
      RunJobKeepsValid(c, env, id);
  }

  lemma SubmitKeepsValid(c: Controller, name: AgentName, tokens: Option<seq<string>>, id: JobId, now: nat)
    requires Valid(c) && Find(c.jobs, id).None?
    ensures Valid(Submit(c, name, tokens, id, now).after)
  {
    var r := Submit(c, name, tokens, id, now).after;
    if IsRegistered(name) {
      assert r.jobs == c.jobs + [Entry(id, Job(name, now, Pending(tokens)))];
    }
  }

  lemma RunJobKeepsValid(c: Controller, env: Env, id: JobId)
    requires Valid(c)
    ensures Valid(RunJob(c, env, id))
  {
    match Find(c.jobs, id)
    case None =>
    case Some(job) =>
      if job.handle.Pending? {
        var i :| 0 <= i < |c.jobs| && c.jobs[i] == Entry(id, job);
        assert IsRegistered(job.agent);
        var e := Execute(env, c.log, c.cache, job.agent, job.handle.tokens);
        var mid := c.(cache := e.cache, log := c.log + e.calls);
        assert Valid(mid);
        CompleteKeepsValid(mid, id, e.outcome);
      }
  }

  lemma CompleteKeepsValid(c: Controller, id: JobId, outcome: Outcome)
    requires Valid(c)
    ensures Valid(Complete(c, id, outcome))
  {
    var r := Complete(c, id, outcome);
    assert forall i :: 0 <= i < |r.jobs| ==> r.jobs[i].job.agent == c.jobs[i].job.agent;
  }

  /** Submitting a registered agent is always accepted, whatever state other
      jobs are in (a failed job does not block later submissions), and the new
      job is immediately visible as running. */
  lemma SubmitThenStatus(c: Controller, name: AgentName, tokens: Option<seq<string>>, id: JobId, now: nat)
    requires Find(c.jobs, id).None? && IsRegistered(name)
    ensures var r := Submit(c, name, tokens, id, now);
      && r.reply == Ok(id)
      && GetJobStatus(r.after, id) == Ok(JobStatus(id, name, now, Running, None, None))
  {
  }

  /** A refused submission carries the text `Unknown agent '<name>'`. */
  lemma UnknownAgentText(c: Controller, name: AgentName, tokens: Option<seq<string>>, id: JobId, now: nat)
    requires Find(c.jobs, id).None? && !IsRegistered(name)
    ensures Submit(c, name, tokens, id, now).reply.Err?
    ensures Submit(c, name, tokens, id, now).reply.error.Message() == "Unknown agent '" + name + "'"
  {
  }

  /** A status query for an unknown id carries the text `Job '<id>' not found`. */
  lemma JobNotFoundText(c: Controller, id: JobId)
    requires Find(c.jobs, id).None?
    ensures GetJobStatus(c, id).Err?
    ensures GetJobStatus(c, id).error.Message() == "Job '" + id + "' not found"
  {
  }

  /** A submission for an unknown name creates no job: the job listing and
      every status answer are as before. */
  lemma UnknownSubmitInvisible(c: Controller, name: AgentName, tokens: Option<seq<string>>, id: JobId, now: nat)
    requires Find(c.jobs, id).None? && !IsRegistered(name)
    ensures var r := Submit(c, name, tokens, id, now);
      && |ListJobs(r.after)| == |ListJobs(c)|
      && GetJobStatus(r.after, id) == Err(JobNotFound(id))
  {
  }

  /** Status answers are monotonic: a known job stays known, its status only
      ever changes out of running, never back into it, and a terminal status
      (with its result and error) is the same in every later state. */
  lemma StatusMonotonic(c: Controller, step: Step, id: JobId)
    requires Enabled(c, step) && GetJobStatus(c, id).Ok?
    ensures var before := GetJobStatus(c, id).value;
      var after := GetJobStatus(Next(c, step), id);
      && after.Ok?
      && (before.status != Running ==> after.value == before)
      && (after.value != before ==> before.status == Running && after.value.status != Running)
  {
  }

  /** A worker running a pending job always leaves it completed or failed. */
  lemma WorkFinishesJob(c: Controller, env: Env, id: JobId)
    requires Find(c.jobs, id).Some? && Find(c.jobs, id).value.handle.Pending?
    ensures GetJobStatus(RunJob(c, env, id), id).Ok?
    ensures GetJobStatus(RunJob(c, env, id), id).value.status in {Completed, Failed}
  {
  }

  /** A worker running a pending job in a valid state never fails it with
      `AgentExecutionError`: every registered name has a routine, and the
      registry lookup rejects any other name before dispatch. */
  lemma NoDispatchGap(c: Controller, env: Env, id: JobId)
    requires Valid(c) && Find(c.jobs, id).Some? && Find(c.jobs, id).value.handle.Pending?
    ensures var h := Find(RunJob(c, env, id).jobs, id).value.handle;
      h.Done? && !(h.outcome.Raised? && h.outcome.error.AgentExecutionError?)
  {
    var job := Find(c.jobs, id).value;
    var e := Execute(env, c.log, c.cache, job.agent, job.handle.tokens);
    var mid := c.(cache := e.cache, log := c.log + e.calls);
    assert Find(mid.jobs, id) == Some(job);
    assert RunJob(c, env, id) == Complete(mid, id, e.outcome);
    assert Find(RunJob(c, env, id).jobs, id).value.handle == Done(e.outcome);
    assert !(e.outcome.Raised? && e.outcome.error.AgentExecutionError?);
  }

  /** Running a job warms its agent before dispatch: unless the factory
      raised, `list_agents` reports it warm afterwards, even when the strategy
      agent took its no-op path. */
  lemma WorkWarmsAgent(c: Controller, env: Env, id: JobId, k: nat)
    requires Valid(c) && Find(c.jobs, id).Some? && Find(c.jobs, id).value.handle.Pending?
    requires var name := Find(c.jobs, id).value.agent;
      name in c.cache || env.construct(c.log, name).Ok?
    requires k < |Descriptors| && Descriptors[k].name == Find(c.jobs, id).value.agent
    ensures ListAgents(RunJob(c, env, id))[k].warm
  {
    var job := Find(c.jobs, id).value;
    var i :| 0 <= i < |c.jobs| && c.jobs[i] == Entry(id, job);
    assert IsRegistered(job.agent);
  }

  // ---------------------------------------------------------------------
  // Properties of the job listing
  // ---------------------------------------------------------------------

  ghost predicate DistinctStatusIds(s: seq<JobStatus>) {
    forall i, j :: 0 <= i < j < |s| ==> s[i].jobId != s[j].jobId
  }

  lemma {:induction false} AtMostOnce(s: seq<JobStatus>, x: JobStatus)
    requires DistinctStatusIds(s)
    ensures multiset(s)[x] <= 1
  {
    if s != [] {
      assert s == [s[0]] + s[1..];
      assert DistinctStatusIds(s[1..]) by {
        forall i, j | 0 <= i < j < |s[1..]| ensures s[1..][i].jobId != s[1..][j].jobId {
          assert s[1..][i] == s[i + 1] && s[1..][j] == s[j + 1];
        }
      }
      AtMostOnce(s[1..], x);
      if x == s[0] {
        assert x !in s[1..];
      }
    }
  }

  lemma RepeatedTwice(s: seq<JobStatus>, i: nat, j: nat)
    requires i < j < |s| && s[i] == s[j]
    ensures multiset(s)[s[i]] >= 2
  {
    assert s == s[..j] + s[j..];
    assert s[i] in s[..j];
    assert s[j] in s[j..];
  }

  /** `list_jobs` returns exactly one status per job in the table, each the
      status `get_job_status` reports for that job. */
  lemma ListJobsOnePerJob(c: Controller)
    requires Valid(c)
    ensures var r := ListJobs(c);
      && (forall id :: Find(c.jobs, id).Some? ==> exists k :: 0 <= k < |r| && Ok(r[k]) == GetJobStatus(c, id))
      && (forall k :: 0 <= k < |r| ==> GetJobStatus(c, r[k].jobId) == Ok(r[k]))
      && DistinctStatusIds(r)
  {
    var r := ListJobs(c);
    var snap := Snapshot(c.jobs);
    forall id | Find(c.jobs, id).Some?
      ensures exists k :: 0 <= k < |r| && Ok(r[k]) == GetJobStatus(c, id)
    {
      var i :| 0 <= i < |c.jobs| && c.jobs[i] == Entry(id, Find(c.jobs, id).value);
      assert snap[i] in multiset(snap);
      assert snap[i] in r;
    }
    forall k | 0 <= k < |r| ensures GetJobStatus(c, r[k].jobId) == Ok(r[k]) {
      ListedIsCurrent(c, k);
    }
    assert DistinctStatusIds(snap);
    forall i, j | 0 <= i < j < |r| ensures r[i].jobId != r[j].jobId {
      if r[i].jobId == r[j].jobId {
        assert GetJobStatus(c, r[i].jobId) == Ok(r[i]);
        assert GetJobStatus(c, r[j].jobId) == Ok(r[j]);
        RepeatedTwice(r, i, j);
        AtMostOnce(snap, r[i]);
        assert false;
      }
    }
  }

  /** Each listed status is what `get_job_status` reports for its id. */
  lemma ListedIsCurrent(c: Controller, k: nat)
    requires Valid(c) && k < |ListJobs(c)|
    ensures GetJobStatus(c, ListJobs(c)[k].jobId) == Ok(ListJobs(c)[k])
  {
    var r, snap := ListJobs(c), Snapshot(c.jobs);
    assert r[k] in multiset(r);
    assert r[k] in snap;
    var i :| 0 <= i < |snap| && snap[i] == r[k];
    FindUnique(c.jobs, i);
  }

  /** In a list ordered newest first, a strictly later status comes first. */
  lemma LaterBeforeEarlier(r: seq<JobStatus>, i: nat, j: nat)
    requires forall a, b :: 0 <= a < b < |r| ==> r[a].submittedAt >= r[b].submittedAt
    requires i < |r| && j < |r| && r[i].submittedAt > r[j].submittedAt
    ensures i < j
  {
  }

  /** Of two jobs, the one submitted later is listed first. */
  lemma NewerListedFirst(c: Controller, older: JobId, newer: JobId)
    requires Valid(c) && Find(c.jobs, older).Some? && Find(c.jobs, newer).Some?
    requires Find(c.jobs, older).value.submittedAt < Find(c.jobs, newer).value.submittedAt
    ensures var r := ListJobs(c);
      forall i, j :: 0 <= i < |r| && 0 <= j < |r| && r[i].jobId == newer && r[j].jobId == older ==> i < j
  {
    var r := ListJobs(c);
    forall i, j | 0 <= i < |r| && 0 <= j < |r| && r[i].jobId == newer && r[j].jobId == older
      ensures i < j
    {
      ListedIsCurrent(c, i);
      ListedIsCurrent(c, j);
      LaterBeforeEarlier(r, i, j);
    }
  }

  // ---------------------------------------------------------------------
  // End-to-end scenarios
  // ---------------------------------------------------------------------

  /** Submitting `sentiment` on a fresh controller: the job is running at
      once; after the worker runs it (the factory and `run()` both return) it
      is completed with the sentiment message and the agent is warm. */
  lemma SentimentScenario(env: Env, now: nat)
    requires env.construct([], "sentiment").Ok?
    requires env.run([Construct("sentiment")], env.construct([], "sentiment").value) == Finished
    ensures var s := Submit(Initial, "sentiment", None, "j1", now);
      && s.reply == Ok("j1")
      && GetJobStatus(s.after, "j1").value.status == Running
      && GetJobStatus(RunJob(s.after, env, "j1"), "j1") ==
           Ok(JobStatus("j1", "sentiment", now, Completed, Some(Payload("Sentiment scan complete", None)), None))
      && ListAgents(RunJob(s.after, env, "j1"))[4].warm
  {
    assert IsRegistered("sentiment") by { RegisteredNames("sentiment"); }
    var s := Submit(Initial, "sentiment", None, "j1", now);
    assert s.after.jobs == [Entry("j1", Job("sentiment", now, Pending(None)))];
    var inst := env.construct([], "sentiment").value;
    var got := GetOrCreate(env, [], map[], "sentiment");
    assert got == Lookup(map["sentiment" := inst], [Construct("sentiment")], Ok(inst));
    assert [] + got.calls == [Construct("sentiment")];
    assert PlainMessage("sentiment") == Some("Sentiment scan complete");
    var run := Route(env, [] + got.calls, inst, "sentiment", None);
    assert run == PlainRun(Finished, Run(inst), "Sentiment scan complete");
    var e := Execute(env, [], map[], "sentiment", None);
    assert e.calls == [Construct("sentiment"), Run(env.construct([], "sentiment").value)];
    assert e.outcome == Returned(Payload("Sentiment scan complete", None));
  }

  /** A job whose agent raises "boom" fails with exactly that error, and the
      controller still accepts the next submission. */
  lemma FailureStaysLocal(c: Controller, env: Env, id: JobId, next: JobId, now: nat)
    requires id != next && Find(c.jobs, next).None?
    requires Find(c.jobs, id) == Some(Job("trading", now, Pending(None)))
    requires "trading" in c.cache && env.run(c.log, c.cache["trading"]) == Threw("boom")
    ensures GetJobStatus(RunJob(c, env, id), id) == Ok(JobStatus(id, "trading", now, Failed, None, Some("boom")))
    ensures Submit(RunJob(c, env, id), "risk", None, next, now).reply == Ok(next)
  {
    FailureRecorded(c, env, id, now);
    RegisteredNames("risk");
  }

  /** The failing trading job of `FailureStaysLocal` reports the agent's message. */
  lemma FailureRecorded(c: Controller, env: Env, id: JobId, now: nat)
    requires Find(c.jobs, id) == Some(Job("trading", now, Pending(None)))
    requires "trading" in c.cache && env.run(c.log, c.cache["trading"]) == Threw("boom")
    ensures GetJobStatus(RunJob(c, env, id), id) == Ok(JobStatus(id, "trading", now, Failed, None, Some("boom")))
  {
    TradingRaises(c, env);
    StatusOfFailure(RunJob(c, env, id), id, "trading", now, "boom");
  }

  /** A job whose agent raised `message` reports it as its error. */
  lemma StatusOfFailure(c: Controller, id: JobId, agent: AgentName, at: nat, message: string)
    requires Find(c.jobs, id) == Some(Job(agent, at, Done(Raised(AgentFailure(message)))))
    ensures GetJobStatus(c, id) == Ok(JobStatus(id, agent, at, Failed, None, Some(message)))
  {
  }

  /** A warm trading agent whose `run()` raises "boom" makes the execution
      raise exactly that, with one call and no change to the cache. */
  lemma TradingRaises(c: Controller, env: Env)
    requires "trading" in c.cache && env.run(c.log, c.cache["trading"]) == Threw("boom")
    ensures Execute(env, c.log, c.cache, "trading", None)
      == Execution(c.cache, [Run(c.cache["trading"])], Raised(AgentFailure("boom")))
  {
    var inst := c.cache["trading"];
    assert GetOrCreate(env, c.log, c.cache, "trading") == Lookup(c.cache, [], Ok(inst));
    assert c.log + [] == c.log;
    assert PlainMessage("trading") == Some("Trading cycle complete");
    assert Route(env, c.log, inst, "trading", None) == PlainRun(Threw("boom"), Run(inst), "Trading cycle complete");
  }

}
