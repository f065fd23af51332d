# AgentController, modelled in Dafny

This project models the agent controller of the web control plane
(`src/platform/agent_controller.py`). The controller keeps a static registry of
five agents, a lazy per-name instance cache and a job table. It runs agents on a
worker pool and answers status queries without waiting for them.

The model is a sequential state machine over immutable values:

- `Controller.Controller` holds the instance cache, the job table and a log of
  every call the controller made into agent code. The job table is a sequence of
  entries in insertion order, so it behaves like the Python dict.
- A job's future becomes a `Jobs.Handle`. It is `Pending` until a worker
  finishes it, then `Done(Returned(payload))` or `Done(Raised(exception))`. A
  pending handle keeps the token list that its routine will run with.
- The worker pool is replaced by explicit steps (`Controller.Step`):
  - `Complete` is the one allowed transition, from pending to done.
  - `RunJob` runs `_execute_agent` for a pending job against the current cache
    and then completes the handle.
- The agent classes and `MONITORED_TOKENS` are foreign code. They are the
  `Agents.Env` parameter: factories, `run`, `run_analysis_cycle`, `get_signals`
  and the configured token list. Every answer may depend on the whole history
  of earlier calls, so an agent object may keep internal state.
- `uuid4()` becomes a caller-supplied job id that is not yet in the table.
  `utcnow()` becomes a natural-number timestamp in microseconds.

Modules: `Common` (Option/Result, the text of a `KeyError`), `Text` (decimal
rendering and string order), `Registry`, `Agents`, `InstanceCache`, `Dispatch`
(`_execute_agent` and `_run_strategy_agent`), `Sorting` (Python's stable
`sorted(..., reverse=True)`), `Jobs`, `Controller`, `IsoTime` (the listing as
written, see Findings) and `RunRequest` (token cleanup in `app.py`).

A few facts about the code shape the model:

- A cold name that the registry lacks fails at the registry lookup
  (`self._registry[name]`, line 146) with a `KeyError` whose text is the quoted
  name, before any factory runs. No submitted job reaches that path, because
  `submit_agent_run` checks the name first (lines 84-85).
- The `AgentExecutionError` at line 168 is unreachable from a worker: every
  registered name has a branch at lines 153-166. `Controller.NoDispatchGap`
  proves that a worker running a pending job in a valid state never fails it
  with that error.
- `sorted` at line 136 is stable, so jobs with equal sort keys keep table
  order. `Controller.ListJobs` states this for every timestamp.
- The docstring at line 131 promises newest first. The sort key at line 136 is
  the rendered ISO text, which gets this wrong within one second (see
  Findings). The rest of the model sorts on the timestamp itself.
- The check-then-insert at lines 142-148 holds no lock, so two workers can
  both construct the same agent. A sequential model cannot express that race;
  it is listed under Left out.

## Model

| member | source | states |
|---|---|---|
| Registry.RegisteredNames | src/platform/agent_controller.py:34-60 | a name is registered exactly when it is one of trading, risk, strategy, copybot, sentiment |
| Registry.NamesDistinct | src/platform/agent_controller.py:34-60 | no registry name appears twice |
| Controller.ListAgents | src/platform/agent_controller.py:65-77 | one entry per registry name, in registry order, with its description; `warm` iff the name is cached; `supports_tokens` iff the name is `strategy`; every registered name is listed |
| Controller.Submit | src/platform/agent_controller.py:82-98 | an unknown name is refused with the unknown-agent error and the state is unchanged (both directions); a known name adds exactly one pending record under the fresh id, with that agent and time, returns the id, keeps the older records as a prefix, and leaves every other id's lookup, the cache and the call log unchanged |
| Controller.UnknownSubmitInvisible | src/platform/agent_controller.py:84-85 | after a refused submission the job listing has the same length and the id is still unknown |
| Controller.UnknownAgentText | src/platform/agent_controller.py:84-85 | a submission for an unregistered name is refused with the text `Unknown agent '<name>'` |
| Controller.JobNotFoundText | src/platform/agent_controller.py:105-106 | a status query for an unknown id is refused with the text `Job '<id>' not found` |
| Controller.SubmitThenStatus | src/platform/agent_controller.py:87-98 | a registered name is always accepted, and the new job is immediately visible as running with null result and null error |
| Jobs.Find | src/platform/agent_controller.py:102-106 | the lookup fails exactly when no entry holds the id, and otherwise returns a job stored under that id |
| Jobs.FindUnique | src/platform/agent_controller.py:102-103 | with unique ids, the lookup returns the one entry holding the id |
| Agents.Exception.Text | src/platform/agent_controller.py:117-119 | `str(exc)` of each exception a job can end with: the quoted key of a `KeyError`, the agent's own message, and the message of line 168 for `AgentExecutionError` |
| Jobs.Resolve | src/platform/agent_controller.py:108-128 | running, with null result and error, iff the handle is pending; completed, with the returned payload, iff it returned; failed, with `str(exc)` and null result, iff it raised |
| Controller.GetJobStatus | src/platform/agent_controller.py:100-128 | an unknown id fails with job-not-found (both directions); a known id reports its own id, agent and submission time; running, with null result and error, iff its handle is pending; completed, with the returned payload and null error, iff the future returned; failed, with `str(exc)` and null result, iff it raised |
| Controller.Complete | src/platform/agent_controller.py:108-119 | only a pending handle changes, and only to done with the given outcome; agent, time, id and order of every record stay; other ids are untouched; a done or unknown job leaves the state as it was |
| Controller.RunJob | src/platform/agent_controller.py:89 | a worker runs `_execute_agent` with the job's agent and tokens; the cache and call log advance by that execution and the handle completes with its outcome; done or unknown jobs are left alone |
| Controller.InitialValid | src/platform/agent_controller.py:27-31 | the freshly constructed controller, with an empty cache and job table, satisfies the invariant |
| Controller.StepPreservesValid | src/platform/agent_controller.py:82-98 | every step keeps ids unique, cache keys registered and job agents registered |
| Controller.RunJobKeepsValid | src/platform/agent_controller.py:89 | running a job's worker keeps the invariant |
| Controller.CompleteKeepsValid | src/platform/agent_controller.py:108-119 | completing a handle keeps the invariant |
| Controller.StatusMonotonic | src/platform/agent_controller.py:108-119 | after any step a known job stays known; a terminal status, with its result and error, never changes; a status only changes from running to terminal |
| Controller.WorkFinishesJob | src/platform/agent_controller.py:113-119 | a worker running a pending job leaves it completed or failed |
| Controller.NoDispatchGap | src/platform/agent_controller.py:141-168 | a worker running a pending job in a valid state never fails it with `AgentExecutionError` |
| Controller.WorkWarmsAgent | src/platform/agent_controller.py:151-152 | running a job, even one that takes the strategy no-op path, leaves its agent warm in `list_agents` unless the factory raised |
| Jobs.Snapshot | src/platform/agent_controller.py:132-135 | one status per table entry, in table order, each the resolved status of that entry |
| Controller.ListJobs | src/platform/agent_controller.py:130-136 | one status per table entry (a permutation of the table-order snapshot); submission times never increase along the list; for every timestamp the jobs with it keep table order |
| Controller.ListJobsOnePerJob | src/platform/agent_controller.py:130-135 | every known job's status appears, every listed status is what `get_job_status` reports for its id, and no id is listed twice |
| Controller.NewerListedFirst | src/platform/agent_controller.py:136 | of two jobs, the later-submitted one is listed first |
| Controller.SentimentScenario | src/platform/agent_controller.py:164-166 | on a fresh controller, `sentiment` is accepted, running at once, then completed with "Sentiment scan complete" and warm |
| Controller.FailureStaysLocal | src/platform/agent_controller.py:113-119 | a `run()` raising "boom" fails its job with error "boom", and the next submission is still accepted |
| Sorting.SortDesc | src/platform/agent_controller.py:136 | the sorted list is a permutation of the input |
| Sorting.SortDescSorted | src/platform/agent_controller.py:136 | for a total preorder, keys never increase along the output |
| Sorting.SortDescStable | src/platform/agent_controller.py:136 | for every key, the elements with that key come out in input order |
| InstanceCache.GetOrCreate | src/platform/agent_controller.py:141-149 | a hit returns the cached instance with no factory call and no change; a miss on a registered name calls its factory exactly once and yields what the factory returned, or fails with what it raised; a miss on an unknown name constructs nothing and raises `KeyError`; on success the name is cached with the returned instance; a raising factory leaves the cache unchanged; other names' entries are unchanged |
| InstanceCache.SecondLookupHits | src/platform/agent_controller.py:142-143 | after a successful lookup, a second lookup makes no call and yields the same instance |
| InstanceCache.ConstructOnlyWhenCold | src/platform/agent_controller.py:142-147 | a lookup calls the factory for a name exactly when that name is cold and registered |
| Dispatch.Execute | src/platform/agent_controller.py:151-168 | only the executed name can join the cache, and other entries stay; the name is cached afterwards, even on the strategy no-op path, unless the factory raised; an unknown cold name fails with `KeyError` and no call; `AgentExecutionError` names the executed agent and needs that agent to be cached but unregistered; on a cold registered name the first call is its construction |
| Dispatch.ExecuteRunsRoute | src/platform/agent_controller.py:151-168 | a warm name runs its routine on the cached instance and the job ends as the routine does; a cold registered name runs it on the freshly built instance after the construction call, and that instance is cached; a raising factory ends the job with the factory's message |
| Dispatch.PlainAgentOutcome | src/platform/agent_controller.py:155-166 | a warm plain agent completes with its fixed message iff its `run()` (or `run_analysis_cycle()` for copybot) returns normally, and otherwise fails with that call's message |
| Dispatch.Route | src/platform/agent_controller.py:153-168 | strategy goes to the strategy routine; copybot calls `run_analysis_cycle`; trading, risk and sentiment call `run()`, each with its fixed message; any other name raises `AgentExecutionError` without calling anything |
| Dispatch.PlainRun | src/platform/agent_controller.py:155-166 | one call; a normal return gives the fixed message and no signals; a raise fails with the agent's message |
| Dispatch.RegisteredNamesAreRouted | src/platform/agent_controller.py:153-166 | every registered name has a routine |
| Dispatch.DropBlank | src/platform/agent_controller.py:172 | no empty string is left; every non-empty string keeps its count; a list with no empty strings is returned as is; a list of only empty strings becomes empty |
| Dispatch.DropBlankKeepsOrder | src/platform/agent_controller.py:172 | the filter keeps order: a concatenation is filtered part by part, an empty string is dropped and any other string kept |
| Dispatch.ResolveTokens | src/platform/agent_controller.py:172 | the resolved list has no empty string and holds each non-empty requested token as often as `tokens or MONITORED_TOKENS` does; a requested list with no empty string is used as it is, order included (with `Dispatch.DropBlankKeepsOrder`, the order of the requested list is kept in every case) |
| Dispatch.FallbackOnlyWhenAbsent | src/platform/agent_controller.py:172 | for `None` or `[]` the configured list is resolved; for any other list, that list is resolved and the configured one is ignored |
| Dispatch.BlankListDoesNotFallBack | src/platform/agent_controller.py:172-178 | a non-empty list of only empty strings resolves to nothing, whatever is configured |
| Dispatch.Evaluate | src/platform/agent_controller.py:180-182 | the calls are `get_signals` for a prefix of the tokens, in order; without a failure every token was called and the keys are the start keys plus the token set; a failure is what the last call raised, and every call before it returned, so the loop stops at the first raise and only there; without a failure every call returned |
| Dispatch.EvaluateKeepsUntouched | src/platform/agent_controller.py:180-182 | keys the loop never reaches keep their value |
| Dispatch.EvaluateLastWins | src/platform/agent_controller.py:181-182 | each token's value is what its last evaluation returned, given every earlier call |
| Dispatch.RunStrategy | src/platform/agent_controller.py:170-187 | an empty resolved list returns the no-op message with an empty signal map and makes no call; on success one `get_signals` call per resolved token, in order, the keys are exactly the resolved tokens and the message reports the list length; every call returned on success; a failure stops after a prefix of calls whose last one raised, carries that call's message, and every earlier call returned |
| Dispatch.StrategyLastWins | src/platform/agent_controller.py:180-187 | each approved signal is what the last evaluation of that token returned |
| Dispatch.DuplicatesCountedInMessage | src/platform/agent_controller.py:180-187 | `["A", "A"]` makes two calls and reports "Evaluated 2 token(s)." but yields the single key `A` |
| Dispatch.EvaluatedMessageInjective | src/platform/agent_controller.py:185 | the evaluated count can be recovered from the message |
| Text.DecimalRoundTrip | src/platform/agent_controller.py:185 | reading back the decimal text of a count gives the count |
| IsoTime.ListJobsAsWritten | src/platform/agent_controller.py:124-136 | the listing as written is a permutation of the snapshot, ordered by rendered text, largest first, and jobs with the same rendered text keep table order |
| IsoTime.LaterInstantRendersSmaller | src/platform/agent_controller.py:124 | within one second, any later instant renders as a smaller string than the whole second |
| IsoTime.AsWrittenListsOlderFirst | src/platform/agent_controller.py:124-136 | as written, a job stamped on a whole second is listed before a later job of the same second |
| IsoTime.HalfSecondApart | src/platform/agent_controller.py:124 | second 5 renders with no fraction, 5.5 s renders with `.500000`, and the later text is the smaller one |
| RunRequest.Strip | src/platform/app.py:42 | the result is a slice of the input with only whitespace outside it, and neither starts nor ends with whitespace |
| RunRequest.TrimTokens | src/platform/app.py:40-42 | `None` and `[]` pass through; any other list becomes the stripped tokens with blanks dropped: no blank and nothing left to strip, and each non-blank stripped token as often as it occurs in the request; the list is `RunRequest.StripAll` of the request |
| RunRequest.StripAllKeepsOrder | src/platform/app.py:42 | the cleanup keeps the request's order: a concatenation is cleaned part by part, and one token is kept, stripped, exactly when its stripped text is not empty |
| RunRequest.BlankRequestFallsBack | src/platform/app.py:40-42 | through the endpoint, a list of blank tokens makes the strategy agent use the configured tokens |
| RunRequest.CleanedTokensUsedAsSent | src/platform/app.py:40-42 | a non-empty cleaned list is evaluated exactly as sent |

## Findings

| source | as written | input that shows it | evidently intended | confidence | as-written member | corrected member |
|---|---|---|---|---|---|---|
| src/platform/agent_controller.py:124-136 | `list_jobs` sorts on `submitted_at.isoformat() + "Z"`. `isoformat()` leaves out the fraction when the microseconds are zero, and `.` sorts before `Z`. | job `a` submitted at 00:00:05.000000, then job `b` at 00:00:05.500000: as written `a` is listed before `b` | newest first by submission time, as the method's documentation says | high (not executed) | IsoTime.AsWrittenListsOlderFirst | Controller.NewerListedFirst |

The rest of the model uses the corrected listing, `Controller.ListJobs`, which
sorts on the timestamp itself. `IsoTime.HalfSecondApart` gives the two
renderings for the input above and shows that the later one sorts lower.

## Left out

- The thread pool, the lock and real futures (lines 4-6, 29, 31, 89-91, 102,
  132). They become the handle datatype and explicit worker steps. The pool
  size `max_workers` has no effect in a sequential model.
- The unlocked check-then-insert in `_get_or_create_agent` (lines 142-148).
  Two workers that both find a name cold can both construct it. A sequential
  model cannot express this race, so no claim about single construction under
  concurrency is made.
- `uuid.uuid4()` and `datetime.utcnow()` (lines 87-88). They become a fresh-id
  parameter (`Submit` requires that the id is not in the table) and a
  timestamp parameter.
- The full ISO rendering of `submitted_at` (line 124). `IsoTime.IsoText`
  renders the calendar part as a zero-padded count of whole seconds. That is
  also of fixed width (12 digits, for counts below 10^12 seconds, where the
  real text has 19 characters) and has the same order, and it keeps the real
  fraction rule.
  Statuses otherwise carry the timestamp itself.
- The agent classes and the `MONITORED_TOKENS` import (lines 12-17). They are
  the `Agents.Env` parameter. What `get_signals` returns is kept as an
  uninspected `Agents.Signal`.
- `cprint` logging (line 145).
- The HTTP layer of `src/platform/app.py`: routes, templates, static files and
  the mapping of `KeyError` to 404. The background task after a submission
  only calls `get_job_status`, a pure query here, so it changes nothing.
- Common.KeyErrorText: `str(KeyError(k))` is `repr(k)`. The model always uses
  single quotes and does not model the double quotes or escaping that `repr`
  uses for keys containing quotes.
- Controller.ControllerError: the error keeps the message the controller
  builds (`Unknown agent '...'`, `Job '...' not found`), not the `repr` form
  that `str()` of that `KeyError` would show.
- RunRequest.IsSpace: only the ASCII whitespace of `str.isspace()` is
  modelled. Other Unicode spaces, such as U+0085 and U+00A0, are not.
- Dispatch.Evaluate: on a failure the contract says nothing about the partial
  map, because the raised exception discards it.
- Exceptions outside `Exception`. The pool stores any `BaseException` an agent
  raises, such as `SystemExit` or `KeyboardInterrupt`, on the future. The
  `except Exception` at line 117 does not catch it, so `get_job_status`, and
  `list_jobs` through line 135, would raise it instead of reporting `failed`.
  The model gives agent code only ordinary exceptions (`Agents.Effect.Threw`
  and the `Err` results of `Agents.Env`), so every raising job reads as
  failed.
- Dispatch.Payload: `approved_signals` is a Dafny `map`, which has no order.
  The Python dict at lines 180-182 keeps the order in which each token was
  first seen, and that order shows in the returned result; the model states
  only the keys and their values.
- Cancellation, timeouts and job removal: the controller has none, and neither
  does the model.
