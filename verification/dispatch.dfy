/** What a worker runs for one job: `_execute_agent` and `_run_strategy_agent`
    (src/platform/agent_controller.py:151-187). */
module Dispatch {
  import opened Common
  import opened Text
  import opened Registry
  import opened Agents
  import opened InstanceCache

  /** The dict an agent run returns: a message, plus `approved_signals` for the
      strategy agent only. */
  datatype Payload = Payload(message: string, approvedSignals: Option<map<string, Signal>>)

  /** How the future of a job ends. */
  datatype Outcome = Returned(result: Payload) | Raised(error: Exception)

  /** The calls one routine made into agent code and how it ended. */
  datatype Routine = Routine(calls: seq<Call>, outcome: Outcome)

  /** A whole job execution: the cache afterwards as well. */
  datatype Execution = Execution(cache: Cache, calls: seq<Call>, outcome: Outcome)

  const NoTokensMessage: string := "No tokens provided and MONITORED_TOKENS is empty."

  function EvaluatedMessage(count: nat): string {
    "Evaluated " + DecimalText(count) + " token(s)."
  }

  /** The count can be read back from the message. */
  lemma EvaluatedMessageInjective(a: nat, b: nat)
    requires EvaluatedMessage(a) == EvaluatedMessage(b)
    ensures a == b
  {
    var ma, mb := EvaluatedMessage(a), EvaluatedMessage(b);
    assert |ma| == |mb|;
    assert ma[10..|ma| - 10] == DecimalText(a);
    assert mb[10..|mb| - 10] == DecimalText(b);
    DecimalTextInjective(a, b);
  }

  // ---------------------------------------------------------------------
  // Token resolution
  // ---------------------------------------------------------------------

  predicate NoBlank(xs: seq<string>) {
    forall i :: 0 <= i < |xs| ==> xs[i] != ""
  }

  /** `[t for t in xs if t]`: the non-empty strings of `xs`, in order. */
  function DropBlank(xs: seq<string>): (r: seq<string>)
    ensures NoBlank(r)
    ensures forall t :: t != "" ==> multiset(r)[t] == multiset(xs)[t]
    ensures NoBlank(xs) ==> r == xs
    ensures (forall i :: 0 <= i < |xs| ==> xs[i] == "") ==> r == []
    ensures |r| <= |xs|
  {
    if xs == [] then []
    else
      var rest := DropBlank(xs[1..]);
      assert xs == [xs[0]] + xs[1..];
      if xs[0] == "" then rest else [xs[0]] + rest
  }

  /** The filter keeps order: it works element by element, and the kept
      strings of a concatenation are the kept strings of each part in turn. */
  lemma {:induction false} DropBlankKeepsOrder(a: seq<string>, b: seq<string>)
    ensures DropBlank(a + b) == DropBlank(a) + DropBlank(b)
    ensures DropBlank([""]) == []
    ensures forall t :: t != "" ==> DropBlank([t]) == [t]
  {
    if a == [] {
      assert a + b == b;
    } else {
      assert (a + b)[1..] == a[1..] + b;
      DropBlankKeepsOrder(a[1..], b);
    }
  }

  /** `tokens or MONITORED_TOKENS`: the caller's list unless it is `None` or empty. */
  function Requested(tokens: Option<seq<string>>, monitored: seq<string>): seq<string> {
    if tokens.None? || tokens.value == [] then monitored else tokens.value
  }

  /** The token list the strategy agent evaluates. */
  function ResolveTokens(tokens: Option<seq<string>>, monitored: seq<string>): (r: seq<string>)
    ensures NoBlank(r)
    ensures forall t :: t != "" ==> multiset(r)[t] == multiset(Requested(tokens, monitored))[t]
    // a list with no empty string is used as it is, order included
    ensures NoBlank(Requested(tokens, monitored)) ==> r == Requested(tokens, monitored)
  {
    DropBlank(Requested(tokens, monitored))
  }

  /** The configured list is used exactly when the caller gave `None` or `[]`. */
  lemma FallbackOnlyWhenAbsent(tokens: Option<seq<string>>, monitored: seq<string>)
    ensures tokens.None? || tokens == Some([]) ==> ResolveTokens(tokens, monitored) == DropBlank(monitored)
    ensures tokens.Some? && tokens.value != [] ==> ResolveTokens(tokens, monitored) == DropBlank(tokens.value)
  {
  }

  /** A non-empty list of only empty strings does not fall back: it resolves to
      nothing, whatever is configured. */
  lemma BlankListDoesNotFallBack(xs: seq<string>, monitored: seq<string>)
    requires xs != [] && forall i :: 0 <= i < |xs| ==> xs[i] == ""
    ensures ResolveTokens(Some(xs), monitored) == []
  {
  }

  // ---------------------------------------------------------------------
  // Strategy evaluation
  // ---------------------------------------------------------------------

  /** The `get_signals` calls for `toks`, one per token, in order. */
  function SignalCalls(inst: Instance, toks: seq<string>): (r: seq<Call>)
    ensures |r| == |toks|
    ensures forall i :: 0 <= i < |toks| ==> r[i] == GetSignals(inst, toks[i])
  {
    seq(|toks|, i requires 0 <= i < |toks| => GetSignals(inst, toks[i]))
  }

  /** The calls for a prefix of `toks`: the first token's call, then the rest's. */
  lemma SignalCallsCons(inst: Instance, toks: seq<string>, n: nat)
    requires n < |toks|
    ensures SignalCalls(inst, toks[..n + 1]) == [GetSignals(inst, toks[0])] + SignalCalls(inst, toks[1..][..n])
  {
    var a, b := SignalCalls(inst, toks[..n + 1]), [GetSignals(inst, toks[0])] + SignalCalls(inst, toks[1..][..n]);
    assert |a| == |b|;
    forall i | 0 <= i < |a| ensures a[i] == b[i] {
      if i > 0 {
        assert toks[1..][..n][i - 1] == toks[i];
      }
    }
  }

  /** The calls for a prefix of `toks` that goes past the first token. */
  lemma CallsAfterFirst(inst: Instance, toks: seq<string>, rest: seq<Call>)
    requires toks != [] && |rest| < |toks| && rest == SignalCalls(inst, toks[1..][..|rest|])
    ensures [GetSignals(inst, toks[0])] + rest == SignalCalls(inst, toks[..|rest| + 1])
  {
    SignalCallsCons(inst, toks, |rest|);
  }

  /** The distinct tokens of a list. */
  function TokenSet(toks: seq<string>): set<string> {
    set t | t in toks
  }

  lemma TokenSetCons(toks: seq<string>)
    requires toks != []
    ensures TokenSet(toks) == {toks[0]} + TokenSet(toks[1..])
  {
    assert toks == [toks[0]] + toks[1..];
  }

  datatype Evaluation = Evaluation(calls: seq<Call>, approved: map<string, Signal>, failure: Option<string>)

  /** The loop `for token in token_list: approved[token] = agent.get_signals(token)`
      over the tokens still to do, `toks`, starting from the map built so far.
      The first call that raises ends the loop. */
  function Evaluate(env: Env, history: seq<Call>, inst: Instance, toks: seq<string>,
                    approved: map<string, Signal>): (r: Evaluation)
    // the calls are those for a prefix of the tokens, in order
    ensures |r.calls| <= |toks| && r.calls == SignalCalls(inst, toks[..|r.calls|])
    // without a failure every token was evaluated and is a key
    ensures r.failure.None? ==> |r.calls| == |toks| && r.approved.Keys == approved.Keys + TokenSet(toks)
    // a failure comes from the last call made
    ensures r.failure.Some? ==>
      (0 < |r.calls| && env.getSignals(history + r.calls[..|r.calls| - 1], inst, toks[|r.calls| - 1]) == Err(r.failure.value))
    // every other call returned, so the loop stops at the first raise and only there
    ensures forall k :: 0 <= k < |r.calls| && (r.failure.None? || k < |r.calls| - 1) ==>
      env.getSignals(history + r.calls[..k], inst, toks[k]).Ok?
    decreases |toks|
  {
    if toks == [] then Evaluation([], approved, None)
    else
      var call := GetSignals(inst, toks[0]);
      match env.getSignals(history, inst, toks[0])
      case Err(m) =>
        assert history + [call][..0] == history;
        assert [call] == SignalCalls(inst, toks[..1]);
        Evaluation([call], approved, Some(m))
      case Ok(v) =>
        var rest := Evaluate(env, history + [call], inst, toks[1..], approved[toks[0] := v]);
        var r := Evaluation([call] + rest.calls, rest.approved, rest.failure);
        AfterFirstCall(env, history, inst, toks, approved, v, rest);
        r
  }

  /** What `Evaluate` promises about `r`, as one predicate for the step lemma. */
  ghost predicate EvaluationFits(env: Env, history: seq<Call>, inst: Instance, toks: seq<string>,
                                 approved: map<string, Signal>, r: Evaluation) {
    && |r.calls| <= |toks| && r.calls == SignalCalls(inst, toks[..|r.calls|])
    && (r.failure.None? ==> |r.calls| == |toks| && r.approved.Keys == approved.Keys + TokenSet(toks))
    && (r.failure.Some? ==>
         (0 < |r.calls| && env.getSignals(history + r.calls[..|r.calls| - 1], inst, toks[|r.calls| - 1]) == Err(r.failure.value)))
    && (forall k :: 0 <= k < |r.calls| && (r.failure.None? || k < |r.calls| - 1) ==>
         env.getSignals(history + r.calls[..k], inst, toks[k]).Ok?)
  }

  /** A first call that returns `v`, followed by a loop over the rest that
      keeps the promise, keeps the promise for the whole list. */
  lemma AfterFirstCall(env: Env, history: seq<Call>, inst: Instance, toks: seq<string>,
                       approved: map<string, Signal>, v: Signal, rest: Evaluation)
    requires toks != [] && env.getSignals(history, inst, toks[0]) == Ok(v)
    requires EvaluationFits(env, history + [GetSignals(inst, toks[0])], inst, toks[1..], approved[toks[0] := v], rest)
    ensures EvaluationFits(env, history, inst, toks, approved,
                           Evaluation([GetSignals(inst, toks[0])] + rest.calls, rest.approved, rest.failure))
  {
    var call := GetSignals(inst, toks[0]);
    var r := Evaluation([call] + rest.calls, rest.approved, rest.failure);
    CallsAfterFirst(inst, toks, rest.calls);
    TokenSetCons(toks);
    if rest.failure.Some? {
      PrefixAfterFirst(history, call, rest.calls, |rest.calls|);
      assert toks[|r.calls| - 1] == toks[1..][|rest.calls| - 1];
    }
    forall k | 0 <= k < |r.calls| && (r.failure.None? || k < |r.calls| - 1)
      ensures env.getSignals(history + r.calls[..k], inst, toks[k]).Ok?
    {
      if k == 0 {
        assert history + r.calls[..0] == history;
      } else {
        PrefixAfterFirst(history, call, rest.calls, k);
        assert toks[k] == toks[1..][k - 1];
      }
    }
  }

  /** Keys the loop never reaches keep the value they started with. */
  lemma {:induction false} EvaluateKeepsUntouched(env: Env, history: seq<Call>, inst: Instance,
                                                  toks: seq<string>, approved: map<string, Signal>, k: string)
    requires Evaluate(env, history, inst, toks, approved).failure.None?
    requires k in approved && k !in toks
    ensures Evaluate(env, history, inst, toks, approved).approved[k] == approved[k]
    decreases |toks|
  {
    if toks != [] {
      var v := env.getSignals(history, inst, toks[0]).value;
      assert toks[0] in TokenSet(toks);
      assert TokenSet(toks[1..]) <= TokenSet(toks) by {
        forall t | t in TokenSet(toks[1..]) ensures t in TokenSet(toks) {
          var i :| 0 <= i < |toks[1..]| && toks[1..][i] == t;
          assert toks[i + 1] == t;
        }
      }
      EvaluateKeepsUntouched(env, history + [GetSignals(inst, toks[0])], inst, toks[1..], approved[toks[0] := v], k);
    }
  }

  /** One turn of the loop: a token whose evaluation returns is followed by
      the loop over the remaining tokens. */
  lemma EvaluateStep(env: Env, history: seq<Call>, inst: Instance, toks: seq<string>,
                     approved: map<string, Signal>, v: Signal)
    requires toks != [] && env.getSignals(history, inst, toks[0]) == Ok(v)
    ensures var rest := Evaluate(env, history + [GetSignals(inst, toks[0])], inst, toks[1..], approved[toks[0] := v]);
      Evaluate(env, history, inst, toks, approved) ==
        Evaluation([GetSignals(inst, toks[0])] + rest.calls, rest.approved, rest.failure)
  {
  }

  /** The first token, when it does not come back later, keeps the value its
      own evaluation returned. */
  lemma EvaluateFirstKept(env: Env, history: seq<Call>, inst: Instance,
                          toks: seq<string>, approved: map<string, Signal>)
    requires Evaluate(env, history, inst, toks, approved).failure.None?
    requires toks != [] && toks[0] !in toks[1..]
    ensures var r := Evaluate(env, history, inst, toks, approved);
      toks[0] in r.approved && Ok(r.approved[toks[0]]) == env.getSignals(history, inst, toks[0])
  {
    var v := env.getSignals(history, inst, toks[0]).value;
    EvaluateStep(env, history, inst, toks, approved, v);
    EvaluateKeepsUntouched(env, history + [GetSignals(inst, toks[0])], inst, toks[1..], approved[toks[0] := v], toks[0]);
  }

  /** Taking `j` calls of a log that starts with `call`. */
  lemma PrefixAfterFirst(history: seq<Call>, call: Call, rest: seq<Call>, j: nat)
    requires 0 < j <= |rest| + 1
    ensures history + ([call] + rest)[..j] == (history + [call]) + rest[..j - 1]
  {
    assert ([call] + rest)[..j] == [call] + rest[..j - 1];
  }

  /** Duplicate tokens collapse into one key, holding what the LAST evaluation of
      that token returned (the dict assignment overwrites). */
  lemma {:induction false} EvaluateLastWins(env: Env, history: seq<Call>, inst: Instance,
                                            toks: seq<string>, approved: map<string, Signal>, j: nat)
    requires Evaluate(env, history, inst, toks, approved).failure.None?
    requires j < |toks| && toks[j] !in toks[j + 1..]
    ensures var r := Evaluate(env, history, inst, toks, approved);
      toks[j] in r.approved &&
      Ok(r.approved[toks[j]]) == env.getSignals(history + r.calls[..j], inst, toks[j])
    decreases |toks|
  {
    var r := Evaluate(env, history, inst, toks, approved);
    if j == 0 {
      assert toks[1..] == toks[j + 1..];
      EvaluateFirstKept(env, history, inst, toks, approved);
      assert history + r.calls[..0] == history;
    } else {
      var call := GetSignals(inst, toks[0]);
      var v := env.getSignals(history, inst, toks[0]).value;
      var h' := history + [call];
      var rest := Evaluate(env, h', inst, toks[1..], approved[toks[0] := v]);
      EvaluateStep(env, history, inst, toks, approved, v);
      assert toks[1..][j - 1] == toks[j] && toks[1..][j..] == toks[j + 1..];
      EvaluateLastWins(env, h', inst, toks[1..], approved[toks[0] := v], j - 1);
      assert Ok(rest.approved[toks[j]]) == env.getSignals(h' + rest.calls[..j - 1], inst, toks[j]);
      PrefixAfterFirst(history, call, rest.calls, j);
    }
  }

  /** `_run_strategy_agent`: resolve the tokens; with none left, return the
      no-op payload without calling the agent; otherwise evaluate each token in
      order and report how many were in the list (duplicates included). */
  function RunStrategy(env: Env, history: seq<Call>, inst: Instance, tokens: Option<seq<string>>): (r: Routine)
    ensures var list := ResolveTokens(tokens, env.monitoredTokens);
      && (list == [] ==> r == Routine([], Returned(Payload(NoTokensMessage, Some(map[])))))
      && (list != [] && r.outcome.Returned? ==>
            && r.calls == SignalCalls(inst, list)
            && r.outcome.result.message == EvaluatedMessage(|list|)
            && r.outcome.result.approvedSignals.Some?
            && r.outcome.result.approvedSignals.value.Keys == TokenSet(list)
            && forall k :: 0 <= k < |list| ==> env.getSignals(history + r.calls[..k], inst, list[k]).Ok?)
      && (r.outcome.Raised? ==>
            && 0 < |r.calls| <= |list|
            && r.calls == SignalCalls(inst, list[..|r.calls|])
            && r.outcome.error.AgentFailure?
            // the last call raised the agent's exception; every earlier call returned
            && env.getSignals(history + r.calls[..|r.calls| - 1], inst, list[|r.calls| - 1]) == Err(r.outcome.error.message)
            && forall k :: 0 <= k < |r.calls| - 1 ==> env.getSignals(history + r.calls[..k], inst, list[k]).Ok?)
  {
    var list := ResolveTokens(tokens, env.monitoredTokens);
    if list == [] then Routine([], Returned(Payload(NoTokensMessage, Some(map[]))))
    else
      var e := Evaluate(env, history, inst, list, map[]);
      match e.failure
      case Some(m) => Routine(e.calls, Raised(AgentFailure(m)))
      case None =>
        assert list[..|e.calls|] == list;
        Routine(e.calls, Returned(Payload(EvaluatedMessage(|list|), Some(e.approved))))
  }

  /** One plain agent call and its fixed completion message. */
  function PlainRun(effect: Effect, call: Call, message: string): (r: Routine)
    ensures r.calls == [call]
    ensures effect.Finished? <==> r.outcome == Returned(Payload(message, None))
    ensures effect.Threw? ==> r.outcome == Raised(AgentFailure(effect.message))
  {
    match effect
    case Finished => Routine([call], Returned(Payload(message, None)))
    case Threw(m) => Routine([call], Raised(AgentFailure(m)))
  }

  /** The completion message of each plain agent. */
  function PlainMessage(name: AgentName): Option<string> {
    if name == "copybot" then Some("CopyBot analysis cycle complete")
    else if name == "trading" then Some("Trading cycle complete")
    else if name == "risk" then Some("Risk review complete")
    else if name == "sentiment" then Some("Sentiment scan complete")
    else None
  }

  /** The name-to-routine table of `_execute_agent`, once an instance is in hand. */
  function Route(env: Env, history: seq<Call>, inst: Instance, name: AgentName, tokens: Option<seq<string>>): (r: Routine)
    // copybot runs its analysis cycle, the other plain agents `run()`
    ensures name == "copybot" ==>
      r == PlainRun(env.runAnalysisCycle(history, inst), RunAnalysisCycle(inst), PlainMessage(name).value)
    ensures name != "strategy" && name != "copybot" && PlainMessage(name).Some? ==>
      r == PlainRun(env.run(history, inst), Run(inst), PlainMessage(name).value)
    ensures name == "strategy" ==> r == RunStrategy(env, history, inst, tokens)
    // a name with no routine raises AgentExecutionError without calling anything
    ensures name != "strategy" && PlainMessage(name).None? ==>
      r == Routine([], Raised(AgentExecutionError(name)))
  {
    if name == "strategy" then RunStrategy(env, history, inst, tokens)
    else if name == "copybot" then
      PlainRun(env.runAnalysisCycle(history, inst), RunAnalysisCycle(inst), "CopyBot analysis cycle complete")
    else if name == "trading" then PlainRun(env.run(history, inst), Run(inst), "Trading cycle complete")
    else if name == "risk" then PlainRun(env.run(history, inst), Run(inst), "Risk review complete")
    else if name == "sentiment" then PlainRun(env.run(history, inst), Run(inst), "Sentiment scan complete")
    else Routine([], Raised(AgentExecutionError(name)))
  }

  /** Every registered name has a routine. */
  lemma RegisteredNamesAreRouted(name: AgentName)
    ensures IsRegistered(name) ==> name == "strategy" || PlainMessage(name).Some?
  {
    RegisteredNames(name);
  }

  /** `_execute_agent`: obtain the instance (warming the cache first, on every
      path), then run the routine for `name`. */
  function Execute(env: Env, history: seq<Call>, cache: Cache, name: AgentName, tokens: Option<seq<string>>): (r: Execution)
    // the cache only ever gains `name`
    ensures forall n :: n in cache ==> n in r.cache && r.cache[n] == cache[n]
    ensures r.cache.Keys <= cache.Keys + {name}
    // a registered name whose construction did not raise is warm afterwards,
    // whatever the routine did, the strategy no-op path included
    ensures IsRegistered(name) && (name in cache || env.construct(history, name).Ok?) ==> name in r.cache
    // an unknown, cold name fails at the registry lookup without any call
    ensures name !in cache && !IsRegistered(name) ==> r == Execution(cache, [], Raised(KeyError(name)))
    // the handler-less branch is reached only through a cached unregistered name
    ensures r.outcome.Raised? && r.outcome.error.AgentExecutionError? ==>
      r.outcome.error.agent == name && name in cache && !IsRegistered(name)
    // construction precedes every other call
    ensures name !in cache && IsRegistered(name) ==> |r.calls| >= 1 && r.calls[0] == Construct(name)
  {
    var got := GetOrCreate(env, history, cache, name);
    match got.instance
    case Err(e) => Execution(got.cache, got.calls, Raised(e))
    case Ok(inst) =>
      var run := Route(env, history + got.calls, inst, name, tokens);
      RegisteredNamesAreRouted(name);
      Execution(got.cache, got.calls + run.calls, run.outcome)
  }

  /** After the lookup, the job is the routine for `name` on the instance
      obtained, run after the lookup's own calls. */
  lemma ExecuteRunsRoute(env: Env, history: seq<Call>, cache: Cache, name: AgentName, tokens: Option<seq<string>>)
    // a warm name runs its routine on the cached instance, and the job ends as the routine does
    ensures name in cache ==>
      Execute(env, history, cache, name, tokens) ==
        Execution(cache, Route(env, history, cache[name], name, tokens).calls,
                  Route(env, history, cache[name], name, tokens).outcome)
    // a cold registered name runs its routine on the instance just built, after
    // the construction call; a raising factory ends the job with its message
    ensures name !in cache && IsRegistered(name) && env.construct(history, name).Ok? ==>
      Execute(env, history, cache, name, tokens) ==
        Execution(cache[name := env.construct(history, name).value],
                  [Construct(name)] + Route(env, history + [Construct(name)], env.construct(history, name).value, name, tokens).calls,
                  Route(env, history + [Construct(name)], env.construct(history, name).value, name, tokens).outcome)
    ensures name !in cache && IsRegistered(name) && env.construct(history, name).Err? ==>
      Execute(env, history, cache, name, tokens) ==
        Execution(cache, [Construct(name)], Raised(AgentFailure(env.construct(history, name).error)))
  {
    if name in cache {
      assert history + [] == history;
    }
  }

  /** A warm plain agent completes with its fixed message exactly when its
      one call returns normally, and otherwise fails with the agent's own
      message. */
  lemma PlainAgentOutcome(env: Env, history: seq<Call>, cache: Cache, name: AgentName, tokens: Option<seq<string>>)
    requires name in cache && IsRegistered(name) && name != "strategy"
    ensures var effect := if name == "copybot" then env.runAnalysisCycle(history, cache[name])
                          else env.run(history, cache[name]);
      && (Execute(env, history, cache, name, tokens).outcome == Returned(Payload(PlainMessage(name).value, None))
          <==> effect.Finished?)
      && (effect.Threw? ==> Execute(env, history, cache, name, tokens).outcome == Raised(AgentFailure(effect.message)))
  {
    ExecuteRunsRoute(env, history, cache, name, tokens);
    RegisteredNamesAreRouted(name);
    assert PlainMessage(name).Some?;
  }

  /** For the strategy agent, each approved signal is what the last evaluation
      of that token returned, the agent having seen every earlier call. */
  lemma StrategyLastWins(env: Env, history: seq<Call>, inst: Instance, tokens: Option<seq<string>>, j: nat)
    requires RunStrategy(env, history, inst, tokens).outcome.Returned?
    requires var list := ResolveTokens(tokens, env.monitoredTokens);
      j < |list| && list[j] !in list[j + 1..]
    ensures var list := ResolveTokens(tokens, env.monitoredTokens);
      var r := RunStrategy(env, history, inst, tokens);
      Ok(r.outcome.result.approvedSignals.value[list[j]]) == env.getSignals(history + r.calls[..j], inst, list[j])
  {
    var list := ResolveTokens(tokens, env.monitoredTokens);
    EvaluateLastWins(env, history, inst, list, map[], j);
  }

  /** The message counts the list, duplicates included, while the signal map
      has one key per distinct token: `["A", "A"]` reports two tokens and
      yields one key. */
  lemma DuplicatesCountedInMessage(env: Env, history: seq<Call>, inst: Instance)
    requires RunStrategy(env, history, inst, Some(["A", "A"])).outcome.Returned?
    ensures var r := RunStrategy(env, history, inst, Some(["A", "A"]));
      && r.outcome.result.message == "Evaluated 2 token(s)."
      && r.outcome.result.approvedSignals.value.Keys == {"A"}
      && r.calls == [GetSignals(inst, "A"), GetSignals(inst, "A")]
  {
    ResolvePair(env.monitoredTokens);
    PairFacts(inst);
  }

  /** `["A", "A"]` has no blank, so it is resolved as is. */
  lemma ResolvePair(monitored: seq<string>)
    ensures ResolveTokens(Some(["A", "A"]), monitored) == ["A", "A"]
  {
    assert NoBlank(["A", "A"]);
    FallbackOnlyWhenAbsent(Some(["A", "A"]), monitored);
  }

  /** The message, keys and calls for the list `["A", "A"]`. */
  lemma PairFacts(inst: Instance)
    ensures EvaluatedMessage(|["A", "A"]|) == "Evaluated 2 token(s)."
    ensures TokenSet(["A", "A"]) == {"A"}
    ensures SignalCalls(inst, ["A", "A"]) == [GetSignals(inst, "A"), GetSignals(inst, "A")]
  {
    assert DecimalText(2) == "2";
    var calls := SignalCalls(inst, ["A", "A"]);
    assert |calls| == 2 && calls[0] == GetSignals(inst, "A") && calls[1] == GetSignals(inst, "A");
  }

}
