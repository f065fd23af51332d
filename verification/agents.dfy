/** The agent implementations are foreign code. The controller only constructs
    them and calls `run`, `run_analysis_cycle` or `get_signals` on them, so the
    model records each such call and lets an environment of functions answer it.
    Every answer may depend on the whole history of earlier calls, which is how
    an opaque object with internal state looks from the outside. */
module Agents {
  import opened Common
  import opened Registry

  /** An agent object: only its identity matters to the controller. */
  datatype Instance = Instance(serial: nat)

  /** Whatever `get_signals` returns; the controller stores it uninspected. */
  type Signal = string

  /** One call from the controller into agent code. */
  datatype Call =
    | Construct(agent: AgentName)
    | Run(target: Instance)
    | RunAnalysisCycle(target: Instance)
    | GetSignals(target: Instance, token: string)

  /** How a call without a return value ended: normally, or by raising an
      exception whose `str()` is `message`. */
  datatype Effect = Finished | Threw(message: string)

  /** The collaborators: per-name factories, the three agent entry points, and
      the configured `MONITORED_TOKENS` list. Failures carry `str(exc)`. */
  datatype Env = Env(
    construct: (seq<Call>, AgentName) -> Result<Instance, string>,
    run: (seq<Call>, Instance) -> Effect,
    runAnalysisCycle: (seq<Call>, Instance) -> Effect,
    getSignals: (seq<Call>, Instance, string) -> Result<Signal, string>,
    monitoredTokens: seq<string>)

  /** The exceptions that can end a job. */
  datatype Exception =
    | KeyError(key: string)
    | AgentExecutionError(agent: AgentName)
    | AgentFailure(message: string)
  {
    /** `str(exc)`, the text a failed job reports. */
    function Text(): (s: string)
      ensures KeyError? ==> s == KeyErrorText(key)
      ensures AgentFailure? ==> s == message
      ensures AgentExecutionError? ==> s == "No execution handler for agent '" + agent + "'"
    {
      match this
      case KeyError(k) => KeyErrorText(k)
      case AgentExecutionError(a) => "No execution handler for agent '" + a + "'"
      case AgentFailure(m) => m
    }
  }
}
