/** The static agent registry the controller builds at construction
    (src/platform/agent_controller.py:34-60). The factories live with the
    agent collaborators (module Agents); here are the names, descriptions and
    token-support flags, in the registry's insertion order. */
module Registry {

  type AgentName = string

  datatype Descriptor = Descriptor(name: AgentName, description: string, supportsTokens: bool)

  const Descriptors: seq<Descriptor> := [
    Descriptor("trading", "LLM-driven discretionary trading pipeline.", false),
    Descriptor("risk", "Risk management guardrails and limit monitoring.", false),
    Descriptor("strategy", "Aggregates custom strategies and validates with LLMs.", true),
    Descriptor("copybot", "Mirrors trades from curated on-chain wallets.", false),
    Descriptor("sentiment", "Collects social data and scores market sentiment.", false)
  ]

  /** `name in self._registry`. */
  predicate IsRegistered(name: AgentName) {
    exists i :: 0 <= i < |Descriptors| && Descriptors[i].name == name
  }

  /** The registry is keyed by name: no name appears twice. */
  lemma NamesDistinct()
    ensures forall i, j :: 0 <= i < j < |Descriptors| ==> Descriptors[i].name != Descriptors[j].name
  {
  }

  /** Exactly the five names of the registry literal are registered. */
  lemma RegisteredNames(name: AgentName)
    ensures IsRegistered(name) <==>
      name in ["trading", "risk", "strategy", "copybot", "sentiment"]
  {
    if name in ["trading", "risk", "strategy", "copybot", "sentiment"] {
      assert Descriptors[0].name == "trading" && Descriptors[1].name == "risk" && Descriptors[2].name == "strategy";
      assert Descriptors[3].name == "copybot" && Descriptors[4].name == "sentiment";
    }
  }
}
