/** The lazy per-name instance cache, `_get_or_create_agent`
    (src/platform/agent_controller.py:141-149). */
module InstanceCache {
  import opened Common
  import opened Registry
  import opened Agents

  type Cache = map<AgentName, Instance>

  /** The cache after a lookup, the calls the lookup made into agent code, and
      the instance obtained or the exception raised. */
  datatype Lookup = Lookup(cache: Cache, calls: seq<Call>, instance: Result<Instance, Exception>)

  /** Returns the cached instance for `name`, constructing and storing one on a
      miss. A miss on a name the registry lacks raises `KeyError` at the
      registry lookup, before anything is constructed; a factory that raises
      leaves the cache as it was. */
  function GetOrCreate(env: Env, history: seq<Call>, cache: Cache, name: AgentName): (r: Lookup)
    // hit: the cached instance, no factory call, nothing changes
    ensures name in cache ==> r.cache == cache && r.calls == [] && r.instance == Ok(cache[name])
    // miss on a registered name: exactly one factory call, for that name
    ensures name !in cache && IsRegistered(name) ==> r.calls == [Construct(name)]
    // ... and the lookup yields what the factory returned, or fails with what it raised
    ensures name !in cache && IsRegistered(name) ==>
      r.instance == match env.construct(history, name)
                    case Ok(i) => Ok(i)
                    case Err(m) => Err(AgentFailure(m))
    // miss on an unknown name: nothing is constructed
    ensures name !in cache && !IsRegistered(name) ==>
      r.cache == cache && r.calls == [] && r.instance == Err(KeyError(name))
    // success leaves the name cached with the instance returned
    ensures r.instance.Ok? ==> name in r.cache && r.cache[name] == r.instance.value
    ensures r.instance.Err? ==> r.cache == cache
    // entries for other names are untouched
    ensures r.cache.Keys == cache.Keys || r.cache.Keys == cache.Keys + {name}
    ensures forall n :: n in cache ==> n in r.cache && r.cache[n] == cache[n]
  {
    if name in cache then Lookup(cache, [], Ok(cache[name]))
    else if !IsRegistered(name) then Lookup(cache, [], Err(KeyError(name)))
    else
      match env.construct(history, name)
      case Ok(inst) => Lookup(cache[name := inst], [Construct(name)], Ok(inst))
      case Err(m) => Lookup(cache, [Construct(name)], Err(AgentFailure(m)))
  }

  /** After a successful lookup the name is warm: looking it up again calls no
      factory and yields the same instance. */
  lemma SecondLookupHits(env: Env, history: seq<Call>, cache: Cache, name: AgentName, later: seq<Call>)
    requires GetOrCreate(env, history, cache, name).instance.Ok?
    ensures var first := GetOrCreate(env, history, cache, name);
      GetOrCreate(env, later, first.cache, name) == Lookup(first.cache, [], first.instance)
  {
  }

  /** A factory call for `name` happens only while `name` is cold. After a
      raising factory the name stays cold and the next lookup calls it again,
      so at most one construction per name succeeds. */
  lemma ConstructOnlyWhenCold(env: Env, history: seq<Call>, cache: Cache, name: AgentName)
    ensures Construct(name) in GetOrCreate(env, history, cache, name).calls <==>
      name !in cache && IsRegistered(name)
  {
  }
}
