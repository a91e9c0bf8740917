/**
  The default-agent classifier of the mobile client's agents module.

  An agent record is the platform's built-in default ("Relu") agent when its
  metadata carries the `is_relu_default` flag, or, failing that, when its
  display name is one of three known names, compared without regard to
  letter case. A second entry point classifies by agent id: no id means the
  default agent; otherwise the first agent in the given list with that id is
  classified. JavaScript's `null` and `undefined` are both `None` here.
 */
module DefaultAgent {
  import opened AsciiCase

  datatype Option<T> = None | Some(value: T)

  /** The part of an agent's metadata the classifier looks at. */
  datatype Metadata = Metadata(isReluDefault: Option<bool>)

  /** An agent record; every field may be absent. */
  datatype Agent = Agent(agentId: Option<string>, name: Option<string>, metadata: Option<Metadata>)

  /** The display names that mark the default agent, in lower case. */
  const DefaultNames: seq<string> := ["relu", "superworker", "relu super worker"]

  /** `metadata?.is_relu_default` is truthy: the metadata is present and its
      flag is present and true. */
  predicate IsFlagged(a: Agent): (flagged: bool)
    ensures a.metadata.None? ==> !flagged
    ensures a.metadata == Some(Metadata(None)) ==> !flagged
    ensures a.metadata == Some(Metadata(Some(false))) ==> !flagged
    ensures a.metadata == Some(Metadata(Some(true))) ==> flagged
  {
    a.metadata.Some? && a.metadata.value.isReluDefault == Some(true)
  }

  /** The name is present and equals one of the default names apart from
      letter case (reference definition, independent of `Lower`). */
  ghost predicate NamedAsDefault(name: Option<string>) {
    name.Some? && exists k :: 0 <= k < |DefaultNames| && EqualIgnoringCase(name.value, DefaultNames[k])
  }

  /** Whether `agent` is the default agent. */
  function IsReluDefaultAgent(agent: Option<Agent>): (r: bool)
    ensures agent.None? ==> !r
    ensures agent.Some? && IsFlagged(agent.value) ==> r
    ensures agent.Some? && !IsFlagged(agent.value) && agent.value.name.None? ==> !r
  {
    match agent
    case None => false
    case Some(a) =>
      if IsFlagged(a) then true
      else
        match a.name
        case None => false
        case Some(n) => Lower(n) in DefaultNames
  }

  /** Comparing the lower-cased name with the default names is the same as
      asking whether the name equals one of them apart from case. */
  lemma LoweredNameIsDefaultIff(n: string)
    ensures Lower(n) in DefaultNames <==> NamedAsDefault(Some(n))
  {
    DefaultNamesAreLowercase();
    forall k | 0 <= k < |DefaultNames|
      ensures Lower(n) == DefaultNames[k] <==> EqualIgnoringCase(n, DefaultNames[k])
    {
      LowerFixesLowercase(DefaultNames[k]);
      LowerEqualIff(n, DefaultNames[k]);
    }
  }

  /** No default name contains an upper-case letter. */
  lemma DefaultNamesAreLowercase()
    ensures forall k, i :: 0 <= k < |DefaultNames| && 0 <= i < |DefaultNames[k]| ==> !IsUpper(DefaultNames[k][i])
  {
  }

  /** The classifier exactly: the flag wins whatever the name; without it,
      the name must match a default name ignoring case. */
  lemma Characterisation(a: Agent)
    ensures IsReluDefaultAgent(Some(a)) <==> IsFlagged(a) || NamedAsDefault(a.name)
  {
    if a.name.Some? {
      LoweredNameIsDefaultIff(a.name.value);
    }
  }

  /** Two agents with the same metadata whose names differ only in letter
      case are classified alike. */
  lemma CaseInsensitive(a: Agent, b: Agent)
    requires a.metadata == b.metadata
    requires a.name.Some? && b.name.Some? && EqualIgnoringCase(a.name.value, b.name.value)
    ensures IsReluDefaultAgent(Some(a)) == IsReluDefaultAgent(Some(b))
  {
    LowerEqualIff(a.name.value, b.name.value);
  }

  /** The classifier never reads the agent id. */
  lemma IgnoresAgentId(a: Agent, id: Option<string>)
    ensures IsReluDefaultAgent(Some(a.(agentId := id))) == IsReluDefaultAgent(Some(a))
  {
  }

  /** The callback given to `Array.find`: the agent's id is present and equal.
      An absent id is never strictly equal to a string. */
  predicate HasId(a: Agent, id: string): (matches: bool)
    ensures a.agentId.None? ==> !matches
    ensures a.agentId.Some? ==> (matches <==> a.agentId.value == id)
  {
    a.agentId == Some(id)
  }

  /** Index `k` holds the first agent with id `id`. */
  ghost predicate IsFirstMatch(agents: seq<Agent>, id: string, k: int) {
    && 0 <= k < |agents|
    && HasId(agents[k], id)
    && forall j :: 0 <= j < k ==> !HasId(agents[j], id)
  }

  /** `Array.find`: the first agent with id `id`, if any. */
  function Find(agents: seq<Agent>, id: string): (r: Option<Agent>)
    ensures r.None? <==> forall k :: 0 <= k < |agents| ==> !HasId(agents[k], id)
    ensures r.Some? ==> exists k :: IsFirstMatch(agents, id, k) && agents[k] == r.value
  {
    if agents == [] then None
    else if HasId(agents[0], id) then
      assert IsFirstMatch(agents, id, 0);
      Some(agents[0])
    else
      var r := Find(agents[1..], id);
      assert forall k :: IsFirstMatch(agents[1..], id, k) ==> IsFirstMatch(agents, id, k + 1);
      r
  }

  /** Whether `agentId` names the default agent among `agents`: no id (absent,
      null or empty) means the default agent. */
  function IsReluDefaultAgentId(agentId: Option<string>, agents: seq<Agent>): (r: bool)
    ensures agentId.None? || agentId == Some("") ==> r
    ensures agentId.Some? && agentId.value != "" && (forall k :: 0 <= k < |agents| ==> !HasId(agents[k], agentId.value)) ==> !r
  {
    match agentId
    case None => true
    case Some(id) => if id == "" then true else IsReluDefaultAgent(Find(agents, id))
  }

  /** For a non-empty id, the result is the classification of the first agent
      carrying that id. */
  lemma LookupClassifiesFirstMatch(id: string, agents: seq<Agent>, k: int)
    requires id != "" && IsFirstMatch(agents, id, k)
    ensures IsReluDefaultAgentId(Some(id), agents) == IsReluDefaultAgent(Some(agents[k]))
  {
  }

  /** Agents after the first match never influence the lookup. */
  lemma {:induction false} FindIgnoresLaterAgents(agents: seq<Agent>, more: seq<Agent>, id: string, k: int)
    requires IsFirstMatch(agents, id, k)
    ensures Find(agents + more, id) == Find(agents, id)
  {
    if !HasId(agents[0], id) {
      assert (agents + more)[1..] == agents[1..] + more;
      FindIgnoresLaterAgents(agents[1..], more, id, k - 1);
    }
  }

  /** Appending agents to a list that already holds the id leaves the
      id-based classification unchanged. */
  lemma LookupIgnoresLaterAgents(id: string, agents: seq<Agent>, more: seq<Agent>, k: int)
    requires IsFirstMatch(agents, id, k)
    ensures IsReluDefaultAgentId(Some(id), agents + more) == IsReluDefaultAgentId(Some(id), agents)
  {
    FindIgnoresLaterAgents(agents, more, id, k);
  }
}
