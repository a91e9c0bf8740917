# Default-agent classifier of the Relu mobile client

This project models the default-agent classifier of the mobile client's
agents module (`apps/mobile/lib/agents/index.ts`). The classifier decides
whether an agent record is the platform's built-in default ("Relu") agent.
It proves the classifier's behaviour in Dafny.

- `isReluDefaultAgent(agent)` becomes `DefaultAgent.IsReluDefaultAgent`.
  A missing agent (`null` or `undefined`, both `None` here) is not the default.
  If `metadata.is_relu_default` is truthy, the agent is the default whatever its name.
  Otherwise the agent is the default when its lower-cased name is `relu`,
  `superworker` or `relu super worker`.
- `isReluDefaultAgentId(agentId, agents)` becomes `DefaultAgent.IsReluDefaultAgentId`.
  An absent, `null` or empty id means the default agent. Otherwise the first
  agent in the list whose `agent_id` equals the id is classified, through
  `DefaultAgent.Find`, which models `Array.find`. If no agent has that id,
  the result is false.
- `String.prototype.toLowerCase` becomes `AsciiCase.Lower`, which lower-cases
  ASCII letters. It is proved to decide `AsciiCase.EqualIgnoringCase`, a
  character-by-character reference definition of "equal apart from letter case".

The specifications are stated against reference predicates that do not use
the functions they describe. `NamedAsDefault` says a name equals one of the
default names apart from case. `IsFirstMatch` says an index holds the first
agent with a given id.

The comment at apps/mobile/lib/agents/index.ts:41 reads "No agent ID = default
Relu". Its test `!agentId` is also true for the empty string, so the model
treats an empty id as no id, and so as the default agent.

## Model

| member | source | states |
|---|---|---|
| AsciiCase.LowerChar | apps/mobile/lib/agents/index.ts:27 | the lower-cased character is never an upper-case ASCII letter and is the input or its case partner |
| AsciiCase.Lower | apps/mobile/lib/agents/index.ts:27 | lower-casing keeps the length, lower-cases each character in place, and leaves no upper-case ASCII letter |
| AsciiCase.LowerCharEqualIff | apps/mobile/lib/agents/index.ts:27 | two characters lower-case alike exactly when they are case variants of each other |
| AsciiCase.LowerEqualIff | apps/mobile/lib/agents/index.ts:27 | two strings lower-case to the same string exactly when they are equal ignoring case (both directions) |
| AsciiCase.LowerIdempotent | apps/mobile/lib/agents/index.ts:27 | lower-casing twice is lower-casing once |
| AsciiCase.LowerFixesLowercase | apps/mobile/lib/agents/index.ts:27-30 | a string without upper-case letters, such as each literal it is compared with, is unchanged by lower-casing |
| DefaultAgent.DefaultNamesAreLowercase | apps/mobile/lib/agents/index.ts:28-30 | the three default names contain no upper-case letter |
| DefaultAgent.IsFlagged | apps/mobile/lib/agents/index.ts:24 | the truthiness of `metadata?.is_relu_default`: absent metadata, an absent flag and a false flag are all falsy; only a flag that is present and true counts |
| DefaultAgent.IsReluDefaultAgent | apps/mobile/lib/agents/index.ts:16-31 | a missing agent is never the default; a truthy flag makes any agent the default, whatever its name; an unflagged agent without a name is not the default |
| DefaultAgent.LoweredNameIsDefaultIff | apps/mobile/lib/agents/index.ts:27-30 | comparing the lower-cased name with the three names holds exactly when the name equals one of them ignoring case |
| DefaultAgent.Characterisation | apps/mobile/lib/agents/index.ts:21-30 | an agent is the default if and only if it is flagged or its name equals a default name ignoring case |
| DefaultAgent.CaseInsensitive | apps/mobile/lib/agents/index.ts:27 | agents with the same metadata whose names differ only in letter case get the same result |
| DefaultAgent.IgnoresAgentId | apps/mobile/lib/agents/index.ts:12-31 | changing only the agent id never changes the classification (no hard-coded ids) |
| DefaultAgent.HasId | apps/mobile/lib/agents/index.ts:42 | the `find` callback `a.agent_id === agentId`: an agent without an id never matches; an agent with an id matches exactly when the id equals the one sought |
| DefaultAgent.Find | apps/mobile/lib/agents/index.ts:42 | the lookup finds nothing exactly when no agent has the id; what it finds is the first agent with the id |
| DefaultAgent.IsReluDefaultAgentId | apps/mobile/lib/agents/index.ts:37-44 | an absent or empty id is the default for any list, the empty list included; a non-empty id no agent carries is not |
| DefaultAgent.LookupClassifiesFirstMatch | apps/mobile/lib/agents/index.ts:42-43 | for a non-empty id the result is the classification of the first agent carrying it |
| DefaultAgent.FindIgnoresLaterAgents | apps/mobile/lib/agents/index.ts:42 | agents appended after the first match never change what the lookup finds |
| DefaultAgent.LookupIgnoresLaterAgents | apps/mobile/lib/agents/index.ts:42-43 | appending agents to a list that already holds the id leaves the id-based result unchanged |

## Left out

- AsciiCase.Lower: models `toLowerCase` on ASCII letters only. JavaScript applies full Unicode case mapping. Under it some non-ASCII characters lower-case to ASCII letters; KELVIN SIGN (U+212A) becomes `k`, so a name spelled with it matches `superworker` in the source but not in the model. Strings are sequences of Dafny characters, not UTF-16 code units.
- DefaultAgent.IsFlagged: JavaScript truthiness of `metadata.is_relu_default` is modelled for the declared boolean type only. A non-boolean truthy value received at run time is not modelled.
- The re-exports of `./api` and `./hooks` (`agentKeys`, `useAgents`, `useAgent`, `useCreateAgent`, `useUpdateAgent`, `useDeleteAgent`, apps/mobile/lib/agents/index.ts:7-10) wrap a network API and a query cache. Their source is not part of this model: it is asynchronous I/O and cache plumbing.
- The prompt-editability rule in the agent instructions screen is a consumer of agent metadata, not part of the classifier. It reads only the metadata flag, not the name fallback, and is not part of this model.
- Logo components, page and layout metadata, site configuration, the setup step and the SDK constructor are markup, static data, secret generation and HTTP wiring. None of them is part of this model.
