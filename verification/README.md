# Verified model of the agent-governance services

This project models the decision-making core of the repository in Dafny and
proves what its services promise. It covers five components and the way they
meet:

* **Policies and their migration.** The two rule languages of the policy service
  (`Evaluator`), the translator from the legacy language to the advanced one
  (`Migrate`), and the theorem that translation preserves meaning, with the exact
  condition clause by clause and for either engine (`ClauseShapes`, `ClauseForms`,
  `ClauseLists`, `ClauseTheorem`, `ClauseSplit`, `ClauseStrays`, `OpaDialect`,
  `OpaReading`, `MigrationTheorem`). `Text`, `Counting`, `Numerals` and `Floats`
  stand for Rust's `str` and number parsing, and `NumeralText` says which texts are
  which numbers; `TimeText` and `TimeTheorem` for times
  of day and windows. `ClauseMeanings` reads off a clause's text what it says,
  `MigratedTexts` what the translator writes for it, and `PolicyAnswers` off lists
  and rule positions what a policy answers.
* **The causal graph store.** One append-only multigraph per workflow (`Ccg`), a
  verified acyclicity check (`Digraph`), drift paths (`DriftPath`), the store with
  its violation ledger (`GraphStore`), what holds over every run
  (`GraphTheorems`), where its nodes and edges come from (`Provenance`), and the
  service-level summary (`Slo`, and over runs `Reports`). `Json` is the trip of
  arguments from the proxy to the graph service.
* **The streaming inspectors.** The A2A and MCP event parsers over arbitrary
  chunks (`Sse`), and reading back what an event writer wrote (`SseRoundTrip`).
* **Canary rollouts.** The bucketing hash (`Bucket`), the policy store
  (`RolloutStore`), and handlers racing on the active-rollout gauge
  (`RolloutGauge`).
* **Enforcement.** The decision cache (`PolicyCache`), interleaved tool calls
  sharing it (`Enforcement`), one call from end to end with the nodes it writes
  and the ledger entries these make (`ToolCalls`), its answer and its record on
  the wire (`CallRecords`), and trace extraction
  (`ThinkingTrace`).

Objects the source updates in place are classes; each method states its new
state as a function of the old one, and the theorems are about those functions.
Finite floating-point numbers are reals; infinities and NaN are kept.

Findings the theorems make precise:

* A clause survives migration exactly under `ClauseTheorem.ClausePreserved`, a
  test on its text: an unquoted numeral or boolean tool name, another spelling of
  `action.tool ==`, an `in` list without its blank, a tier bound that is no u32
  numeral, and a clause that is dead in the legacy language but alive in the
  advanced one (`action.args.amount >= n`) all change meaning.
* The translator's default engine changes more: a tool named `input.agent.tier` is
  read back as one named `agent_tier`, and `input.agent.tier >= 3`, which is never
  true in the legacy language, comes alive.
* A single `&` before `AND` is pushed into the next clause. The evaluator still
  finds the condition's own clauses exactly when every such `&` has blanks around it
  and nothing else (`MigrationTheorem.ClausesKeptExactly`). Two in a row are a
  separator: `&AND&AND` is never true before migration and always true after.
* Rules keep their conditions but lose their time windows; one call notices
  exactly under `MigrationTheorem.LostWindowsExactly`.
* The OPA dialect reads back exactly unless the expression holds
  `input.agent.tier` or `input.action.args`: a narrower failing family than every
  text with `input.` in it.
* A denied call whose arguments are not an object leaves no violation, because
  the rule id has nowhere to travel. Neither does one whose action id the workflow
  already holds for a harmless node: the proxy's ids start again when it restarts,
  and the graph service keeps the node it has.
* The gauge can be negative while changes are outstanding.
* Two cache keys with one hash let one call pass on the other's answer.

## Model

| member | source | states |
|---|---|---|
| Migrate.QuoteLegacyLiterals | policy/src/bin/policy_migrate.rs:82-111 | the loop pushing rewritten clauses (`QuotePieces`) yields the joined rewriting of every `&&` piece |
| Migrate.MigrateExpression | policy/src/bin/policy_migrate.rs:67-80 | the translator computes the expression the meaning theorems are about, for both engines |
| MigratedTexts.ExpressionWritten | policy/src/bin/policy_migrate.rs:67-80 | the plain text is the quoted pieces with ` && ` between them, the OPA text the same with each of the three names in its `input.` form |
| MigratedTexts.EqualityWritten | policy/src/bin/policy_migrate.rs:82-93 | an equality on the tool is written with its operand as it stands if already quoted, a flag or a number, in double quotes otherwise |
| MigratedTexts.MembershipWritten | policy/src/bin/policy_migrate.rs:94-107 | a membership of the tool is written in brackets, each item so quoted, a comma and a blank apart |
| MigratedTexts.OtherWritten | policy/src/bin/policy_migrate.rs:108-111 | every other clause is written as it stands |
| MigratedTexts.PolicyWritten | policy/src/bin/policy_migrate.rs:22-40 | the policy keeps everything but its runtime and advanced rules, and each rule gets one advanced rule with id, description, action and confirmation |
| Text.JoinSplit | policy/src/bin/policy_migrate.rs:82-111 | splitting at one separator and joining with another is replacing the one by the other |
| Text.StripUnique | policy/src/evaluator.rs:364-366 | the trimmed text is the only bare middle between two ends made of stripped characters |
| Text.FindMeets | policy/src/evaluator.rs:250-260 | an operator is cut at its first occurrence, and reported missing only if it occurs nowhere |
| Numerals.U32IsF64 | policy/src/evaluator.rs:199-203 | every tier bound the legacy language reads is the same number in the advanced language |
| NumeralText.NumeralMeans | policy/src/evaluator.rs:310-312 | a signed decimal, with or without point and exponent, is read as the number its digits stand for |
| NumeralText.NumbersExactly | policy/src/evaluator.rs:310-312 | a text is read as a number iff it is such a numeral or one of the words for an infinity or no number |
| NumeralText.TiersExactly | policy/src/evaluator.rs:200-203 | a text is read as a tier iff it is that many in digits, perhaps after a plus, and fits 32 bits |
| NumeralText.DigitsJoin | policy/src/evaluator.rs:310-312 | digits count by their decimal places |
| NumeralText.MovedDown | policy/src/evaluator.rs:310-312 | moving the point down k places is dividing by k tens |
| ClauseForms.ToolIsExactly | policy/src/evaluator.rs:177-181 | for either engine: an equality clause and its translation agree in every context iff its operand passes a check on the text and reads back as it was |
| ClauseLists.ToolInExactly | policy/src/evaluator.rs:183-188 | for either engine: a membership clause and its translation agree in every context iff it is written with a blank, loses no bracket that matters and reads back as it was |
| ClauseForms.TierExactly | policy/src/evaluator.rs:199-203 | for either engine: a tier clause keeps its meaning iff its bound is a u32 numeral, or a numeral only the largest tier reaches |
| ClauseForms.AmountKeepsMeaning | policy/src/evaluator.rs:190-198 | for either engine: an amount clause with a numeral is translated to itself and means the same in every context |
| ClauseTheorem.DeadClauseExactly | policy/src/evaluator.rs:229-308 | a computable test on the clause alone, tiers included, decides whether an advanced clause is true in no context at all |
| ClauseTheorem.ClausePreservedExactly | policy/src/bin/policy_migrate.rs:67-125 | for every trimmed clause and either engine: it and its migrated form agree in every context iff the check on the clause passes |
| ClauseTheorem.NamedToolIsRenamed | policy/src/bin/policy_migrate.rs:54-80 | `action.tool == input.agent.tier` keeps its meaning in the plain dialect and loses it in the OPA dialect |
| ClauseTheorem.DeadTierComesAlive | policy/src/evaluator.rs:208-217 | `input.agent.tier >= 3` is never true in the legacy language or the plain dialect, and true of exactly the tiers from 3 in the OPA dialect |
| ClauseMeanings.ComparisonExactly | policy/src/evaluator.rs:229-364 | around any of the six operators: a clause holds iff its operand denotes a value of which the comparison says so, with numbers, flags and texts each spelled out |
| ClauseMeanings.MembershipExactly | policy/src/evaluator.rs:229-241 | a membership clause holds iff its operand denotes a value that reads as an item of the list |
| ClauseMeanings.PlainClauseNever | policy/src/evaluator.rs:229-248 | without membership and operator a clause never holds |
| ClauseMeanings.ListIs | policy/src/evaluator.rs:183-188 | outer blanks and any number of brackets are no part of a list |
| ClauseMeanings.LegacyToolIn | policy/src/evaluator.rs:183-188 | a legacy membership clause holds iff the tool is an item, peeled of blanks and quotes |
| ClauseMeanings.LegacyAmount | policy/src/evaluator.rs:190-198 | a legacy amount clause holds iff the amount is a number above the bound, and never for a bound that is no numeral |
| ClauseMeanings.LegacyTier | policy/src/evaluator.rs:200-203 | a legacy tier clause holds iff the tier reaches the bound, or the highest tier there is for a bound that is none |
| MigrationTheorem.SplitSafeExactly | policy/src/bin/policy_migrate.rs:67-111 | blank pieces counted, the migrated text is cut into the same pieces iff no single `&` stands before an `AND`; the evaluator drops blank pieces, for which see ClausesKeptExactly |
| MigrationTheorem.MigratedClauses | policy/src/bin/policy_migrate.rs:67-111 | for every condition and either engine, the clauses the evaluator finds in the migrated expression are the translations of the pieces the translator cut, in order |
| MigrationTheorem.ClausesKeptExactly | policy/src/evaluator.rs:219-227 | they are the translations of the condition's own clauses, blanks dropped, iff every `&` before an `AND` stands alone |
| MigrationTheorem.StrayPairIsLost | policy/src/bin/policy_migrate.rs:67-80 | `&AND&AND` is true in no context, and its migrated form in every one, for either engine |
| ClauseStrays.AmpersandsKept | policy/src/bin/policy_migrate.rs:82-125 | translating a clause neither adds nor loses an `&` |
| MigrationTheorem.OneClauseExactly | policy/src/evaluator.rs:126-136 | for either engine: a one-clause condition keeps its meaning in every context iff its clause passes the check |
| MigrationTheorem.ConditionKeepsMeaning | policy/src/evaluator.rs:170-175 | a condition whose clauses pass the check is true in a context iff its migrated expression is, for either engine |
| MigrationTheorem.MigrationPreservesMeaning | policy/src/bin/policy_migrate.rs:8-45 | the migrated policy in advanced mode gives the original's legacy-mode result, errors included, for every context and either engine |
| MigrationTheorem.LostWindowsExactly | policy/src/evaluator.rs:65-124 | with conditions preserved, a call is decided otherwise after migration iff the first matching rule's window excludes it and asks for another action |
| PolicyAnswers.UnknownAgentExactly | policy/src/evaluator.rs:70-76 | a call is refused for its agent iff no agent has the name |
| PolicyAnswers.ListsBlockExactly | policy/src/evaluator.rs:76-83 | a known agent is blocked under no rule iff the tool is on its blocked list, or it has an allow list without the tool; threshold, fallback and confirmation are given |
| PolicyAnswers.FirstAdvancedRuleDecides | policy/src/evaluator.rs:84-104 | flag and engine on: the advanced rule at the first matching position gives action, id and confirmation |
| PolicyAnswers.FirstLegacyRuleDecides | policy/src/evaluator.rs:106-118 | no advanced rule speaking: the legacy rule at the first matching position gives them, or what it says for a missed window, or Block |
| PolicyAnswers.SilentRulesAllow | policy/src/evaluator.rs:118-124 | a call no rule speaks to is allowed under no rule |
| MigrationTheorem.DeadRulesFallBack | policy/src/evaluator.rs:84-118 | for either engine, a policy whose every rule has a dead clause among those the evaluator finds after migration still decides every call as before, by its legacy rules: why the meaning theorem has no converse |
| MigrationTheorem.MigrationIsBackwardCompatible | policy/src/evaluator.rs:84-104 | with the feature flag off a migrated policy behaves as the original |
| MigrationTheorem.OpaReadsBack | policy/src/evaluator.rs:208-217 | for every condition, the evaluator turns its OPA form back into the plain form iff the condition holds neither of the two texts |
| OpaDialect.OpaRoundTripExactly | policy/src/evaluator.rs:208-217 | for all expressions, literals included: writing in the OPA dialect and reading back is the identity iff neither `input.agent.tier` nor `input.action.args` occurs |
| OpaDialect.DialectAsModes | policy/src/bin/policy_migrate.rs:75-79 | read as characters and names, an expression is written with every name in its `input.` form and nothing else changed |
| OpaReading.DialectReadsBack | policy/src/evaluator.rs:208-217 | and for every expression it is two replacements, of those two texts and no others |
| TimeTheorem.ClockReadsBack | policy/src/evaluator.rs:380-404 | the proxy's `HH:MM`, bare or with ` UTC`, parses to the minute of the day |
| TimeTheorem.TimestampReadsBack | policy/src/evaluator.rs:380-394 | a date, a `T` and the clock parse to the minute of the day whatever follows the minutes, so an offset is ignored |
| TimeTheorem.HhmmExactly | policy/src/evaluator.rs:396-404 | any hours and minutes: a product that does not fit saturates, a sum that does not fit wraps, and an unreadable part makes the time unreadable |
| TimeTheorem.UndatedTime | policy/src/evaluator.rs:380-394 | without a date, a `T` and a digit, blanks and closing `UTC`s are dropped and the rest is read as it stands |
| TimeTheorem.WindowIsCyclic | policy/src/evaluator.rs:368-378 | a time is inside a window iff it lies on the forward walk from start to end around the day, for a day of any length with room for the three |
| TimeTheorem.UnreadableIsInside | policy/src/evaluator.rs:368-378 | a time or a bound that cannot be read puts every time inside |
| TimeTheorem.WindowMattersExactly | policy/src/evaluator.rs:151-168 | a rule decides alike at all times iff it has no window, or the outside action is its own, or its window leaves no time out |
| Digraph.IsAcyclic | graph/src/algorithms.rs:7-10 | the check says yes iff the graph has no directed cycle, self-loops included |
| Digraph.AddedArc | graph/src/algorithms.rs:7-10 | adding an arc to an acyclic graph closes a cycle iff its head already reaches its tail |
| Ccg.CausalGraph.UpsertNode | graph/src/ccg.rs:89-96 | the first write under an id wins and its index is returned |
| Ccg.CausalGraph.AddEdgeById | graph/src/ccg.rs:98-116 | an edge is added iff both ids are known; otherwise nothing changes and the first unknown id is named |
| Ccg.CausalGraph.LatestActionNode | graph/src/algorithms.rs:74-92 | the scan finds the highest-index action node of the agent |
| Ccg.CausalGraph.LinkHandoff | graph/src/algorithms.rs:12-26 | an edge from the agent's latest action into the handoff, or nothing if the agent has not acted |
| Ccg.CausalGraph.ValidateDag | graph/src/algorithms.rs:7-10 | the answer is whether the graph is acyclic |
| Ccg.LatestActionIs | graph/src/algorithms.rs:74-92 | the latest action is an action of that agent and none with a higher index is |
| Ccg.EdgeClosesCycle | graph/src/store.rs:167-194 | a new edge keeps a graph acyclic iff its target does not reach its source |
| Ccg.FreshHandoffIsAcyclic | graph/src/store.rs:146-158 | linking the latest action to a fresh handoff never closes a cycle |
| DriftPath.CollectEarliestPath | graph/src/algorithms.rs:42-72 | the recursion over visited set and path appends `EarliestIds`, described by EarliestIdsAreDriftPath, and marks exactly the chain as visited |
| DriftPath.TraceDriftPath | graph/src/algorithms.rs:28-40 | an error for an unknown id, else the ids of a trail that ends at it, without the verifications below the threshold and with all others |
| DriftPath.EarliestIdsAreDriftPath | graph/src/algorithms.rs:42-72 | what the recursion appends are the ids at exactly those places of a least-parent trail where the node is no verification or deviates by the threshold at least, in the trail's order |
| DriftPath.ChainIsTrail | graph/src/algorithms.rs:42-72 | on any graph the chain follows least-index parents, repeats no node and stops only where it must |
| DriftPath.DriftChain | graph/src/algorithms.rs:42-72 | no other sequence is such a chain, and on an acyclic graph it starts at a node without parents |
| DriftPath.HigherThresholdKeepsLess | graph/src/algorithms.rs:60-68 | raising the threshold yields a subsequence |
| GraphStore.GraphStore.InsertNode | graph/src/store.rs:132-165 | the whole new state and the result of an insert, every error path included, and that all graphs stay sound and acyclic; what is stored and linked is read off the requests by the Provenance rows |
| GraphStore.GraphStore.LinkEdge | graph/src/store.rs:167-194 | the effect on some graph the scan may stop at, or an error that changes nothing when there is none |
| GraphStore.GraphStore.CleanupExpired | graph/src/store.rs:271-275 | exactly the graphs idle for longer than the time-to-live go, and no violation does |
| GraphStore.GraphStore.CaptureViolationIfNeeded | graph/src/store.rs:380-432 | the ledger gains the record of the stored node iff that node is an offence |
| GraphTheorems.InsertAcceptedExactly | graph/src/store.rs:132-165 | an insert succeeds iff it has a payload and a type code from 0 to 3 and is not a handoff (code 2) already stored that reaches its agent's last action |
| GraphTheorems.FreshInsertAccepted | graph/src/store.rs:132-165 | a fresh id is never turned away as a cycle |
| GraphTheorems.RejectedInsertKeeps | graph/src/store.rs:132-158 | a rejected insert changes no existing graph and no violation, adds at most one empty graph, and says whether payload, type or a cycle was the reason |
| GraphTheorems.AcceptedInsertKeeps | graph/src/store.rs:132-165 | an accepted insert touches only its own graph, only appends there, and leaves the first-written node under its id |
| GraphTheorems.LinkAcceptedExactly | graph/src/store.rs:167-194 | on the chosen graph linking succeeds iff the code is 0, 1 or 2, both ids are known and the target does not reach the source; it then appends that edge with the kind of the code; an error changes nothing and names type, first unknown id or cycle |
| GraphTheorems.EveryGraphAcyclic | graph/src/store.rs:132-194 | in every state of every run of inserts, links and expiries every graph is sound and acyclic |
| GraphTheorems.LedgerCounts | graph/src/store.rs:380-432 | on every run the ledger's length is the number of accepted inserts whose stored node is an offence, whatever expired |
| GraphTheorems.LedgerAppendOnly | graph/src/store.rs:271-279 | on every run an earlier ledger is a prefix of every later one |
| GraphTheorems.EveryEntryWasRecorded | graph/src/store.rs:380-432 | every ledger entry of every run names the node, rule, score, threshold and graph snapshot of the insert that made it: a blocked verification at 0.7 or a blocked action that names a rule at 1 |
| Provenance.NodesAreFirstInserts | graph/src/store.rs:532-602 | on every run a workflow's nodes are, one by one and in order, the accepted requests that first brought their ids since the graph was last removed, each with id, agent, workflow, kind by code and payload field by field |
| Provenance.HandoffsAreInformed | graph/src/algorithms.rs:12-26 | on every run an accepted handoff adds exactly one InformedBy edge, from the last of those requests that is an action (code 1) of its agent, to the node of its id, or none if there is no such request; any other insert adds none, and other workflows stay |
| Provenance.ResponseIsWhole | graph/src/store.rs:452-530 | on every run a graph is shown whole, node by node and edge by edge, each with its names and fields |
| Json.ValueRoundTrip | graph/src/store.rs:637-649 | arbitrarily nested values come back with nothing but integers rewritten as floats |
| Json.ArgumentsRoundTrip | proxy/src/enforcement.rs:596-635 | an object comes back unchanged iff it holds no integer; anything else arrives as the empty object |
| Json.WireRoundTrip | graph/src/store.rs:637-649 | the other way round, a wire value comes back with nothing but unset kinds and numbers JSON cannot hold turned to null |
| Json.StructRoundTrip | graph/src/store.rs:626-635 | the same for a struct, and no struct is the empty object |
| Slo.NearestRank | graph/src/store.rs:442-450 | at least the fraction p of the samples are at or below the percentile, less than that strictly below |
| Slo.PercentileEnds | graph/src/store.rs:442-450 | fractions outside the range read the first sample or the last, and no samples read 0 |
| Slo.PercentilesAscend | graph/src/store.rs:442-450 | a larger fraction never gives a smaller percentile |
| Slo.Partition | graph/src/store.rs:316-340 | allowed, blocked and pending add up to all action nodes |
| Slo.CountAll | graph/src/store.rs:316-340 | the nested loops count every action by status and collect every positive latency |
| Slo.SamplesAre | graph/src/store.rs:330-337 | each latency above zero is sampled as often as a verification took so long, and zero never |
| Slo.ReviewCountIs | graph/src/store.rs:349-358 | the records counted for review are those below the top threshold that lie within the margin above their own |
| Reports.SummaryOfRun | graph/src/store.rs:308-378 | on every run: actions counted by status, the blocked share of all, and a review asked for exactly the blocked verifications that deviate by 0.7 up to the margin beyond, denials never among them |
| Reports.EntriesAreOfTwoKinds | graph/src/store.rs:390-420 | on every run an entry has threshold 0.7, or threshold and score 1 |
| Slo.SortSamples | graph/src/store.rs:341 | the samples in ascending order, none lost |
| Slo.SloSummary | graph/src/store.rs:308-378 | every field of the summary, and p50 <= p95 <= p99 |
| Slo.SummaryIgnoresOrder | graph/src/store.rs:316-340 | a state has one summary whatever order the hash map is scanned in |
| Sse.A2aSseInspector.PushChunk | proxy/src/a2a/http.rs:276-289 | the inspector's new state and output for any chunk, whose meaning is that of EventsReadBack |
| Sse.A2aSseInspector.PushLine | proxy/src/a2a/http.rs:303-318 | one line's effect on event name, data and output; over whole texts, that of EventsReadBack |
| Sse.A2aSseInspector.FlushEvent | proxy/src/a2a/http.rs:320-333 | the data is handed on iff the event is `task_status`, and the event is cleared |
| Sse.A2aSseInspector.FinishStream | proxy/src/a2a/http.rs:291-301 | what the end of the stream hands on |
| Sse.McpSseInspector.PushChunk | proxy/src/mcp/http.rs:194-207 | the same machine without event names |
| Sse.McpSseInspector.FinishStream | proxy/src/mcp/http.rs:209-219 | what the end of the stream hands on |
| Sse.FedIsParsed | proxy/src/a2a/http.rs:276-289 | after any chunks the inspector stands where the complete lines so far put it, with the rest pending |
| Sse.ChunkingInvariance | proxy/src/mcp/http.rs:193-242 | for every text and every way of cutting it, final state and output are those of parsing it at once, for both inspectors |
| SseRoundTrip.EventsReadBack | scripts/fixture_agent.py:67-97 | any events of name, data and other lines in any order (comments, `id:`, `retry:`, and for MCP `event:`), fields with or without blanks around the value, LF or CRLF on any line, the last event perhaps not closed, fed in any chunks: exactly the data of the events listened to is handed on, in order, and the inspector ends fresh |
| SseRoundTrip.UnclosedEventReadBack | proxy/src/a2a/http.rs:291-301 | the same when the stream breaks off before the newline of its last line, whatever line that is |
| SseRoundTrip.BlankEndReadBack | proxy/src/a2a/http.rs:291-301 | and when only blanks follow the last newline, which then stay pending |
| SseRoundTrip.EveryLineHasAForm | proxy/src/a2a/http.rs:303-318 | a line of any text is blank, a field, or one of the lines ignored, so the three theorems cover every text |
| Bucket.Bucket0To99 | policy/src/store.rs:204-211 | the loop over the seed's bytes computes the hash the theorems are about, modulo 100 |
| Bucket.KnownHashes | policy/src/store.rs:204-211 | the hash of the empty seed and of one letter, as numbers |
| Bucket.XorBits | policy/src/store.rs:204-211 | the exclusive or of a round, bit by bit |
| Bucket.RoundIsBijective | policy/src/store.rs:204-211 | for each byte a hash round is a bijection on 64-bit states |
| Bucket.OneByteChangesHash | policy/src/store.rs:204-211 | seeds differing in one byte never share a 64-bit hash |
| RolloutStore.PolicyStore.Insert | policy/src/store.rs:61-91 | the policy becomes stable and history gains one item, `initial` for a first version |
| RolloutStore.PolicyStore.StartRollout | policy/src/store.rs:93-128 | the whole new state, and each error with nothing changed |
| RolloutStore.PolicyStore.StopRollout | policy/src/store.rs:140-142 | the rollout is gone, and whether there was one |
| RolloutStore.PolicyStore.PromoteRollout | policy/src/store.rs:144-152 | the candidate is inserted as stable and the rollout ends, or an error with nothing changed |
| RolloutStore.PolicyStore.ResolveForEvaluation | policy/src/store.rs:154-166 | none for an unknown name; the candidate iff a rollout is active and the key's hash modulo 100 is below the percentage; else the stable policy |
| RolloutStore.InsertKeepsValid | policy/src/store.rs:61-91 | the store invariant holds after an insert: history ends at the stable version and only its first entry is `initial` |
| RolloutStore.StartKeepsValid | policy/src/store.rs:93-128 | the invariant holds after a start: stable policy present, candidate of that name, percentage in 1..100 |
| RolloutStore.StartedExactly | policy/src/store.rs:93-128 | a start succeeds iff percentage, candidate name and stable policy are in order, unknown names are reported only after the other two, and the rollout holds candidate, percentage, time and the version that is stable then |
| RolloutStore.InsertRecords | policy/src/store.rs:61-91 | an insert adds one history item that tells a first version, an unchanged text or the two lengths, and touches no other history and no rollout |
| RolloutStore.PromoteNeverFails | policy/src/store.rs:144-152 | promoting an active rollout succeeds and makes its candidate stable; without one it changes nothing |
| RolloutStore.RaisingMovesOneWay | policy/src/store.rs:154-166 | raising the percentage moves keys only from stable to candidate, and 100 moves all |
| RolloutStore.StopUndoesStart | policy/src/store.rs:93-142 | stopping after a start restores the store iff no rollout was active before |
| RolloutGauge.GaugeConserved | policy/src/main.rs:339-366 | over all interleavings of handlers and reloads, gauge plus changes not yet recorded is 1 if a rollout is active and 0 otherwise |
| RolloutGauge.GaugeIsTrueExactly | policy/src/main.rs:339-366 | the gauge is the truth iff the changes not yet recorded cancel out |
| RolloutGauge.QuiescentGaugeIsTrue | policy/src/main.rs:398-417 | with nothing left to record the gauge is the truth |
| RolloutGauge.GaugeCanLag | policy/src/main.rs:457-479 | a run in which the gauge reads -1 |
| PolicyCache.PolicyCache.Get | proxy/src/policy_cache.rs:34-43 | the entry's decision iff one is held that is at most the time-to-live old, else none, with an expired entry dropped |
| PolicyCache.PolicyCache.Insert | proxy/src/policy_cache.rs:45-55 | the entry under the key's hash is replaced |
| PolicyCache.GetIsLatestLivePut | proxy/src/policy_cache.rs:34-55 | after any uses a lookup returns exactly the latest insert under that hash, if it is at most the time-to-live old |
| Enforcement.AllowExactly | proxy/src/circuit_breaker.rs:31-68 | allow iff the policy allows, a trace or allowlisting is there, and the verifier passes or is absent under the ALLOW fallback |
| Enforcement.EveryAllowIsJustified | proxy/src/enforcement.rs:83-198 | over all interleavings sharing the cache, an allowed call met a policy error while failing open, or has an allowing answer for its hash, given to it or at most the time-to-live old, and for its very key if the hash keeps the keys apart |
| Enforcement.EveryJustifiedCallIsAllowed | proxy/src/enforcement.rs:83-198 | and no finished call that is so justified is blocked or queued |
| Enforcement.DecideExactly | proxy/src/circuit_breaker.rs:31-69 | the breaker for all its arguments, a closed time window included: when it allows and when it queues |
| Enforcement.DecisionIsAnswer | proxy/src/circuit_breaker.rs:31-69 | one outcome answers decision and score, on the wire code of the fallback: 1 allows, 2 queues, any other blocks when there is no score |
| Enforcement.EveryOutcomeIsTheAnswer | proxy/src/enforcement.rs:382-415 | over all interleavings a finished call was finished by one event: a policy error, answered by failing closed or allowing, or two attempts at the verifier, the second counting only after the first and under code 2, and its outcome is the answer to decision and score |
| Enforcement.CollidingKeysMislead | proxy/src/policy_cache.rs:64-70 | two keys with one hash: a call is allowed though its own key was never granted |
| ToolCalls.EvaluateToolCall | proxy/src/enforcement.rs:38-255 | outcome, cache and store after one call, as functions of replies, clocks and which requests arrive |
| CallRecords.OutcomeIsAnswer | proxy/src/enforcement.rs:48-62 | for any arguments, decision and replies: the outcome is the answer in these terms, with the trace cut from the first of three argument fields that is there |
| CallRecords.CacheAfterCall | proxy/src/enforcement.rs:83-129 | a held entry at most the time-to-live old is used and kept; otherwise the reply is used and stored, and without one an expired entry is dropped |
| CallRecords.CallIsRecorded | proxy/src/enforcement.rs:138-226 | under new ids, whichever requests are lost: the workflow's graph gains exactly the trace, the action with its status and arguments and the verdict on it that arrive, in this order, and the edge from action to verdict when both and the link arrive; other graphs stay |
| ToolCalls.CallLedger | proxy/src/enforcement.rs:138-226 | under any ids, what one call adds to the ledger, read off the workflow's graph before it: a held id enters what its first node is, whichever requests are lost |
| ToolCalls.FreshCallLedger | proxy/src/enforcement.rs:138-226 | under new ids these are exactly the entries of the call's outcome, in order |
| ToolCalls.DenialLedger | proxy/src/enforcement.rs:138-158 | under any ids, what a denial adds: the held node's entry, or the denying rule when the arguments are an object and the rule has an id |
| ToolCalls.DenialIsRecordedExactly | graph/src/store.rs:380-432 | a denial enters its own rule and action iff the action id is new and the rule can travel, or the id is held by an offence of the same rule |
| ToolCalls.RestartLosesDenial | proxy/src/enforcement.rs:571-573 | ids drawn again after an allowed call: a later denial in that workflow leaves no entry |
| ThinkingTrace.ExtractionInverts | proxy/src/thinking_trace.rs:24-67 | extraction inverts wrapping a trimmed trace and action, in both modes, iff the trace holds no closing tag |
| ThinkingTrace.ExtractExactly | proxy/src/thinking_trace.rs:24-67 | whatever stands before the first opening tag, the trace is the text up to the first closing tag and the action what follows, both trimmed, and absent when empty |
| ThinkingTrace.UntaggedIsNothing | proxy/src/thinking_trace.rs:24-67 | without its tags a text holds no trace in either mode, and none is looked for in the third |

## Left out

- MigrationTheorem.MigrationPreservesMeaning: one way for whole policies, because a changed clause can be masked by another clause that is false, by an earlier rule, or by the legacy rules, which stay as a fallback (DeadRulesFallBack); clause, one-clause condition, clause splitting, OPA dialect and time windows each have their exact condition.
- MigrationTheorem.ConditionKeepsMeaning: one way for conditions of several clauses, for the same masking; OneClauseExactly is exact for one clause under either engine.
- Enforcement.EveryAllowIsJustified: an answer for the very key only if the hash keeps the calls' keys apart; CollidingKeysMislead shows what happens otherwise.
- ToolCalls.EvaluateToolCall: runs one call without others in between; interleavings are those of Enforcement. The arguments' text form, the word count of a trace and the ids are parameters, and response bodies are not built.
- Floating-point rounding and overflow, and integers beyond 2^53 losing precision on the way through protobuf; `Display` for f64 is any function that writes a whole number in the range of tiers as its decimal digits.
- Scrubbing personal data, YAML rendering for history diffs, and the standard hasher are any functions.
- SSE chunks are texts: a multibyte character split between two chunks is not modelled.
- petgraph's topological sort is replaced by a check of its own with the same answer. The iteration order of hash maps is any order.
- Graphs in the store's map are values, copied into a graph object while an operation works on it. Each store operation reads the clock once.
- The rollout key is any byte string; how a request is turned into one is not modelled. Persisting the history to disk is left out.
- CausalGraph.From, node listings, filters, CSV export, graph files, agent cards and the poisoning scan: simple readings of the state.
- gRPC, HTTP, TLS, tokens, telemetry, alerts and file watching; policy, MCP and A2A message parsing. Replies are parameters, and documents start parsed.
