/** One tool call from end to end: the proxy's decision, the cache it leaves and
    the nodes it writes into the graph service's store: proxy/src/enforcement.rs. */
module ToolCalls {
  import opened Options
  import opened Floats
  import opened Numerals
  import opened Json
  import opened ThinkingTrace
  import PolicyCache
  import Enforcement
  import opened Ccg
  import opened GraphStore
  import Runs = GraphTheorems

  type PolicyDecision = PolicyCache.PolicyDecision

  datatype Config = Config(
    agentId: string, policyId: string, traceMode: TraceMode, failClosed: bool, allowWithoutTrace: seq<string>)

  /** `argsText` is the text form of the arguments, a part of the cache key. */
  datatype ToolCall = ToolCall(workflowId: string, name: string, arguments: Option<Json>, argsText: string)

  datatype Scored = Scored(score: Float, model: string, latencyMs: u32)

  /** What the policy service and the two attempts at the verifier answer, if asked. */
  datatype Replies = Replies(policy: Option<PolicyDecision>, first: Option<Scored>, second: Option<Scored>)

  /** The ids drawn for the nodes, and the trace's word count. */
  datatype Ids = Ids(action: string, thinking: string, trace: string, verification: string, words: u32)

  /** When the graph service carries out each request; None for one that is lost. */
  datatype Arrivals = Arrivals(thinking: Option<Now>, action: Option<Now>, verification: Option<Now>, link: Option<Now>)

  function ArgsOf(call: ToolCall): Json {
    if call.arguments.Some? then call.arguments.value else JObject(map[])
  }

  function KeyOf(call: ToolCall, config: Config): PolicyCache.CacheKey {
    PolicyCache.CacheKey(config.agentId, call.name, call.argsText)
  }

  function Field(args: Json, name: string): Option<Json> {
    if args.JObject? && name in args.fields then Some(args.fields[name]) else None
  }

  /** The first of three fields that is there, if it is a string. */
  function ContentOf(args: Json): string {
    var found :=
      if Field(args, "thinking").Some? then Field(args, "thinking")
      else if Field(args, "trace").Some? then Field(args, "trace")
      else Field(args, "content");
    if found.Some? && found.value.JString? then found.value.text else ""
  }

  function TraceOf(call: ToolCall, config: Config): Option<string> {
    Extract(config.traceMode, ContentOf(ArgsOf(call))).trace
  }

  function Abstract(call: ToolCall, config: Config): Enforcement.Call {
    Enforcement.Call(KeyOf(call, config), TraceOf(call, config).Some?, call.name in config.allowWithoutTrace)
  }

  // ----- The nodes a call writes -----

  function ThinkingNode(call: ToolCall, config: Config, ids: Ids, trace: string): ProtoNode {
    ProtoNode(ids.thinking, 0, config.agentId, call.workflowId, Some(ProtoThinking(ids.trace, trace, "agent", ids.words)))
  }

  function ActionNode(call: ToolCall, config: Config, ids: Ids, args: Json, status: int): ProtoNode {
    ProtoNode(ids.action, 1, config.agentId, call.workflowId,
              Some(ProtoAction("tool_call", call.name, Some(JsonToStruct(args)), status)))
  }

  function VerificationNode(call: ToolCall, config: Config, ids: Ids, scored: Scored, status: int): ProtoNode {
    ProtoNode(ids.verification, 3, config.agentId, call.workflowId,
              Some(ProtoVerification(ids.action, scored.score, config.policyId, status, scored.model, scored.latencyMs)))
  }

  /** A denial names its rule inside the arguments, when they are an object. */
  function BlockedArgs(args: Json, ruleId: string): Json {
    if args.JObject? then JObject(args.fields["__policy_rule_id" := JString(ruleId)]) else args
  }

  function StatusFor(decision: Enforcement.Decision): int {
    if decision == Enforcement.Allow then 1 else 2
  }

  function ScoreOf(scored: Option<Scored>): Option<Float> {
    if scored.Some? then Some(scored.value.score) else None
  }

  /** The verifier is asked only when the policy allows. */
  function ScoredFor(d: PolicyDecision, replies: Replies): Option<Scored> {
    if d.allowed then Enforcement.ScoreWithRetry(replies.first, replies.second, Enforcement.MapFallback(d.fallback)) else None
  }

  /** The requests that reach the graph service, in the order they do. */
  function Delivered(proto: ProtoNode, at: Option<Now>): seq<Runs.Op> {
    if at.Some? then [Runs.Insert(proto, at.value)] else []
  }

  function LinkDelivered(edge: ProtoEdge, at: Option<Now>): seq<Runs.Op> {
    if at.Some? then [Runs.Link(edge, at.value)] else []
  }

  function ThinkingOps(call: ToolCall, config: Config, ids: Ids, at: Arrivals): seq<Runs.Op> {
    match TraceOf(call, config)
    case None => []
    case Some(trace) => Delivered(ThinkingNode(call, config, ids, trace), at.thinking)
  }

  function DenialOps(call: ToolCall, config: Config, ids: Ids, at: Arrivals, ruleId: string): seq<Runs.Op> {
    Delivered(ActionNode(call, config, ids, BlockedArgs(ArgsOf(call), ruleId), 2), at.action)
  }

  function VerdictOps(call: ToolCall, config: Config, ids: Ids, at: Arrivals, scored: Option<Scored>, status: int): seq<Runs.Op> {
    Delivered(ActionNode(call, config, ids, ArgsOf(call), status), at.action) +
    match scored
    case None => []
    case Some(s) =>
      Delivered(VerificationNode(call, config, ids, s, status), at.verification) +
      LinkDelivered(ProtoEdge(ids.action, ids.verification, 2), at.link)
  }

  /** `decision` is None when the policy service failed. */
  function CallOps(call: ToolCall, config: Config, ids: Ids, at: Arrivals, decision: Option<PolicyDecision>, scored: Option<Scored>): seq<Runs.Op> {
    ThinkingOps(call, config, ids, at) +
    match decision
    case None => []
    case Some(d) =>
      if !d.allowed then DenialOps(call, config, ids, at, d.ruleId)
      else VerdictOps(call, config, ids, at, scored, StatusFor(Enforcement.DecisionFor(Abstract(call, config), d, ScoreOf(scored))))
  }

  // ----- Running requests through the store -----

  /** The store goes from one state to the other by these operations, whatever the
      scans choose. */
  ghost predicate Leads(st: State, ops: seq<Runs.Op>, st': State, ttl: nat, scrub: Scrub)
    decreases |ops|
  {
    if ops == [] then st' == st
    else
      var last := |ops| - 1;
      exists mid :: Leads(st, ops[..last], mid, ttl, scrub) && Runs.Next(mid, ops[last], st', ttl, scrub)
  }

  lemma LeadsOneMore(st: State, ops: seq<Runs.Op>, mid: State, op: Runs.Op, st': State, ttl: nat, scrub: Scrub)
    requires Leads(st, ops, mid, ttl, scrub) && Runs.Next(mid, op, st', ttl, scrub)
    ensures Leads(st, ops + [op], st', ttl, scrub)
  {
    assert (ops + [op])[..|ops|] == ops;
  }

  method Send(graph: GraphStore, proto: ProtoNode, at: Option<Now>, ghost start: State, ghost sent: seq<Runs.Op>)
    requires graph.View().Valid() && Leads(start, sent, graph.View(), graph.ttl, graph.scrub)
    modifies graph
    ensures graph.View().Valid() && Leads(start, sent + Delivered(proto, at), graph.View(), graph.ttl, graph.scrub)
  {
    assert sent + [] == sent;
    if at.Some? {
      ghost var mid := graph.View();
      var _ := graph.InsertNode(proto, at.value);
      LeadsOneMore(start, sent, mid, Runs.Insert(proto, at.value), graph.View(), graph.ttl, graph.scrub);
    }
  }

  method SendLink(graph: GraphStore, edge: ProtoEdge, at: Option<Now>, ghost start: State, ghost sent: seq<Runs.Op>)
    requires graph.View().Valid() && Leads(start, sent, graph.View(), graph.ttl, graph.scrub)
    modifies graph
    ensures graph.View().Valid() && Leads(start, sent + LinkDelivered(edge, at), graph.View(), graph.ttl, graph.scrub)
  {
    assert sent + [] == sent;
    if at.Some? {
      ghost var mid := graph.View();
      var _ := graph.LinkEdge(edge, at.value);
      LeadsOneMore(start, sent, mid, Runs.Link(edge, at.value), graph.View(), graph.ttl, graph.scrub);
    }
  }

  // ----- The call -----

  /** The decision a call acts on: a live cached one, or the policy service's. */
  function Held(entries: PolicyCache.Entries, h: int, ttl: nat, now: nat, replies: Replies): Option<PolicyDecision> {
    var hit := PolicyCache.Found(entries, h, ttl, now);
    if hit.Some? then hit else replies.policy
  }

  /** A reply is stored; a hit stores nothing. */
  function Kept(entries: PolicyCache.Entries, h: int, ttl: nat, now: nat, later: nat, replies: Replies): PolicyCache.Entries {
    var looked := PolicyCache.Looked(entries, h, ttl, now);
    if PolicyCache.Found(entries, h, ttl, now).None? && replies.policy.Some?
    then looked[h := PolicyCache.Entry(replies.policy.value, later)]
    else looked
  }

  function OutcomeFor(call: ToolCall, config: Config, decision: Option<PolicyDecision>, scored: Option<Scored>): Enforcement.Outcome {
    match decision
    case None => if config.failClosed then Enforcement.FailedClosed else Enforcement.Decided(Enforcement.Allow)
    case Some(d) => Enforcement.Decided(Enforcement.DecisionFor(Abstract(call, config), d, ScoreOf(scored)))
  }

  function ScoredIn(decision: Option<PolicyDecision>, replies: Replies): Option<Scored> {
    if decision.Some? then ScoredFor(decision.value, replies) else None
  }

  /** The cached decision, or the policy service's after the store. */
  method AskPolicy(cache: PolicyCache.PolicyCache, key: PolicyCache.CacheKey, replies: Replies, now: nat, later: nat)
    returns (decision: Option<PolicyDecision>)
    modifies cache
    ensures decision == Held(old(cache.entries), cache.hash(key), cache.ttl, now, replies)
    ensures cache.entries == Kept(old(cache.entries), cache.hash(key), cache.ttl, now, later, replies)
  {
    decision := cache.Get(key, now);
    if decision.None? && replies.policy.Some? {
      cache.Insert(key, replies.policy.value, later);
      decision := replies.policy;
    }
  }

  method SendVerdict(graph: GraphStore, call: ToolCall, config: Config, ids: Ids, at: Arrivals, scored: Option<Scored>,
                     status: int, ghost start: State, ghost sent: seq<Runs.Op>)
    requires graph.View().Valid() && Leads(start, sent, graph.View(), graph.ttl, graph.scrub)
    modifies graph
    ensures graph.View().Valid()
    ensures Leads(start, sent + VerdictOps(call, config, ids, at, scored, status), graph.View(), graph.ttl, graph.scrub)
  {
    var action := ActionNode(call, config, ids, ArgsOf(call), status);
    ghost var a := Delivered(action, at.action);
    Send(graph, action, at.action, start, sent);
    if scored.Some? {
      var verification := VerificationNode(call, config, ids, scored.value, status);
      ghost var v := Delivered(verification, at.verification);
      Send(graph, verification, at.verification, start, sent + a);
      var edge := ProtoEdge(ids.action, ids.verification, 2);
      SendLink(graph, edge, at.link, start, sent + a + v);
      assert sent + (a + (v + LinkDelivered(edge, at.link))) == sent + a + v + LinkDelivered(edge, at.link);
    } else {
      assert a + [] == a;
    }
  }

  method EvaluateToolCall(cache: PolicyCache.PolicyCache, graph: GraphStore, call: ToolCall, config: Config, replies: Replies,
                          ids: Ids, at: Arrivals, now: nat, later: nat)
    returns (outcome: Enforcement.Outcome)
    requires graph.View().Valid()
    modifies cache, graph
    ensures var h := cache.hash(KeyOf(call, config));
            var decision := Held(old(cache.entries), h, cache.ttl, now, replies);
            var scored := ScoredIn(decision, replies);
            && outcome == OutcomeFor(call, config, decision, scored)
            && cache.entries == Kept(old(cache.entries), h, cache.ttl, now, later, replies)
            && Leads(old(graph.View()), CallOps(call, config, ids, at, decision, scored), graph.View(), graph.ttl, graph.scrub)
    ensures graph.View().Valid()
  {
    ghost var start := graph.View();
    ghost var thoughts := ThinkingOps(call, config, ids, at);
    assert [] + thoughts == thoughts && thoughts + [] == thoughts;
    var decision := AskPolicy(cache, KeyOf(call, config), replies, now, later);
    var trace := TraceOf(call, config);
    if trace.Some? {
      Send(graph, ThinkingNode(call, config, ids, trace.value), at.thinking, start, []);
    }
    if decision.None? {
      return if config.failClosed then Enforcement.FailedClosed else Enforcement.Decided(Enforcement.Allow);
    }
    var d := decision.value;
    if !d.allowed {
      Send(graph, ActionNode(call, config, ids, BlockedArgs(ArgsOf(call), d.ruleId), 2), at.action, start, thoughts);
      return Enforcement.Decided(Enforcement.Block);
    }
    var scored := Enforcement.ScoreWithRetry(replies.first, replies.second, Enforcement.MapFallback(d.fallback));
    var verdict := Enforcement.Decide(true, trace.Some?, call.name in config.allowWithoutTrace, ScoreOf(scored),
                                      d.threshold, Enforcement.MapFallback(d.fallback), true);
    SendVerdict(graph, call, config, ids, at, scored, StatusFor(verdict), start, thoughts);
    outcome := Enforcement.Decided(verdict);
  }

  // ----- What a call adds to the ledger -----

  /** The node and the rule of a ledger entry. */
  datatype Mark = Mark(nodeId: string, ruleId: string)

  function Marks(vs: seq<ViolationRecord>): (r: seq<Mark>)
    ensures |r| == |vs| && forall i :: 0 <= i < |r| ==> r[i] == Mark(vs[i].nodeId, vs[i].ruleId)
  {
    seq(|vs|, i requires 0 <= i < |vs| => Mark(vs[i].nodeId, vs[i].ruleId))
  }

  /** A blocked action with these arguments is entered under the rule they name. */
  function ActionMarks(ids: Ids, at: Arrivals, ruleId: string): seq<Mark> {
    if at.action.Some? && ruleId != "" then [Mark(ids.action, ruleId)] else []
  }

  function VerificationMarks(config: Config, ids: Ids, at: Arrivals, scored: Option<Scored>): seq<Mark> {
    if at.verification.Some? && scored.Some? then [Mark(ids.verification, config.policyId)] else []
  }

  /** A denied call leaves the rule that denied it, if its arguments are an object
      that can carry the rule. A call blocked or queued after the policy allowed
      it leaves the policy's id when the verifier spoke, and before that whatever
      rule its own arguments name. An allowed call leaves nothing. */
  function CallMarks(call: ToolCall, config: Config, ids: Ids, at: Arrivals, decision: Option<PolicyDecision>, scored: Option<Scored>): seq<Mark> {
    match decision
    case None => []
    case Some(d) =>
      if !d.allowed then ActionMarks(ids, at, if ArgsOf(call).JObject? then d.ruleId else "")
      else if OutcomeFor(call, config, decision, scored) == Enforcement.Decided(Enforcement.Allow) then []
      else ActionMarks(ids, at, RuleIdOf(ArgsOf(call))) + VerificationMarks(config, ids, at, scored)
  }

  /** The rule survives the trip to the graph service. */
  lemma RuleIdArrives(args: Json)
    ensures RuleIdOf(StructToJson(Some(JsonToStruct(args)))) == RuleIdOf(args)
  {
    ArgumentsRoundTrip(args);
  }

  lemma DeniedRuleArrives(args: Json, ruleId: string)
    ensures RuleIdOf(StructToJson(Some(JsonToStruct(BlockedArgs(args, ruleId))))) == if args.JObject? then ruleId else ""
  {
    RuleIdArrives(BlockedArgs(args, ruleId));
  }

  predicate Fresh(st: State, workflow: string, id: string) {
    workflow in st.graphs ==> id !in st.graphs[workflow].ccg.index
  }

  /** What a payload of a fresh node enters into the ledger. */
  function PayloadMarks(id: string, payload: NodePayload): seq<Mark> {
    match OffenceOf(payload)
    case None => []
    case Some(offence) => [Mark(id, offence.ruleId)]
  }

  function OpMarks(op: Runs.Op): seq<Mark> {
    if op.Insert? && op.proto.payload.Some? then PayloadMarks(op.proto.id, PayloadOf(op.proto.payload.value)) else []
  }

  function OpsMarks(ops: seq<Runs.Op>): seq<Mark> {
    if ops == [] then [] else OpsMarks(ops[..|ops| - 1]) + OpMarks(ops[|ops| - 1])
  }

  lemma {:induction false} OpsMarksAppend(a: seq<Runs.Op>, b: seq<Runs.Op>)
    ensures OpsMarks(a + b) == OpsMarks(a) + OpsMarks(b)
  {
    if b == [] {
      assert a + b == a;
    } else {
      assert (a + b)[..|a + b| - 1] == a + b[..|b| - 1];
      OpsMarksAppend(a, b[..|b| - 1]);
    }
  }

  lemma LinkMarks(st: State, edge: ProtoEdge, now: Now, st': State, ttl: nat, scrub: Scrub)
    requires st.Valid() && Runs.Next(st, Runs.Link(edge, now), st', ttl, scrub)
    ensures st'.Valid() && st'.violations == st.violations
  {
    Runs.NextKeepsValid(st, Runs.Link(edge, now), st', ttl, scrub);
    if exists id :: Candidate(st, id, edge) {
      var id :| Candidate(st, id, edge) && st' == EdgeLinked(st, id, edge, now).0;
      Runs.LinkAcceptedExactly(st, id, edge, now);
    }
  }

  // ----- What an id already stands for -----

  /** For each id in a workflow's graph, what an insert under it enters. */
  type Book = map<string, seq<Mark>>

  function GraphBook(g: Graph): Book {
    map id | id in g.index && g.index[id] < |g.nodes| :: PayloadMarks(id, g.nodes[g.index[id]].payload)
  }

  function BookOf(st: State, workflow: string): Book {
    if workflow in st.graphs then GraphBook(st.graphs[workflow].ccg) else map[]
  }

  /** A held id keeps its first node: a later insert is entered for that one. */
  function EntryFor(book: Book, op: Runs.Op): seq<Mark>
    requires op.Insert?
  {
    if op.proto.id in book then book[op.proto.id] else OpMarks(op)
  }

  predicate AllInserts(ops: seq<Runs.Op>) {
    forall i :: 0 <= i < |ops| ==> ops[i].Insert?
  }

  function BookAfter(book: Book, ops: seq<Runs.Op>): Book
    requires AllInserts(ops)
  {
    if ops == [] then book
    else
      var last := |ops| - 1;
      var before := BookAfter(book, ops[..last]);
      before[ops[last].proto.id := EntryFor(before, ops[last])]
  }

  function LedgerMarks(book: Book, ops: seq<Runs.Op>): seq<Mark>
    requires AllInserts(ops)
  {
    if ops == [] then []
    else
      var last := |ops| - 1;
      LedgerMarks(book, ops[..last]) + EntryFor(BookAfter(book, ops[..last]), ops[last])
  }

  /** The inserts a call sends: convertible, and no handoffs. */
  predicate PlainInsert(op: Runs.Op, workflow: string) {
    && op.Insert? && ConvertNode(op.proto).Ok? && op.proto.workflowId == workflow
    && op.proto.nodeType != 2
  }

  predicate AllPlain(ops: seq<Runs.Op>, workflow: string) {
    forall i :: 0 <= i < |ops| ==> PlainInsert(ops[i], workflow)
  }

  lemma HeldMarks(st: State, op: Runs.Op, scrub: Scrub)
    requires st.Valid() && op.Insert? && ConvertNode(op.proto).Ok?
    ensures PayloadMarks(op.proto.id, Runs.Held(st, op.proto, scrub, op.now).payload) == EntryFor(BookOf(st, op.proto.workflowId), op)
  {
    Runs.ConvertKeepsId(op.proto, scrub);
  }

  lemma PlainInsertMarks(st: State, op: Runs.Op, st': State, ttl: nat, scrub: Scrub, workflow: string)
    requires st.Valid() && Runs.Next(st, op, st', ttl, scrub) && PlainInsert(op, workflow)
    ensures st'.Valid() && Marks(st'.violations) == Marks(st.violations) + EntryFor(BookOf(st, workflow), op)
  {
    Runs.NextKeepsValid(st, op, st', ttl, scrub);
    Runs.InsertAcceptedExactly(st, op.proto, scrub, op.now);
    Runs.InsertLedger(st, op, scrub);
    HeldMarks(st, op, scrub);
    if Runs.Records(st, op, scrub) {
      RecordMark(st'.violations[|st.violations|], st, op, st', scrub);
      OneMoreMark(st.violations, st'.violations);
    } else {
      Runs.OffenceIs(Runs.Held(st, op.proto, scrub, op.now).payload);
    }
  }

  lemma RecordMark(record: ViolationRecord, st: State, op: Runs.Op, st': State, scrub: Scrub)
    requires Runs.Records(st, op, scrub) && Runs.IsRecordOf(record, st, op, st', scrub)
    ensures PayloadMarks(op.proto.id, Runs.Held(st, op.proto, scrub, op.now).payload) == [Mark(record.nodeId, record.ruleId)]
  {
    Runs.OffenceIs(Runs.Held(st, op.proto, scrub, op.now).payload);
  }

  lemma OneMoreMark(vs: seq<ViolationRecord>, vs': seq<ViolationRecord>)
    requires |vs'| == |vs| + 1 && vs'[..|vs|] == vs
    ensures Marks(vs') == Marks(vs) + [Mark(vs'[|vs|].nodeId, vs'[|vs|].ruleId)]
  {
    assert forall i :: 0 <= i < |vs| ==> vs'[..|vs|][i] == vs'[i];
  }

  lemma PlainInsertBook(st: State, op: Runs.Op, st': State, ttl: nat, scrub: Scrub, workflow: string)
    requires st.Valid() && Runs.Next(st, op, st', ttl, scrub) && PlainInsert(op, workflow)
    ensures BookOf(st', workflow) == BookOf(st, workflow)[op.proto.id := EntryFor(BookOf(st, workflow), op)]
  {
    var ready := Opened(st, workflow, op.now);
    var node := Scrubbed(ConvertNode(op.proto).value, scrub);
    Runs.OpenedValid(st, workflow, op.now);
    Runs.ConvertKeepsId(op.proto, scrub);
    Runs.InsertAcceptedExactly(st, op.proto, scrub, op.now);
    Runs.InsertedIntoGraph(ready, workflow, node, op.now);
    OpenedBook(st, workflow, op.now);
    UpsertedBook(ready.graphs[workflow].ccg, node);
  }

  lemma OpenedBook(st: State, workflow: string, now: Now)
    ensures BookOf(Opened(st, workflow, now), workflow) == BookOf(st, workflow)
  {
  }

  lemma UpsertedBook(g: Graph, node: GraphNode)
    requires g.Sound()
    ensures GraphBook(Upserted(g, node)) ==
              if node.id in g.index then GraphBook(g) else GraphBook(g)[node.id := PayloadMarks(node.id, node.payload)]
  {
  }

  /** Between the two states the ledger and the graph have taken in these inserts. */
  predicate Entered(st: State, ops: seq<Runs.Op>, st': State, workflow: string)
    requires AllInserts(ops)
  {
    && BookOf(st', workflow) == BookAfter(BookOf(st, workflow), ops)
    && Marks(st'.violations) == Marks(st.violations) + LedgerMarks(BookOf(st, workflow), ops)
  }

  /** Inserts into one workflow, under any ids: what they enter is read off what
      its graph holds before. */
  lemma {:induction false} PlainInsertsMark(st: State, ops: seq<Runs.Op>, st': State, ttl: nat, scrub: Scrub, workflow: string)
    requires st.Valid() && Leads(st, ops, st', ttl, scrub)
    requires AllInserts(ops) && AllPlain(ops, workflow)
    ensures st'.Valid() && Entered(st, ops, st', workflow)
    decreases |ops|
  {
    if ops != [] {
      var before, op := ops[..|ops| - 1], ops[|ops| - 1];
      var mid := LastLeads(st, ops, st', ttl, scrub);
      PlainBut(ops, workflow);
      PlainInsertsMark(st, before, mid, ttl, scrub, workflow);
      OnePlainInsert(mid, op, st', ttl, scrub, workflow);
      EnteredOn(st, before, mid, op, st', workflow);
    }
  }

  lemma LastLeads(st: State, ops: seq<Runs.Op>, st': State, ttl: nat, scrub: Scrub) returns (mid: State)
    requires ops != [] && Leads(st, ops, st', ttl, scrub)
    ensures Leads(st, ops[..|ops| - 1], mid, ttl, scrub) && Runs.Next(mid, ops[|ops| - 1], st', ttl, scrub)
  {
    var last := |ops| - 1;
    mid :| Leads(st, ops[..last], mid, ttl, scrub) && Runs.Next(mid, ops[last], st', ttl, scrub);
  }

  lemma PlainBut(ops: seq<Runs.Op>, workflow: string)
    requires ops != [] && AllPlain(ops, workflow)
    ensures var last := |ops| - 1; AllInserts(ops[..last]) && AllPlain(ops[..last], workflow) && PlainInsert(ops[last], workflow)
    ensures ops == ops[..|ops| - 1] + [ops[|ops| - 1]]
  {
  }

  lemma EnteredOn(st: State, before: seq<Runs.Op>, mid: State, op: Runs.Op, st': State, workflow: string)
    requires AllInserts(before) && op.Insert? && Entered(st, before, mid, workflow)
    requires Marks(st'.violations) == Marks(mid.violations) + EntryFor(BookOf(mid, workflow), op)
    requires BookOf(st', workflow) == BookOf(mid, workflow)[op.proto.id := EntryFor(BookOf(mid, workflow), op)]
    ensures AllInserts(before + [op]) && Entered(st, before + [op], st', workflow)
  {
    var book := BookOf(st, workflow);
    LastEntry(book, before, op);
    Regrouped(Marks(st.violations), LedgerMarks(book, before), EntryFor(BookAfter(book, before), op));
  }

  lemma OnePlainInsert(st: State, op: Runs.Op, st': State, ttl: nat, scrub: Scrub, workflow: string)
    requires st.Valid() && Runs.Next(st, op, st', ttl, scrub) && PlainInsert(op, workflow)
    ensures st'.Valid() && Marks(st'.violations) == Marks(st.violations) + EntryFor(BookOf(st, workflow), op)
    ensures BookOf(st', workflow) == BookOf(st, workflow)[op.proto.id := EntryFor(BookOf(st, workflow), op)]
  {
    PlainInsertMarks(st, op, st', ttl, scrub, workflow);
    PlainInsertBook(st, op, st', ttl, scrub, workflow);
  }

  lemma LinkBook(st: State, edge: ProtoEdge, now: Now, st': State, ttl: nat, scrub: Scrub, workflow: string)
    requires st.Valid() && Runs.Next(st, Runs.Link(edge, now), st', ttl, scrub)
    ensures BookOf(st', workflow) == BookOf(st, workflow)
  {
    if exists id :: Candidate(st, id, edge) {
      var id :| Candidate(st, id, edge) && st' == EdgeLinked(st, id, edge, now).0;
      LinkKeepsNodes(st, id, edge, now, workflow);
    }
  }

  lemma LinkKeepsNodes(st: State, graphId: string, edge: ProtoEdge, now: Now, workflow: string)
    requires graphId in st.graphs
    ensures BookOf(EdgeLinked(st, graphId, edge, now).0, workflow) == BookOf(st, workflow)
  {
    var st' := EdgeLinked(st, graphId, edge, now).0;
    if workflow in st.graphs { SameNodesSameBook(st.graphs[workflow].ccg, st'.graphs[workflow].ccg); }
  }

  lemma SameNodesSameBook(g: Graph, h: Graph)
    ensures g.nodes == h.nodes && g.index == h.index ==> GraphBook(g) == GraphBook(h)
  {
  }

  /** As much, with an edge linked at the end. */
  lemma WithLinkMark(st: State, ops: seq<Runs.Op>, link: seq<Runs.Op>, st': State, ttl: nat, scrub: Scrub, workflow: string)
    requires st.Valid() && Leads(st, ops + link, st', ttl, scrub)
    requires AllInserts(ops) && AllPlain(ops, workflow)
    requires link == [] || (|link| == 1 && link[0].Link?)
    ensures st'.Valid() && BookOf(st', workflow) == BookAfter(BookOf(st, workflow), ops)
    ensures Marks(st'.violations) == Marks(st.violations) + LedgerMarks(BookOf(st, workflow), ops)
  {
    if link == [] {
      assert ops + link == ops;
      PlainInsertsMark(st, ops, st', ttl, scrub, workflow);
    } else {
      var last := |ops|;
      var mid :| Leads(st, (ops + link)[..last], mid, ttl, scrub) && Runs.Next(mid, (ops + link)[last], st', ttl, scrub);
      assert (ops + link)[..last] == ops;
      PlainInsertsMark(st, ops, mid, ttl, scrub, workflow);
      LinkMarks(mid, link[0].edge, link[0].now, st', ttl, scrub);
      LinkBook(mid, link[0].edge, link[0].now, st', ttl, scrub, workflow);
    }
  }

  // ----- New ids -----

  function IdsOf(ops: seq<Runs.Op>): set<string>
    requires AllInserts(ops)
  {
    if ops == [] then {} else IdsOf(ops[..|ops| - 1]) + {ops[|ops| - 1].proto.id}
  }

  lemma {:induction false} BookKeys(book: Book, ops: seq<Runs.Op>)
    requires AllInserts(ops)
    ensures BookAfter(book, ops).Keys == book.Keys + IdsOf(ops)
  {
    if ops != [] { BookKeys(book, ops[..|ops| - 1]); }
  }

  /** Every insert under an id that is neither held nor used before. */
  predicate AllNew(book: Book, ops: seq<Runs.Op>)
    requires AllInserts(ops)
  {
    ops != [] ==>
      var last := |ops| - 1;
      AllNew(book, ops[..last]) && ops[last].proto.id !in book && ops[last].proto.id !in IdsOf(ops[..last])
  }

  lemma {:induction false} NewLedger(book: Book, ops: seq<Runs.Op>)
    requires AllInserts(ops) && AllNew(book, ops)
    ensures LedgerMarks(book, ops) == OpsMarks(ops)
  {
    if ops != [] {
      NewLedger(book, ops[..|ops| - 1]);
      BookKeys(book, ops[..|ops| - 1]);
    }
  }

  /** The inserts of a call, and the link at its end. */
  function Inserts(call: ToolCall, config: Config, ids: Ids, at: Arrivals, decision: Option<PolicyDecision>, scored: Option<Scored>): seq<Runs.Op> {
    CallOps(call, config, ids, at.(link := None), decision, scored)
  }

  function LinkOf(ids: Ids, at: Arrivals, decision: Option<PolicyDecision>, scored: Option<Scored>): seq<Runs.Op> {
    if decision.Some? && decision.value.allowed && scored.Some?
    then LinkDelivered(ProtoEdge(ids.action, ids.verification, 2), at.link)
    else []
  }

  lemma CallOpsSplit(call: ToolCall, config: Config, ids: Ids, at: Arrivals, decision: Option<PolicyDecision>, scored: Option<Scored>)
    ensures CallOps(call, config, ids, at, decision, scored)
         == Inserts(call, config, ids, at, decision, scored) + LinkOf(ids, at, decision, scored)
  {
  }

  lemma CallInsertsPlain(call: ToolCall, config: Config, ids: Ids, at: Arrivals, decision: Option<PolicyDecision>, scored: Option<Scored>)
    ensures var ops := Inserts(call, config, ids, at, decision, scored);
            AllInserts(ops) && AllPlain(ops, call.workflowId)
  {
  }

  /** The ids drawn for a call are new to its workflow. */
  predicate FreshIds(st: State, workflow: string, ids: Ids) {
    && Fresh(st, workflow, ids.action) && Fresh(st, workflow, ids.thinking) && Fresh(st, workflow, ids.verification)
    && ids.action != ids.thinking && ids.action != ids.verification && ids.thinking != ids.verification
  }

  lemma FreshIsUnheld(st: State, workflow: string, id: string)
    requires Fresh(st, workflow, id)
    ensures id !in BookOf(st, workflow)
  {
  }

  lemma IdsOfOne(op: Runs.Op)
    requires op.Insert?
    ensures AllInserts([op]) && IdsOf([op]) == {op.proto.id}
  {
    assert [op][..0] == [];
  }

  lemma OneNew(book: Book, op: Runs.Op)
    requires op.Insert? && op.proto.id !in book
    ensures AllNew(book, [op])
  {
    assert [op][..0] == [];
  }

  /** New ids one after the other. */
  lemma {:induction false} NewAfterNew(book: Book, a: seq<Runs.Op>, b: seq<Runs.Op>)
    requires AllInserts(a) && AllInserts(b) && AllNew(book, a) && AllNew(book, b) && IdsOf(a) !! IdsOf(b)
    ensures AllInserts(a + b) && AllNew(book, a + b) && IdsOf(a + b) == IdsOf(a) + IdsOf(b)
    decreases |b|
  {
    if b == [] {
      assert a + b == a;
    } else {
      var last := |b| - 1;
      NewAfterNew(book, a, b[..last]);
      assert (a + b)[..|a + b| - 1] == a + b[..last] && (a + b)[|a + b| - 1] == b[last];
    }
  }

  lemma DeliveredNew(book: Book, proto: ProtoNode, at: Option<Now>)
    requires proto.id !in book
    ensures AllInserts(Delivered(proto, at)) && AllNew(book, Delivered(proto, at)) && IdsOf(Delivered(proto, at)) <= {proto.id}
  {
    if at.Some? {
      IdsOfOne(Runs.Insert(proto, at.value));
      OneNew(book, Runs.Insert(proto, at.value));
    }
  }

  lemma VerdictInsertsNew(book: Book, call: ToolCall, config: Config, ids: Ids, at: Arrivals, scored: Option<Scored>, status: int)
    requires ids.action !in book && ids.verification !in book && ids.action != ids.verification && at.link.None?
    ensures var ops := VerdictOps(call, config, ids, at, scored, status);
            AllInserts(ops) && AllNew(book, ops) && IdsOf(ops) <= {ids.action, ids.verification}
  {
    var a := Delivered(ActionNode(call, config, ids, ArgsOf(call), status), at.action);
    DeliveredNew(book, ActionNode(call, config, ids, ArgsOf(call), status), at.action);
    match scored
    case None => assert a + [] == a;
    case Some(one) =>
      var v := Delivered(VerificationNode(call, config, ids, one, status), at.verification);
      DeliveredNew(book, VerificationNode(call, config, ids, one, status), at.verification);
      NewAfterNew(book, a, v);
      assert v + [] == v;
  }

  lemma ThoughtsNew(book: Book, call: ToolCall, config: Config, ids: Ids, at: Arrivals)
    requires ids.thinking !in book
    ensures var ops := ThinkingOps(call, config, ids, at);
            AllInserts(ops) && AllNew(book, ops) && IdsOf(ops) <= {ids.thinking}
  {
    match TraceOf(call, config)
    case None =>
    case Some(trace) => DeliveredNew(book, ThinkingNode(call, config, ids, trace), at.thinking);
  }

  lemma CallInsertsNew(st: State, call: ToolCall, config: Config, ids: Ids, at: Arrivals, decision: Option<PolicyDecision>, scored: Option<Scored>)
    requires FreshIds(st, call.workflowId, ids)
    ensures var ops := Inserts(call, config, ids, at, decision, scored);
            AllInserts(ops) && AllNew(BookOf(st, call.workflowId), ops)
  {
    var cut, book := at.(link := None), BookOf(st, call.workflowId);
    FreshIsUnheld(st, call.workflowId, ids.action);
    FreshIsUnheld(st, call.workflowId, ids.thinking);
    FreshIsUnheld(st, call.workflowId, ids.verification);
    ThoughtsNew(book, call, config, ids, cut);
    AnswerNew(book, call, config, ids, cut, decision, scored);
  }

  lemma AnswerNew(book: Book, call: ToolCall, config: Config, ids: Ids, at: Arrivals, decision: Option<PolicyDecision>, scored: Option<Scored>)
    requires ids.action !in book && ids.verification !in book && at.link.None?
    requires ids.action != ids.thinking && ids.action != ids.verification && ids.thinking != ids.verification
    requires AllInserts(ThinkingOps(call, config, ids, at)) && AllNew(book, ThinkingOps(call, config, ids, at))
    requires IdsOf(ThinkingOps(call, config, ids, at)) <= {ids.thinking}
    ensures var ops := CallOps(call, config, ids, at, decision, scored);
            AllInserts(ops) && AllNew(book, ops)
  {
    var thoughts := ThinkingOps(call, config, ids, at);
    match decision
    case None => assert thoughts + [] == thoughts;
    case Some(d) =>
      if d.allowed {
        var status := StatusFor(Enforcement.DecisionFor(Abstract(call, config), d, ScoreOf(scored)));
        VerdictInsertsNew(book, call, config, ids, at, scored, status);
        NewAfterNew(book, thoughts, VerdictOps(call, config, ids, at, scored, status));
      } else {
        DeliveredNew(book, ActionNode(call, config, ids, BlockedArgs(ArgsOf(call), d.ruleId), 2), at.action);
        NewAfterNew(book, thoughts, DenialOps(call, config, ids, at, d.ruleId));
      }
  }

  lemma DeliveredMarks(proto: ProtoNode, at: Option<Now>)
    requires proto.payload.Some?
    ensures OpsMarks(Delivered(proto, at)) == if at.Some? then PayloadMarks(proto.id, PayloadOf(proto.payload.value)) else []
  {
  }

  lemma ActionOpsMarks(call: ToolCall, config: Config, ids: Ids, args: Json, status: int, at: Arrivals)
    ensures OpsMarks(Delivered(ActionNode(call, config, ids, args, status), at.action))
         == if status == 2 then ActionMarks(ids, at, RuleIdOf(args)) else []
  {
    DeliveredMarks(ActionNode(call, config, ids, args, status), at.action);
    RuleIdArrives(args);
  }

  lemma VerificationOpsMarks(call: ToolCall, config: Config, ids: Ids, scored: Scored, status: int, at: Arrivals)
    ensures OpsMarks(Delivered(VerificationNode(call, config, ids, scored, status), at.verification))
         == if status == 2 then VerificationMarks(config, ids, at, Some(scored)) else []
  {
    DeliveredMarks(VerificationNode(call, config, ids, scored, status), at.verification);
  }

  lemma VerdictInsertsMarks(call: ToolCall, config: Config, ids: Ids, at: Arrivals, scored: Option<Scored>, status: int)
    requires at.link.None?
    ensures OpsMarks(VerdictOps(call, config, ids, at, scored, status))
         == if status == 2 then ActionMarks(ids, at, RuleIdOf(ArgsOf(call))) + VerificationMarks(config, ids, at, scored) else []
  {
    var a := Delivered(ActionNode(call, config, ids, ArgsOf(call), status), at.action);
    ActionOpsMarks(call, config, ids, ArgsOf(call), status, at);
    match scored
    case Some(one) =>
      var v := Delivered(VerificationNode(call, config, ids, one, status), at.verification);
      VerificationOpsMarks(call, config, ids, one, status, at);
      OpsMarksAppend(a, v);
      assert v + [] == v;
    case None =>
      assert a + [] == a;
  }

  lemma ThinkingOpsMarks(call: ToolCall, config: Config, ids: Ids, at: Arrivals)
    ensures OpsMarks(ThinkingOps(call, config, ids, at)) == []
  {
  }

  lemma DenialOpsMarks(call: ToolCall, config: Config, ids: Ids, at: Arrivals, ruleId: string)
    ensures OpsMarks(DenialOps(call, config, ids, at, ruleId)) == ActionMarks(ids, at, if ArgsOf(call).JObject? then ruleId else "")
  {
    var args := BlockedArgs(ArgsOf(call), ruleId);
    DeniedRuleArrives(ArgsOf(call), ruleId);
    RuleIdArrives(args);
    ActionOpsMarks(call, config, ids, args, 2, at);
  }

  lemma AfterThoughts(call: ToolCall, config: Config, ids: Ids, at: Arrivals, rest: seq<Runs.Op>)
    ensures OpsMarks(ThinkingOps(call, config, ids, at) + rest) == OpsMarks(rest)
  {
    OpsMarksAppend(ThinkingOps(call, config, ids, at), rest);
    ThinkingOpsMarks(call, config, ids, at);
  }

  lemma InsertsMarks(call: ToolCall, config: Config, ids: Ids, at: Arrivals, decision: Option<PolicyDecision>, scored: Option<Scored>)
    ensures OpsMarks(Inserts(call, config, ids, at, decision, scored)) == CallMarks(call, config, ids, at, decision, scored)
  {
    var cut := at.(link := None);
    match decision
    case None => AfterThoughts(call, config, ids, cut, []);
    case Some(d) =>
      if d.allowed {
        var status := StatusFor(Enforcement.DecisionFor(Abstract(call, config), d, ScoreOf(scored)));
        AfterThoughts(call, config, ids, cut, VerdictOps(call, config, ids, cut, scored, status));
        VerdictInsertsMarks(call, config, ids, cut, scored, status);
      } else {
        AfterThoughts(call, config, ids, cut, DenialOps(call, config, ids, cut, d.ruleId));
        DenialOpsMarks(call, config, ids, cut, d.ruleId);
      }
  }

  /** Under any ids: the requests of one call add to the ledger what `LedgerMarks`
      reads off the workflow's graph, whichever of them are lost on the way. */
  lemma CallLedger(st: State, st': State, ttl: nat, scrub: Scrub, call: ToolCall, config: Config, ids: Ids, at: Arrivals,
                   decision: Option<PolicyDecision>, scored: Option<Scored>)
    requires st.Valid() && Leads(st, CallOps(call, config, ids, at, decision, scored), st', ttl, scrub)
    ensures var ops, book := Inserts(call, config, ids, at, decision, scored), BookOf(st, call.workflowId);
            && AllInserts(ops) && st'.Valid()
            && Marks(st'.violations) == Marks(st.violations) + LedgerMarks(book, ops)
            && BookOf(st', call.workflowId) == BookAfter(book, ops)
  {
    CallOpsSplit(call, config, ids, at, decision, scored);
    CallInsertsPlain(call, config, ids, at, decision, scored);
    WithLinkMark(st, Inserts(call, config, ids, at, decision, scored), LinkOf(ids, at, decision, scored), st', ttl, scrub, call.workflowId);
  }

  /** Under new ids these are exactly the entries of `CallMarks`, in that order. */
  lemma FreshCallLedger(st: State, st': State, ttl: nat, scrub: Scrub, call: ToolCall, config: Config, ids: Ids, at: Arrivals,
                        decision: Option<PolicyDecision>, scored: Option<Scored>)
    requires st.Valid() && FreshIds(st, call.workflowId, ids)
    requires Leads(st, CallOps(call, config, ids, at, decision, scored), st', ttl, scrub)
    ensures Marks(st'.violations) == Marks(st.violations) + CallMarks(call, config, ids, at, decision, scored)
  {
    CallLedger(st, st', ttl, scrub, call, config, ids, at, decision, scored);
    CallInsertsNew(st, call, config, ids, at, decision, scored);
    NewLedger(BookOf(st, call.workflowId), Inserts(call, config, ids, at, decision, scored));
    InsertsMarks(call, config, ids, at, decision, scored);
  }

  // ----- Denials -----

  /** What the thinking node enters, and what the graph holds after it. */
  function ThoughtMarks(st: State, call: ToolCall, config: Config, ids: Ids, at: Arrivals): seq<Mark> {
    LedgerMarks(BookOf(st, call.workflowId), ThinkingOps(call, config, ids, at))
  }

  function BookThen(st: State, call: ToolCall, config: Config, ids: Ids, at: Arrivals): Book {
    BookAfter(BookOf(st, call.workflowId), ThinkingOps(call, config, ids, at))
  }

  lemma DeniedInserts(call: ToolCall, config: Config, ids: Ids, at: Arrivals, d: PolicyDecision)
    requires !d.allowed && at.action.Some?
    ensures Inserts(call, config, ids, at, Some(d), None) == ThinkingOps(call, config, ids, at) + [DenialOp(call, config, ids, at, d)]
  {
    assert ThinkingOps(call, config, ids, at.(link := None)) == ThinkingOps(call, config, ids, at);
  }

  function DenialOp(call: ToolCall, config: Config, ids: Ids, at: Arrivals, d: PolicyDecision): Runs.Op
    requires at.action.Some?
  {
    Runs.Insert(ActionNode(call, config, ids, BlockedArgs(ArgsOf(call), d.ruleId), 2), at.action.value)
  }

  lemma DenialMarks(call: ToolCall, config: Config, ids: Ids, at: Arrivals, d: PolicyDecision)
    requires at.action.Some?
    ensures OpMarks(DenialOp(call, config, ids, at, d)) == if ArgsOf(call).JObject? && d.ruleId != "" then [Mark(ids.action, d.ruleId)] else []
  {
    DeniedRuleArrives(ArgsOf(call), d.ruleId);
  }

  /** What a denial enters into a workflow that holds these ids. */
  function DeniedEntry(book: Book, call: ToolCall, ids: Ids, d: PolicyDecision): seq<Mark> {
    if ids.action in book then book[ids.action]
    else if ArgsOf(call).JObject? && d.ruleId != "" then [Mark(ids.action, d.ruleId)]
    else []
  }

  /** A denial whose action request arrives, under any ids: if the action id is
      held, what the node that holds it enters, whatever this denial is about; if
      not, the denying rule when the arguments are an object and the rule has an id. */
  lemma DenialLedger(st: State, st': State, ttl: nat, scrub: Scrub, call: ToolCall, config: Config, ids: Ids, at: Arrivals, d: PolicyDecision)
    requires st.Valid() && !d.allowed && at.action.Some?
    requires Leads(st, CallOps(call, config, ids, at, Some(d), None), st', ttl, scrub)
    ensures Marks(st'.violations) == Marks(st.violations) + ThoughtMarks(st, call, config, ids, at)
                                   + DeniedEntry(BookThen(st, call, config, ids, at), call, ids, d)
  {
    CallLedger(st, st', ttl, scrub, call, config, ids, at, Some(d), None);
    DeniedMarks(BookOf(st, call.workflowId), call, config, ids, at, d);
    Regrouped(Marks(st.violations), ThoughtMarks(st, call, config, ids, at), DeniedEntry(BookThen(st, call, config, ids, at), call, ids, d));
  }

  lemma Regrouped(a: seq<Mark>, b: seq<Mark>, c: seq<Mark>)
    ensures a + (b + c) == a + b + c
  {
  }

  lemma DeniedMarks(book: Book, call: ToolCall, config: Config, ids: Ids, at: Arrivals, d: PolicyDecision)
    requires !d.allowed && at.action.Some?
    ensures var ops, thoughts := Inserts(call, config, ids, at, Some(d), None), ThinkingOps(call, config, ids, at);
            AllInserts(ops) && LedgerMarks(book, ops) == LedgerMarks(book, thoughts) + DeniedEntry(BookAfter(book, thoughts), call, ids, d)
  {
    var thoughts, op := ThinkingOps(call, config, ids, at), DenialOp(call, config, ids, at, d);
    DeniedInserts(call, config, ids, at, d);
    ThoughtsAreInserts(call, config, ids, at);
    DeniedEntryIs(BookAfter(book, thoughts), call, config, ids, at, d);
    LastEntry(book, thoughts, op);
  }

  lemma ThoughtsAreInserts(call: ToolCall, config: Config, ids: Ids, at: Arrivals)
    ensures AllInserts(ThinkingOps(call, config, ids, at))
  {
  }

  lemma DeniedEntryIs(book: Book, call: ToolCall, config: Config, ids: Ids, at: Arrivals, d: PolicyDecision)
    requires !d.allowed && at.action.Some?
    ensures EntryFor(book, DenialOp(call, config, ids, at, d)) == DeniedEntry(book, call, ids, d)
  {
    DenialMarks(call, config, ids, at, d);
  }

  lemma LastEntry(book: Book, ops: seq<Runs.Op>, op: Runs.Op)
    requires AllInserts(ops) && op.Insert?
    ensures AllInserts(ops + [op])
    ensures BookAfter(book, ops + [op]) == BookAfter(book, ops)[op.proto.id := EntryFor(BookAfter(book, ops), op)]
    ensures LedgerMarks(book, ops + [op]) == LedgerMarks(book, ops) + EntryFor(BookAfter(book, ops), op)
  {
    assert (ops + [op])[..|ops|] == ops;
  }

  /** So the denial itself is recorded exactly when its action id is new and its
      rule can travel, or the id is held by an offence of the same rule. */
  lemma DenialIsRecordedExactly(st: State, st': State, ttl: nat, scrub: Scrub, call: ToolCall, config: Config, ids: Ids, at: Arrivals,
                                d: PolicyDecision)
    requires st.Valid() && !d.allowed && at.action.Some?
    requires Leads(st, CallOps(call, config, ids, at, Some(d), None), st', ttl, scrub)
    ensures Marks(st'.violations) == Marks(st.violations) + ThoughtMarks(st, call, config, ids, at) + [Mark(ids.action, d.ruleId)]
        <==> var book := BookThen(st, call, config, ids, at);
             if ids.action in book then book[ids.action] == [Mark(ids.action, d.ruleId)]
             else ArgsOf(call).JObject? && d.ruleId != ""
  {
    DenialLedger(st, st', ttl, scrub, call, config, ids, at, d);
    SameEnds(Marks(st.violations) + ThoughtMarks(st, call, config, ids, at),
             DeniedEntry(BookThen(st, call, config, ids, at), call, ids, d), [Mark(ids.action, d.ruleId)]);
  }

  lemma SameEnds(before: seq<Mark>, x: seq<Mark>, y: seq<Mark>)
    ensures before + x == before + y <==> x == y
  {
    if before + x == before + y {
      assert x == (before + x)[|before|..] && y == (before + y)[|before|..];
    }
  }

  // ----- Ids drawn twice -----

  lemma {:induction false} NothingEntered(book: Book, ops: seq<Runs.Op>)
    requires AllInserts(ops) && LedgerMarks(book, ops) == []
    ensures forall id :: id in IdsOf(ops) ==> id in BookAfter(book, ops) && BookAfter(book, ops)[id] == []
    ensures forall id :: id in BookAfter(book, ops) && id !in IdsOf(ops) ==> id in book && BookAfter(book, ops)[id] == book[id]
  {
    if ops != [] {
      var last := |ops| - 1;
      assert LedgerMarks(book, ops[..last]) == [] && EntryFor(BookAfter(book, ops[..last]), ops[last]) == [];
      NothingEntered(book, ops[..last]);
    }
  }

  lemma AllowedEntersNothing(st: State, st': State, ttl: nat, scrub: Scrub, call: ToolCall, config: Config, ids: Ids, at: Arrivals,
                             decision: Option<PolicyDecision>, scored: Option<Scored>)
    requires st.Valid() && FreshIds(st, call.workflowId, ids)
    requires Leads(st, CallOps(call, config, ids, at, decision, scored), st', ttl, scrub)
    requires decision.Some? && decision.value.allowed && at.action.Some?
    requires OutcomeFor(call, config, decision, scored) == Enforcement.Decided(Enforcement.Allow)
    ensures st'.Valid()
    ensures var book := BookOf(st', call.workflowId);
            ids.action in book && book[ids.action] == [] && (ids.thinking in book ==> book[ids.thinking] == [])
  {
    var book, ops := BookOf(st, call.workflowId), Inserts(call, config, ids, at, decision, scored);
    CallLedger(st, st', ttl, scrub, call, config, ids, at, decision, scored);
    CallInsertsNew(st, call, config, ids, at, decision, scored);
    NewLedger(book, ops);
    InsertsMarks(call, config, ids, at, decision, scored);
    NothingEntered(book, ops);
    FreshIsUnheld(st, call.workflowId, ids.thinking);
    ActionIsSent(call, config, ids, at, decision, scored);
  }

  lemma ActionIsSent(call: ToolCall, config: Config, ids: Ids, at: Arrivals, decision: Option<PolicyDecision>, scored: Option<Scored>)
    requires decision.Some? && decision.value.allowed && at.action.Some?
    ensures var ops := Inserts(call, config, ids, at, decision, scored); AllInserts(ops) && ids.action in IdsOf(ops)
  {
    var ops := Inserts(call, config, ids, at, decision, scored);
    var thoughts := ThinkingOps(call, config, ids, at.(link := None));
    CallInsertsPlain(call, config, ids, at, decision, scored);
    assert ops[|thoughts|].proto.id == ids.action;
    IdIsThere(ops, |thoughts|);
  }

  lemma {:induction false} IdIsThere(ops: seq<Runs.Op>, i: nat)
    requires AllInserts(ops) && i < |ops|
    ensures ops[i].proto.id in IdsOf(ops)
  {
    if i < |ops| - 1 { IdIsThere(ops[..|ops| - 1], i); }
  }

  /** The proxy restarts and draws the ids of an allowed call once more, for a call
      that is denied in the same workflow: the denial is lost. */
  lemma RestartLosesDenial(st0: State, st1: State, st2: State, ttl: nat, scrub: Scrub, config: Config, ids: Ids,
                           first: ToolCall, at1: Arrivals, granted: PolicyDecision, scored: Option<Scored>,
                           second: ToolCall, at2: Arrivals, denied: PolicyDecision)
    requires st0.Valid() && FreshIds(st0, first.workflowId, ids) && at1.action.Some? && granted.allowed
    requires OutcomeFor(first, config, Some(granted), scored) == Enforcement.Decided(Enforcement.Allow)
    requires Leads(st0, CallOps(first, config, ids, at1, Some(granted), scored), st1, ttl, scrub)
    requires second.workflowId == first.workflowId && at2.action.Some? && !denied.allowed
    requires Leads(st1, CallOps(second, config, ids, at2, Some(denied), None), st2, ttl, scrub)
    ensures Marks(st2.violations) == Marks(st1.violations)
  {
    AllowedEntersNothing(st0, st1, ttl, scrub, first, config, ids, at1, Some(granted), scored);
    DenialLedger(st1, st2, ttl, scrub, second, config, ids, at2, denied);
    ThoughtsOnHeld(BookOf(st1, second.workflowId), second, config, ids, at2);
  }

  lemma ThoughtsOnHeld(book: Book, call: ToolCall, config: Config, ids: Ids, at: Arrivals)
    requires ids.action in book && book[ids.action] == [] && (ids.thinking in book ==> book[ids.thinking] == [])
    ensures var ops := ThinkingOps(call, config, ids, at);
            LedgerMarks(book, ops) == [] && ids.action in BookAfter(book, ops) && BookAfter(book, ops)[ids.action] == []
  {
    match TraceOf(call, config)
    case None =>
    case Some(trace) =>
      if at.thinking.Some? {
        var op := Runs.Insert(ThinkingNode(call, config, ids, trace), at.thinking.value);
        LastEntry(book, [], op);
        assert [] + [op] == [op] && [op][..0] == [];
      }
  }
}
