/** What one tool call comes to, and what it leaves in its workflow's graph, stated
    on the wire: proxy/src/enforcement.rs, proxy/src/circuit_breaker.rs. */
module CallRecords {
  import opened Options
  import opened Floats
  import opened Json
  import opened ThinkingTrace
  import opened Digraph
  import opened Ccg
  import opened GraphStore
  import opened Provenance
  import opened ToolCalls
  import PolicyCache
  import Enforcement
  import Runs = GraphTheorems

  // ----- The answer -----

  /** The text a trace is cut from: the first of three fields that is there, read as
      empty when it is not a string; empty without any. */
  predicate IsContent(args: Json, content: string) {
    var fields := if args.JObject? then args.fields else map[];
    && ("thinking" in fields ==> content == TextIn(fields["thinking"]))
    && ("thinking" !in fields && "trace" in fields ==> content == TextIn(fields["trace"]))
    && ("thinking" !in fields && "trace" !in fields && "content" in fields ==> content == TextIn(fields["content"]))
    && ("thinking" !in fields && "trace" !in fields && "content" !in fields ==> content == "")
  }

  function TextIn(value: Json): string {
    if value.JString? then value.text else ""
  }

  lemma ContentIs(args: Json)
    ensures IsContent(args, ContentOf(args))
  {
  }

  predicate CallsFor(c: Enforcement.Call, call: ToolCall, config: Config, content: string) {
    && (c.hasTrace <==> Extract(config.traceMode, content).trace.Some?)
    && (c.allowlisted <==> call.name in config.allowWithoutTrace)
  }

  /** The outcome of a call under a decision, for any replies of the verifier. */
  lemma OutcomeIsAnswer(call: ToolCall, config: Config, decision: Option<PolicyDecision>, replies: Replies)
    ensures var scored := ScoredIn(decision, replies);
            var outcome := OutcomeFor(call, config, decision, scored);
            && (decision.None? ==>
                  scored == None && outcome == if config.failClosed then Enforcement.FailedClosed else Enforcement.Decided(Enforcement.Allow))
            && (decision.Some? ==>
                  && Enforcement.IsScore(decision.value, replies.first, replies.second, scored)
                  && outcome.Decided?
                  && exists c: Enforcement.Call, content ::
                       && IsContent(if call.arguments.Some? then call.arguments.value else JObject(map[]), content)
                       && CallsFor(c, call, config, content) && TraceOf(call, config) == Extract(config.traceMode, content).trace
                       && Enforcement.IsAnswer(c, decision.value, ScoreOf(scored), outcome.decision))
  {
    ContentIs(ArgsOf(call));
    if decision.Some? {
      var c := Abstract(call, config);
      Enforcement.DecisionIsAnswer(c, decision.value, ScoreOf(ScoredIn(decision, replies)));
      assert CallsFor(c, call, config, ContentOf(ArgsOf(call)));
    }
  }

  /** The decision a call acts on and the cache it leaves: a held entry at most the
      time-to-live old is used and kept; otherwise the policy service's reply is
      used and stored, and without one a held entry is dropped. */
  lemma CacheAfterCall(entries: PolicyCache.Entries, h: int, ttl: nat, now: nat, later: nat, replies: Replies)
    ensures var hit := h in entries && now - entries[h].storedAt <= ttl;
            && Held(entries, h, ttl, now, replies) == (if hit then Some(entries[h].decision) else replies.policy)
            && Kept(entries, h, ttl, now, later, replies)
               == if hit then entries
                  else if replies.policy.Some? then entries[h := PolicyCache.Entry(replies.policy.value, later)]
                  else entries - {h}
  {
    if replies.policy.Some? {
      var entry := PolicyCache.Entry(replies.policy.value, later);
      assert (entries - {h})[h := entry] == entries[h := entry];
    } else if h !in entries {
      assert entries - {h} == entries;
    }
  }

  // ----- Inserts under new ids -----

  /** The graph of w has taken in these requests as new nodes; nothing else changed. */
  ghost predicate Grew(st: State, ops: seq<Runs.Op>, st': State, scrub: Scrub, w: string) {
    var g, h := GraphOf(st, w), GraphOf(st', w);
    && |h.nodes| == |g.nodes| + |ops| && h.nodes[..|g.nodes|] == g.nodes && h.edges == g.edges
    && (forall k :: 0 <= k < |ops| ==> ops[k].Insert? && Carries(h.nodes[|g.nodes| + k], ops[k].proto, scrub))
    && (forall x :: x != w ==> GraphOf(st', x) == GraphOf(st, x))
  }

  lemma OneGrows(st: State, op: Runs.Op, st': State, ttl: nat, scrub: Scrub, w: string)
    requires st.Valid() && Runs.Next(st, op, st', ttl, scrub) && PlainInsert(op, w)
    requires op.proto.id !in GraphOf(st, w).index
    ensures st'.Valid() && Grew(st, [op], st', scrub, w)
  {
    Runs.NextKeepsValid(st, op, st', ttl, scrub);
    Runs.InsertAcceptedExactly(st, op.proto, scrub, op.now);
    AcceptedNodes(st, op, scrub);
    AcceptedEdges(st, op, scrub);
    OthersStay(st, op, scrub);
    GrewOne(st, op, st', scrub, w);
  }

  lemma GrewOne(st: State, op: Runs.Op, st': State, scrub: Scrub, w: string)
    requires op.Insert? && forall x :: x != w ==> GraphOf(st', x) == GraphOf(st, x)
    requires var g, h := GraphOf(st, w), GraphOf(st', w);
             |h.nodes| == |g.nodes| + 1 && h.nodes[..|g.nodes|] == g.nodes && h.edges == g.edges && Carries(h.nodes[|g.nodes|], op.proto, scrub)
    ensures Grew(st, [op], st', scrub, w)
  {
  }

  lemma OthersStay(st: State, op: Runs.Op, scrub: Scrub)
    requires st.Valid() && op.Insert?
    ensures forall x :: x != op.proto.workflowId ==> GraphOf(Inserted(st, op.proto, scrub, op.now).0, x) == GraphOf(st, x)
  {
    forall x | x != op.proto.workflowId ensures GraphOf(Inserted(st, op.proto, scrub, op.now).0, x) == GraphOf(st, x) {
      InsertElsewhere(st, op, scrub, x);
    }
  }

  lemma GrewOn(st: State, ops: seq<Runs.Op>, mid: State, op: Runs.Op, st': State, scrub: Scrub, w: string)
    requires Grew(st, ops, mid, scrub, w) && Grew(mid, [op], st', scrub, w)
    ensures Grew(st, ops + [op], st', scrub, w)
  {
    var g, m, h := GraphOf(st, w), GraphOf(mid, w), GraphOf(st', w);
    assert h.nodes[..|g.nodes|] == h.nodes[..|m.nodes|][..|g.nodes|] == m.nodes[..|g.nodes|];
    forall k | 0 <= k < |ops| ensures Carries(h.nodes[|g.nodes| + k], ops[k].proto, scrub) {
      assert h.nodes[..|m.nodes|][|g.nodes| + k] == m.nodes[|g.nodes| + k];
    }
    assert h.nodes[|m.nodes| + 0] == h.nodes[|g.nodes| + |ops|] && [op][0] == op;
  }

  /** The ids of these requests are new to the graph and to each other. */
  predicate NewIds(g: Graph, ops: seq<Runs.Op>) {
    && AllInserts(ops)
    && (forall i :: 0 <= i < |ops| ==> ops[i].proto.id !in g.index)
    && (forall i, j :: 0 <= i < j < |ops| ==> ops[i].proto.id != ops[j].proto.id)
  }

  lemma NotThisId(st: State, ops: seq<Runs.Op>, mid: State, scrub: Scrub, w: string, id: string, i: nat)
    requires st.Valid() && Grew(st, ops, mid, scrub, w) && i < |GraphOf(mid, w).nodes|
    requires id !in GraphOf(st, w).index && forall k :: 0 <= k < |ops| && ops[k].Insert? ==> ops[k].proto.id != id
    ensures GraphOf(mid, w).nodes[i].id != id
  {
    var g, m := GraphOf(st, w), GraphOf(mid, w);
    SoundGraph(st, w);
    if i < |g.nodes| {
      assert m.nodes[..|g.nodes|][i] == g.nodes[i];
    } else {
      var k := i - |g.nodes|;
      assert Carries(m.nodes[|g.nodes| + k], ops[k].proto, scrub);
    }
  }

  lemma StillNew(st: State, ops: seq<Runs.Op>, mid: State, scrub: Scrub, w: string, id: string)
    requires st.Valid() && mid.Valid() && Grew(st, ops, mid, scrub, w)
    requires id !in GraphOf(st, w).index && forall k :: 0 <= k < |ops| && ops[k].Insert? ==> ops[k].proto.id != id
    ensures id !in GraphOf(mid, w).index
  {
    SoundGraph(mid, w);
    forall i | 0 <= i < |GraphOf(mid, w).nodes| ensures GraphOf(mid, w).nodes[i].id != id { NotThisId(st, ops, mid, scrub, w, id, i); }
  }

  lemma NewBut(g: Graph, ops: seq<Runs.Op>)
    requires ops != [] && NewIds(g, ops)
    ensures var last := |ops| - 1;
            && NewIds(g, ops[..last]) && ops[last].Insert? && ops[last].proto.id !in g.index
            && forall k :: 0 <= k < last ==> ops[..last][k].proto.id != ops[last].proto.id
  {
  }

  lemma {:induction false} NewInsertsGrow(st: State, ops: seq<Runs.Op>, st': State, ttl: nat, scrub: Scrub, w: string)
    requires st.Valid() && Leads(st, ops, st', ttl, scrub) && AllPlain(ops, w) && NewIds(GraphOf(st, w), ops)
    ensures st'.Valid() && Grew(st, ops, st', scrub, w)
    decreases |ops|
  {
    if ops != [] {
      var before, op := ops[..|ops| - 1], ops[|ops| - 1];
      var mid := LastLeads(st, ops, st', ttl, scrub);
      PlainBut(ops, w);
      NewBut(GraphOf(st, w), ops);
      NewInsertsGrow(st, before, mid, ttl, scrub, w);
      StillNew(st, before, mid, scrub, w, op.proto.id);
      OneGrows(mid, op, st', ttl, scrub, w);
      GrewOn(st, before, mid, op, st', scrub, w);
    }
  }

  // ----- What a call leaves -----

  predicate IsNode(node: GraphNode, id: string, kind: NodeType, call: ToolCall, config: Config) {
    node.id == id && node.nodeType == kind && node.agentId == config.agentId && node.workflowId == call.workflowId
  }

  predicate IsThought(node: GraphNode, call: ToolCall, config: Config, ids: Ids, trace: string, scrub: Scrub) {
    IsNode(node, ids.thinking, Thinking, call, config) && node.payload == ThinkingPayload(ids.trace, scrub(trace), "agent", ids.words)
  }

  /** The arguments as the graph service reads them back; a denial puts its rule in. */
  function RecordedArgs(call: ToolCall, d: PolicyDecision): Json {
    var args := if call.arguments.Some? then call.arguments.value else JObject(map[]);
    StructToJson(Some(JsonToStruct(
      if args.JObject? && !d.allowed then JObject(args.fields["__policy_rule_id" := JString(d.ruleId)]) else args)))
  }

  predicate IsDeed(node: GraphNode, call: ToolCall, config: Config, ids: Ids, d: PolicyDecision, allowed: bool) {
    && IsNode(node, ids.action, Action, call, config)
    && node.payload == ActionPayload("tool_call", call.name, RecordedArgs(call, d), if allowed then Allowed else Blocked)
  }

  predicate IsVerdict(node: GraphNode, call: ToolCall, config: Config, ids: Ids, one: Scored, allowed: bool) {
    && IsNode(node, ids.verification, Verification, call, config)
    && node.payload == VerificationPayload(ids.action, one.score, config.policyId, if allowed then Allowed else Blocked, one.model, one.latencyMs)
  }

  predicate HasThought(call: ToolCall, config: Config, at: Arrivals) {
    TraceOf(call, config).Some? && at.thinking.Some?
  }

  /** A policy error leaves no action. */
  predicate HasDeed(decision: Option<PolicyDecision>, at: Arrivals) {
    decision.Some? && at.action.Some?
  }

  predicate HasVerdict(decision: Option<PolicyDecision>, scored: Option<Scored>, at: Arrivals) {
    decision.Some? && decision.value.allowed && scored.Some? && at.verification.Some?
  }

  predicate WasAllowed(call: ToolCall, config: Config, decision: Option<PolicyDecision>, scored: Option<Scored>) {
    OutcomeFor(call, config, decision, scored) == Enforcement.Decided(Enforcement.Allow)
  }

  /** Where the action stands, and where the verdict, when they arrive. */
  function DeedAt(g: Graph, call: ToolCall, config: Config, at: Arrivals): nat {
    |g.nodes| + if HasThought(call, config, at) then 1 else 0
  }

  function VerdictAt(g: Graph, call: ToolCall, config: Config, at: Arrivals, decision: Option<PolicyDecision>): nat {
    DeedAt(g, call, config, at) + if HasDeed(decision, at) then 1 else 0
  }

  /** From one graph to the other, with what arrived of the call: its trace, its
      action, allowed or blocked as the call was, and the verifier's verdict on it,
      joined by an edge. */
  predicate Recorded(g: Graph, h: Graph, call: ToolCall, config: Config, ids: Ids, at: Arrivals,
                     decision: Option<PolicyDecision>, scored: Option<Scored>, scrub: Scrub)
  {
    var allowed := WasAllowed(call, config, decision, scored);
    var t := DeedAt(g, call, config, at);
    var a := VerdictAt(g, call, config, at, decision);
    var v := a + if HasVerdict(decision, scored, at) then 1 else 0;
    && |h.nodes| == v && h.nodes[..|g.nodes|] == g.nodes
    && (|g.nodes| < t ==> IsThought(h.nodes[|g.nodes|], call, config, ids, TraceOf(call, config).value, scrub))
    && (t < a ==> IsDeed(h.nodes[t], call, config, ids, decision.value, allowed))
    && (a < v ==> IsVerdict(h.nodes[a], call, config, ids, scored.value, allowed))
    && h.edges == g.edges + if t < a < v && at.link.Some? then [Edge(t, a, VerifiedBy)] else []
  }

  // ----- The requests of a call -----

  function Thoughts(call: ToolCall, config: Config, ids: Ids, at: Arrivals): seq<Runs.Op> {
    ThinkingOps(call, config, ids, at)
  }

  function Deeds(call: ToolCall, config: Config, ids: Ids, at: Arrivals, decision: Option<PolicyDecision>, scored: Option<Scored>): seq<Runs.Op> {
    match decision
    case None => []
    case Some(d) =>
      Delivered(if d.allowed then ActionNode(call, config, ids, ArgsOf(call), StatusUnder(call, config, d, scored))
                else ActionNode(call, config, ids, BlockedArgs(ArgsOf(call), d.ruleId), 2), at.action)
  }

  function StatusUnder(call: ToolCall, config: Config, d: PolicyDecision, scored: Option<Scored>): int {
    StatusFor(Enforcement.DecisionFor(Abstract(call, config), d, ScoreOf(scored)))
  }

  function Verdicts(call: ToolCall, config: Config, ids: Ids, at: Arrivals, decision: Option<PolicyDecision>, scored: Option<Scored>): seq<Runs.Op> {
    if decision.Some? && decision.value.allowed && scored.Some?
    then Delivered(VerificationNode(call, config, ids, scored.value, StatusUnder(call, config, decision.value, scored)), at.verification)
    else []
  }

  lemma InsertsAre(call: ToolCall, config: Config, ids: Ids, at: Arrivals, decision: Option<PolicyDecision>, scored: Option<Scored>)
    ensures Inserts(call, config, ids, at, decision, scored)
         == Thoughts(call, config, ids, at) + (Deeds(call, config, ids, at, decision, scored) + Verdicts(call, config, ids, at, decision, scored))
  {
    var deeds, verdicts := Deeds(call, config, ids, at, decision, scored), Verdicts(call, config, ids, at, decision, scored);
    assert deeds + [] == deeds && verdicts + [] == verdicts;
  }

  lemma ThoughtCarried(node: GraphNode, call: ToolCall, config: Config, ids: Ids, trace: string, scrub: Scrub)
    requires Carries(node, ThinkingNode(call, config, ids, trace), scrub)
    ensures IsThought(node, call, config, ids, trace, scrub)
  {
  }

  lemma DeedCarried(node: GraphNode, call: ToolCall, config: Config, ids: Ids, d: PolicyDecision, args: Json, status: int, scrub: Scrub)
    requires Carries(node, ActionNode(call, config, ids, args, status), scrub) && (status == 1 || status == 2)
    requires args == if d.allowed then ArgsOf(call) else BlockedArgs(ArgsOf(call), d.ruleId)
    ensures IsDeed(node, call, config, ids, d, status == 1)
  {
  }

  lemma VerdictCarried(node: GraphNode, call: ToolCall, config: Config, ids: Ids, one: Scored, status: int, scrub: Scrub)
    requires Carries(node, VerificationNode(call, config, ids, one, status), scrub) && (status == 1 || status == 2)
    ensures IsVerdict(node, call, config, ids, one, status == 1)
  {
  }

  lemma NewCallIds(g: Graph, call: ToolCall, config: Config, ids: Ids, at: Arrivals, decision: Option<PolicyDecision>, scored: Option<Scored>)
    requires ids.thinking !in g.index && ids.action !in g.index && ids.verification !in g.index
    requires ids.action != ids.thinking && ids.action != ids.verification && ids.thinking != ids.verification
    ensures NewIds(g, Inserts(call, config, ids, at, decision, scored))
  {
    var t, a, v := Thoughts(call, config, ids, at), Deeds(call, config, ids, at, decision, scored), Verdicts(call, config, ids, at, decision, scored);
    InsertsAre(call, config, ids, at, decision, scored);
    NewIdsAfter(g, a, v);
    NewIdsAfter(g, t, a + v);
  }

  lemma NewIdsAfter(g: Graph, a: seq<Runs.Op>, b: seq<Runs.Op>)
    requires NewIds(g, a) && NewIds(g, b) && forall i, j :: 0 <= i < |a| && 0 <= j < |b| ==> a[i].proto.id != b[j].proto.id
    ensures NewIds(g, a + b)
  {
  }

  /** What the requests of a call grow, before any link. */
  lemma CallGrows(st: State, st': State, ttl: nat, scrub: Scrub, call: ToolCall, config: Config, ids: Ids, at: Arrivals,
                  decision: Option<PolicyDecision>, scored: Option<Scored>)
    requires st.Valid() && FreshIds(st, call.workflowId, ids)
    requires Leads(st, Inserts(call, config, ids, at, decision, scored), st', ttl, scrub)
    ensures st'.Valid() && Grew(st, Inserts(call, config, ids, at, decision, scored), st', scrub, call.workflowId)
  {
    CallInsertsPlain(call, config, ids, at, decision, scored);
    NewCallIds(GraphOf(st, call.workflowId), call, config, ids, at, decision, scored);
    NewInsertsGrow(st, Inserts(call, config, ids, at, decision, scored), st', ttl, scrub, call.workflowId);
  }

  /** Three runs of requests, and the nodes they became. */
  lemma Parts(st: State, t: seq<Runs.Op>, a: seq<Runs.Op>, v: seq<Runs.Op>, st': State, scrub: Scrub, w: string)
    requires Grew(st, t + (a + v), st', scrub, w) && |t| <= 1 && |a| <= 1 && |v| <= 1
    ensures var n, h := |GraphOf(st, w).nodes|, GraphOf(st', w).nodes;
            && |h| == n + |t| + |a| + |v|
            && (t != [] ==> t[0].Insert? && Carries(h[n], t[0].proto, scrub))
            && (a != [] ==> a[0].Insert? && Carries(h[n + |t|], a[0].proto, scrub))
            && (v != [] ==> v[0].Insert? && Carries(h[n + |t| + |a|], v[0].proto, scrub))
  {
    var ops, n, h := t + (a + v), |GraphOf(st, w).nodes|, GraphOf(st', w).nodes;
    if t != [] { assert ops[0] == t[0] && Carries(h[n + 0], ops[0].proto, scrub); }
    if a != [] { assert ops[|t|] == a[0]; }
    if v != [] { assert ops[|t| + |a|] == v[0] && Carries(h[n + (|t| + |a|)], ops[|t| + |a|].proto, scrub); }
  }

  lemma Sizes(call: ToolCall, config: Config, ids: Ids, at: Arrivals, decision: Option<PolicyDecision>, scored: Option<Scored>)
    ensures |Thoughts(call, config, ids, at)| == if HasThought(call, config, at) then 1 else 0
    ensures |Deeds(call, config, ids, at, decision, scored)| == if HasDeed(decision, at) then 1 else 0
    ensures |Verdicts(call, config, ids, at, decision, scored)| == if HasVerdict(decision, scored, at) then 1 else 0
  {
  }

  lemma ThoughtRecorded(node: GraphNode, call: ToolCall, config: Config, ids: Ids, at: Arrivals, scrub: Scrub)
    requires HasThought(call, config, at)
    requires var t := Thoughts(call, config, ids, at); t != [] && t[0].Insert? && Carries(node, t[0].proto, scrub)
    ensures IsThought(node, call, config, ids, TraceOf(call, config).value, scrub)
  {
    ThoughtCarried(node, call, config, ids, TraceOf(call, config).value, scrub);
  }

  lemma DeedRecorded(node: GraphNode, call: ToolCall, config: Config, ids: Ids, at: Arrivals, decision: Option<PolicyDecision>,
                     scored: Option<Scored>, scrub: Scrub)
    requires HasDeed(decision, at)
    requires var a := Deeds(call, config, ids, at, decision, scored); a != [] && a[0].Insert? && Carries(node, a[0].proto, scrub)
    ensures IsDeed(node, call, config, ids, decision.value, WasAllowed(call, config, decision, scored))
  {
    var d := decision.value;
    var args, status := if d.allowed then ArgsOf(call) else BlockedArgs(ArgsOf(call), d.ruleId), if d.allowed then StatusUnder(call, config, d, scored) else 2;
    DeedCarried(node, call, config, ids, d, args, status, scrub);
  }

  lemma VerdictRecorded(node: GraphNode, call: ToolCall, config: Config, ids: Ids, at: Arrivals, decision: Option<PolicyDecision>,
                        scored: Option<Scored>, scrub: Scrub)
    requires HasVerdict(decision, scored, at)
    requires var v := Verdicts(call, config, ids, at, decision, scored); v != [] && v[0].Insert? && Carries(node, v[0].proto, scrub)
    ensures IsVerdict(node, call, config, ids, scored.value, WasAllowed(call, config, decision, scored))
  {
    VerdictCarried(node, call, config, ids, scored.value, StatusUnder(call, config, decision.value, scored), scrub);
  }

  lemma GrownIsRecorded(st: State, st': State, scrub: Scrub, call: ToolCall, config: Config, ids: Ids, at: Arrivals,
                        decision: Option<PolicyDecision>, scored: Option<Scored>)
    requires Grew(st, Inserts(call, config, ids, at, decision, scored), st', scrub, call.workflowId)
    ensures Recorded(GraphOf(st, call.workflowId), GraphOf(st', call.workflowId), call, config, ids, at.(link := None), decision, scored, scrub)
  {
    var t, a, v := Thoughts(call, config, ids, at), Deeds(call, config, ids, at, decision, scored), Verdicts(call, config, ids, at, decision, scored);
    InsertsAre(call, config, ids, at, decision, scored);
    Sizes(call, config, ids, at, decision, scored);
    Parts(st, t, a, v, st', scrub, call.workflowId);
    Assembled(GraphOf(st, call.workflowId), GraphOf(st', call.workflowId), t, a, v, call, config, ids, at, decision, scored, scrub);
  }

  lemma Assembled(g: Graph, h: Graph, t: seq<Runs.Op>, a: seq<Runs.Op>, v: seq<Runs.Op>, call: ToolCall, config: Config, ids: Ids, at: Arrivals,
                  decision: Option<PolicyDecision>, scored: Option<Scored>, scrub: Scrub)
    requires t == Thoughts(call, config, ids, at)
    requires a == Deeds(call, config, ids, at, decision, scored) && v == Verdicts(call, config, ids, at, decision, scored)
    requires |t| == (if HasThought(call, config, at) then 1 else 0) && |a| == (if HasDeed(decision, at) then 1 else 0)
    requires |v| == if HasVerdict(decision, scored, at) then 1 else 0
    requires |h.nodes| == |g.nodes| + |t| + |a| + |v| && h.nodes[..|g.nodes|] == g.nodes && h.edges == g.edges
    requires t != [] ==> t[0].Insert? && Carries(h.nodes[|g.nodes|], t[0].proto, scrub)
    requires a != [] ==> a[0].Insert? && Carries(h.nodes[|g.nodes| + |t|], a[0].proto, scrub)
    requires v != [] ==> v[0].Insert? && Carries(h.nodes[|g.nodes| + |t| + |a|], v[0].proto, scrub)
    ensures Recorded(g, h, call, config, ids, at.(link := None), decision, scored, scrub)
  {
    var n := |g.nodes|;
    if t != [] { ThoughtRecorded(h.nodes[n], call, config, ids, at, scrub); }
    if a != [] { DeedRecorded(h.nodes[n + |t|], call, config, ids, at, decision, scored, scrub); }
    if v != [] { VerdictRecorded(h.nodes[n + |t| + |a|], call, config, ids, at, decision, scored, scrub); }
    assert g.edges + [] == g.edges;
  }

  // ----- The edge -----

  /** No other workflow's graph holds these ids. */
  predicate NotElsewhere(st: State, w: string, ids: Ids) {
    forall x :: x in st.graphs && x != w ==> ids.action !in st.graphs[x].ccg.index && ids.verification !in st.graphs[x].ccg.index
  }

  lemma LinkStays(st: State, edge: ProtoEdge, now: Now, st': State, ttl: nat, scrub: Scrub, w: string)
    requires st.Valid() && Runs.Next(st, Runs.Link(edge, now), st', ttl, scrub)
    requires forall x :: x != w ==> !Candidate(st, x, edge)
    ensures st' == if Candidate(st, w, edge) then EdgeLinked(st, w, edge, now).0 else st
  {
  }

  /** An edge between two nodes of w lands there; the target has no edge out. */
  lemma LinkLands(st: State, edge: ProtoEdge, now: Now, st': State, ttl: nat, scrub: Scrub, w: string)
    requires st.Valid() && Runs.Next(st, Runs.Link(edge, now), st', ttl, scrub) && edge.edgeType == 2
    requires forall x :: x != w ==> !Candidate(st, x, edge)
    requires var g := GraphOf(st, w); edge.target in g.index ==> forall e :: e in g.edges ==> e.source != g.index[edge.target]
    requires edge.source != edge.target
    ensures var g, h := GraphOf(st, w), GraphOf(st', w);
            && h.nodes == g.nodes
            && h.edges == g.edges + if edge.source in g.index && edge.target in g.index
                                    then [Edge(g.index[edge.source], g.index[edge.target], VerifiedBy)] else []
    ensures forall x :: x != w ==> GraphOf(st', x) == GraphOf(st, x)
  {
    var g := GraphOf(st, w);
    LinkStays(st, edge, now, st', ttl, scrub, w);
    assert g.edges + [] == g.edges;
    if Candidate(st, w, edge) {
      Runs.LinkAcceptedExactly(st, w, edge, now);
      if edge.source in g.index && edge.target in g.index && Reaches(g.Arcs(), g.index[edge.target], g.index[edge.source]) {
        SinkReachesItself(g.Arcs(), g.index[edge.target], g.index[edge.source]);
      }
    }
  }

  lemma HeldAt(h: Graph, id: string, k: nat)
    requires h.Sound() && k < |h.nodes| && h.nodes[k].id == id
    ensures id in h.index && h.index[id] == k
  {
  }

  lemma HeldNowhere(h: Graph, id: string)
    requires h.Sound() && forall k :: 0 <= k < |h.nodes| ==> h.nodes[k].id != id
    ensures id !in h.index
  {
  }

  /** The ids of the nodes a call adds. */
  predicate Names(g: Graph, h: Graph, ids: Ids, thought: bool, deed: bool, verdict: bool) {
    var t := |g.nodes| + if thought then 1 else 0;
    var a := t + if deed then 1 else 0;
    && |h.nodes| == a + (if verdict then 1 else 0) && h.nodes[..|g.nodes|] == g.nodes
    && (thought ==> h.nodes[|g.nodes|].id == ids.thinking)
    && (deed ==> h.nodes[t].id == ids.action)
    && (verdict ==> h.nodes[a].id == ids.verification)
  }

  lemma RecordedNames(g: Graph, h: Graph, call: ToolCall, config: Config, ids: Ids, at: Arrivals,
                      decision: Option<PolicyDecision>, scored: Option<Scored>, scrub: Scrub)
    requires Recorded(g, h, call, config, ids, at, decision, scored, scrub)
    ensures Names(g, h, ids, HasThought(call, config, at), HasDeed(decision, at), HasVerdict(decision, scored, at))
  {
  }

  lemma OldIds(g: Graph, h: Graph, id: string)
    requires g.Sound() && id !in g.index && |g.nodes| <= |h.nodes| && h.nodes[..|g.nodes|] == g.nodes
    ensures forall k :: 0 <= k < |g.nodes| ==> h.nodes[k].id != id
  {
    assert forall k :: 0 <= k < |g.nodes| ==> h.nodes[..|g.nodes|][k] == g.nodes[k];
  }

  /** Where the ids of a recorded call stand. */
  lemma DeedId(g: Graph, h: Graph, ids: Ids, thought: bool, deed: bool, verdict: bool)
    requires g.Sound() && h.Sound() && Names(g, h, ids, thought, deed, verdict)
    requires ids.action !in g.index && ids.action != ids.thinking && ids.action != ids.verification
    ensures if deed then ids.action in h.index && h.index[ids.action] == |g.nodes| + if thought then 1 else 0
            else ids.action !in h.index
  {
    OldIds(g, h, ids.action);
    if deed { HeldAt(h, ids.action, |g.nodes| + if thought then 1 else 0); } else { HeldNowhere(h, ids.action); }
  }

  lemma VerdictId(g: Graph, h: Graph, ids: Ids, thought: bool, deed: bool, verdict: bool)
    requires g.Sound() && h.Sound() && Names(g, h, ids, thought, deed, verdict)
    requires ids.verification !in g.index && ids.verification != ids.thinking && ids.action != ids.verification
    ensures var a := |g.nodes| + (if thought then 1 else 0) + if deed then 1 else 0;
            if verdict then ids.verification in h.index && h.index[ids.verification] == a
            else ids.verification !in h.index
  {
    OldIds(g, h, ids.verification);
    if verdict {
      HeldAt(h, ids.verification, |g.nodes| + (if thought then 1 else 0) + if deed then 1 else 0);
    } else {
      HeldNowhere(h, ids.verification);
    }
  }

  lemma LinkEnds(g: Graph, m: Graph, call: ToolCall, config: Config, ids: Ids, at: Arrivals,
                 decision: Option<PolicyDecision>, scored: Option<Scored>, scrub: Scrub)
    requires g.Sound() && m.Sound() && Recorded(g, m, call, config, ids, at.(link := None), decision, scored, scrub)
    requires ids.action !in g.index && ids.verification !in g.index
    requires ids.action != ids.thinking && ids.action != ids.verification && ids.thinking != ids.verification
    ensures if HasDeed(decision, at) then ids.action in m.index && m.index[ids.action] == DeedAt(g, call, config, at)
            else ids.action !in m.index
    ensures if HasVerdict(decision, scored, at)
            then ids.verification in m.index && m.index[ids.verification] == VerdictAt(g, call, config, at, decision)
            else ids.verification !in m.index
    ensures forall e :: e in m.edges ==> e.source != VerdictAt(g, call, config, at, decision)
  {
    assert m.edges == g.edges;
    RecordedNames(g, m, call, config, ids, at.(link := None), decision, scored, scrub);
    DeedId(g, m, ids, HasThought(call, config, at), HasDeed(decision, at), HasVerdict(decision, scored, at));
    VerdictId(g, m, ids, HasThought(call, config, at), HasDeed(decision, at), HasVerdict(decision, scored, at));
  }

  lemma LinkedRecorded(g: Graph, m: Graph, h: Graph, call: ToolCall, config: Config, ids: Ids, at: Arrivals,
                       decision: Option<PolicyDecision>, scored: Option<Scored>, scrub: Scrub)
    requires at.link.Some? && Recorded(g, m, call, config, ids, at.(link := None), decision, scored, scrub) && h.nodes == m.nodes
    requires h.edges == m.edges + if HasDeed(decision, at) && HasVerdict(decision, scored, at)
                                  then [Edge(DeedAt(g, call, config, at), VerdictAt(g, call, config, at, decision), VerifiedBy)] else []
    ensures Recorded(g, h, call, config, ids, at, decision, scored, scrub)
  {
    assert m.edges == g.edges;
  }

  lemma LinkRecorded(mid: State, st': State, ttl: nat, scrub: Scrub, g: Graph, call: ToolCall, config: Config, ids: Ids, at: Arrivals,
                     decision: Option<PolicyDecision>, scored: Option<Scored>)
    requires mid.Valid() && g.Sound() && at.link.Some? && NotElsewhere(mid, call.workflowId, ids)
    requires ids.action !in g.index && ids.verification !in g.index
    requires ids.action != ids.thinking && ids.action != ids.verification && ids.thinking != ids.verification
    requires Recorded(g, GraphOf(mid, call.workflowId), call, config, ids, at.(link := None), decision, scored, scrub)
    requires Runs.Next(mid, Runs.Link(ProtoEdge(ids.action, ids.verification, 2), at.link.value), st', ttl, scrub)
    ensures Recorded(g, GraphOf(st', call.workflowId), call, config, ids, at, decision, scored, scrub)
    ensures forall x :: x != call.workflowId ==> GraphOf(st', x) == GraphOf(mid, x)
  {
    var m := GraphOf(mid, call.workflowId);
    SoundGraph(mid, call.workflowId);
    LinkEnds(g, m, call, config, ids, at, decision, scored, scrub);
    LinkLands(mid, ProtoEdge(ids.action, ids.verification, 2), at.link.value, st', ttl, scrub, call.workflowId);
    LinkedRecorded(g, m, GraphOf(st', call.workflowId), call, config, ids, at, decision, scored, scrub);
  }

  lemma CallWithoutLink(st: State, st': State, ttl: nat, scrub: Scrub, call: ToolCall, config: Config, ids: Ids, at: Arrivals,
                        decision: Option<PolicyDecision>, scored: Option<Scored>)
    requires st.Valid() && FreshIds(st, call.workflowId, ids)
    requires Leads(st, Inserts(call, config, ids, at, decision, scored), st', ttl, scrub)
    ensures st'.Valid() && forall x :: x != call.workflowId ==> GraphOf(st', x) == GraphOf(st, x)
    ensures Recorded(GraphOf(st, call.workflowId), GraphOf(st', call.workflowId), call, config, ids, at.(link := None), decision, scored, scrub)
  {
    CallGrows(st, st', ttl, scrub, call, config, ids, at, decision, scored);
    GrownIsRecorded(st, st', scrub, call, config, ids, at, decision, scored);
  }

  lemma NoLinkRecorded(g: Graph, h: Graph, call: ToolCall, config: Config, ids: Ids, at: Arrivals,
                       decision: Option<PolicyDecision>, scored: Option<Scored>, scrub: Scrub)
    requires Recorded(g, h, call, config, ids, at.(link := None), decision, scored, scrub) && LinkOf(ids, at, decision, scored) == []
    ensures Recorded(g, h, call, config, ids, at, decision, scored, scrub)
  {
  }

  /** Under new ids, whichever requests are lost on the way: the workflow's graph
      gains exactly the nodes of the requests that arrive, in their order, and the
      edge from the action to its verification when both and the link arrive. The
      other graphs stay. */
  lemma CallIsRecorded(st: State, st': State, ttl: nat, scrub: Scrub, call: ToolCall, config: Config, ids: Ids, at: Arrivals,
                       decision: Option<PolicyDecision>, scored: Option<Scored>)
    requires st.Valid() && FreshIds(st, call.workflowId, ids) && NotElsewhere(st, call.workflowId, ids)
    requires Leads(st, CallOps(call, config, ids, at, decision, scored), st', ttl, scrub)
    ensures Recorded(GraphOf(st, call.workflowId), GraphOf(st', call.workflowId), call, config, ids, at, decision, scored, scrub)
    ensures forall x :: x != call.workflowId ==> GraphOf(st', x) == GraphOf(st, x)
  {
    var ops, link := Inserts(call, config, ids, at, decision, scored), LinkOf(ids, at, decision, scored);
    CallOpsSplit(call, config, ids, at, decision, scored);
    SoundGraph(st, call.workflowId);
    if link == [] {
      assert ops + link == ops;
      CallWithoutLink(st, st', ttl, scrub, call, config, ids, at, decision, scored);
      NoLinkRecorded(GraphOf(st, call.workflowId), GraphOf(st', call.workflowId), call, config, ids, at, decision, scored, scrub);
    } else {
      assert (ops + link)[..|ops|] == ops;
      var mid := LastLeads(st, ops + link, st', ttl, scrub);
      CallWithoutLink(st, mid, ttl, scrub, call, config, ids, at, decision, scored);
      StillNotElsewhere(st, mid, call.workflowId, ids);
      LinkRecorded(mid, st', ttl, scrub, GraphOf(st, call.workflowId), call, config, ids, at, decision, scored);
    }
  }

  lemma StillNotElsewhere(st: State, mid: State, w: string, ids: Ids)
    requires NotElsewhere(st, w, ids) && forall x :: x != w ==> GraphOf(mid, x) == GraphOf(st, x)
    ensures NotElsewhere(mid, w, ids)
  {
    forall x | x in mid.graphs && x != w
      ensures ids.action !in mid.graphs[x].ccg.index && ids.verification !in mid.graphs[x].ccg.index
    {
      assert GraphOf(mid, x) == GraphOf(st, x);
    }
  }
}
