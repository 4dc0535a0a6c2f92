/** The graph service's store: graph/src/store.rs. One workflow's graph per id,
    a ledger of violations that outlives the graphs, and expiry. */
module GraphStore {
  import opened Options
  import opened Floats
  import opened Numerals
  import opened Json
  import opened Digraph
  import opened Ccg

  // ----- Messages -----

  datatype ProtoPayload =
    | ProtoThinking(traceId: string, content: string, modelName: string, tokenCount: u32)
    | ProtoAction(actionType: string, toolName: string, arguments: Option<ProtoStruct>, status: int)
    | ProtoHandoff(sourceAgentId: string, targetAgentId: string, taskId: string, contextHash: string)
    | ProtoVerification(parentNodeId: string, deviationScore: Float, policyId: string, verdict: int,
                        verifierModel: string, latencyMs: u32)

  datatype ProtoNode = ProtoNode(id: string, nodeType: int, agentId: string, workflowId: string, payload: Option<ProtoPayload>)

  datatype ProtoEdge = ProtoEdge(source: string, target: string, edgeType: int)

  function NodeTypeOf(code: int): Option<NodeType> {
    match code
    case 0 => Some(Thinking)
    case 1 => Some(Action)
    case 2 => Some(Handoff)
    case 3 => Some(Verification)
    case _ => None
  }

  function EdgeTypeOf(code: int): Option<EdgeType> {
    match code
    case 0 => Some(CausedBy)
    case 1 => Some(InformedBy)
    case 2 => Some(VerifiedBy)
    case _ => None
  }

  /** The generated accessor reads an unknown code as the default, Pending. */
  function StatusOf(code: int): ActionStatus {
    match code
    case 1 => Allowed
    case 2 => Blocked
    case _ => Pending
  }

  function PayloadOf(p: ProtoPayload): NodePayload {
    match p
    case ProtoThinking(trace, content, model, tokens) => ThinkingPayload(trace, content, model, tokens)
    case ProtoAction(kind, tool, arguments, status) => ActionPayload(kind, tool, StructToJson(arguments), StatusOf(status))
    case ProtoHandoff(source, target, task, hash) => HandoffPayload(source, target, task, hash)
    case ProtoVerification(parent, score, policy, verdict, model, latency) =>
      VerificationPayload(parent, score, policy, StatusOf(verdict), model, latency)
  }

  /** The payload is looked at before the type code. */
  function ConvertNode(node: ProtoNode): Result<GraphNode, GraphError> {
    if node.payload.None? then Err(UnknownNode("missing payload"))
    else match NodeTypeOf(node.nodeType)
      case None => Err(UnknownNode("invalid node type"))
      case Some(kind) => Ok(GraphNode(node.id, kind, node.agentId, node.workflowId, PayloadOf(node.payload.value)))
  }

  /** Removal of personal data from reasoning text is not modelled: `scrub` is any function. */
  type Scrub = string -> string

  function Scrubbed(node: GraphNode, scrub: Scrub): GraphNode {
    match node.payload
    case ThinkingPayload(trace, content, model, tokens) =>
      node.(payload := ThinkingPayload(trace, scrub(content), model, tokens))
    case _ => node
  }

  // ----- Renderings -----

  datatype NodeResponse = NodeResponse(
    id: string, nodeType: string, agentId: string, actionType: Option<string>, toolName: Option<string>,
    deviationScore: Option<Float>, status: Option<string>)

  datatype EdgeResponse = EdgeResponse(source: string, target: string, edgeType: string)

  datatype GraphResponse = GraphResponse(graphId: string, workflowId: string, nodes: seq<NodeResponse>, edges: seq<EdgeResponse>)

  function StatusText(s: ActionStatus): string {
    match s case Pending => "pending" case Allowed => "allowed" case Blocked => "blocked"
  }

  function EdgeText(t: EdgeType): string {
    match t case CausedBy => "CausedBy" case InformedBy => "InformedBy" case VerifiedBy => "VerifiedBy"
  }

  function NodeResponseOf(n: GraphNode): NodeResponse {
    match n.payload
    case ThinkingPayload(_, _, _, _) => NodeResponse(n.id, "ThinkingNode", n.agentId, None, None, None, None)
    case ActionPayload(kind, tool, _, status) =>
      NodeResponse(n.id, "ActionNode", n.agentId, Some(kind), Some(tool), None, Some(StatusText(status)))
    case HandoffPayload(_, _, _, _) => NodeResponse(n.id, "HandoffNode", n.agentId, None, None, None, None)
    case VerificationPayload(_, score, _, _, _, _) =>
      NodeResponse(n.id, "VerificationNode", n.agentId, None, None, Some(score), None)
  }

  function NodeResponses(nodes: seq<GraphNode>): (r: seq<NodeResponse>)
    ensures |r| == |nodes| && forall i :: 0 <= i < |r| ==> r[i] == NodeResponseOf(nodes[i])
  {
    seq(|nodes|, i requires 0 <= i < |nodes| => NodeResponseOf(nodes[i]))
  }

  /** An edge whose end is missing would be skipped; sound graphs have none. */
  function EdgeResponses(g: Graph, edges: seq<Edge>): seq<EdgeResponse> {
    if edges == [] then []
    else
      var e := edges[0];
      (if e.source < |g.nodes| && e.target < |g.nodes|
       then [EdgeResponse(g.nodes[e.source].id, g.nodes[e.target].id, EdgeText(e.kind))]
       else []) + EdgeResponses(g, edges[1..])
  }

  function BuildGraphResponse(graphId: string, data: GraphData): GraphResponse {
    GraphResponse(graphId, data.workflowId, NodeResponses(data.ccg.nodes), EdgeResponses(data.ccg, data.ccg.edges))
  }

  // ----- The state -----

  datatype GraphData = GraphData(ccg: Graph, workflowId: string, status: string, lastUpdated: nat)

  datatype ViolationRecord = ViolationRecord(
    violationId: string, workflowId: string, nodeId: string, ruleId: string, agentId: string,
    timestamp: int, deviationScore: Float, threshold: Float, snapshot: GraphResponse)

  datatype State = State(graphs: map<string, GraphData>, violations: seq<ViolationRecord>) {
    /** What every reachable state satisfies. */
    ghost predicate Valid() {
      forall id :: id in graphs ==> graphs[id].ccg.Sound() && graphs[id].ccg.Acyclic()
    }
  }

  /** The clock read during one operation: a monotone instant and a wall-clock second. */
  datatype Now = Now(instant: nat, wall: int)

  // ----- Violations -----

  /** Rule, score and threshold of a node that records a violation. */
  datatype Offence = Offence(ruleId: string, score: Float, threshold: Float)

  function RuleIdOf(arguments: Json): string {
    if arguments.JObject? && "__policy_rule_id" in arguments.fields && arguments.fields["__policy_rule_id"].JString?
    then arguments.fields["__policy_rule_id"].text
    else ""
  }

  function OffenceOf(payload: NodePayload): Option<Offence> {
    match payload
    case VerificationPayload(_, score, policy, verdict, _, _) =>
      if verdict == Blocked then Some(Offence(policy, score, Finite(0.7))) else None
    case ActionPayload(_, _, arguments, status) =>
      if status == Blocked && RuleIdOf(arguments) != ""
      then Some(Offence(RuleIdOf(arguments), Finite(1.0), Finite(1.0)))
      else None
    case _ => None
  }

  function RecordOf(graphId: string, data: GraphData, node: GraphNode, offence: Offence, now: Now): ViolationRecord {
    ViolationRecord("violation-" + node.id, graphId, node.id, offence.ruleId, node.agentId, now.wall,
                    offence.score, offence.threshold, BuildGraphResponse(graphId, data))
  }

  // ----- What each operation does to the state -----

  function NewData(workflow: string, now: Now): GraphData {
    GraphData(EMPTY, workflow, "active", now.instant)
  }

  /** The state once the entry for a workflow exists. */
  function Opened(st: State, workflow: string, now: Now): State {
    if workflow in st.graphs then st else st.(graphs := st.graphs[workflow := NewData(workflow, now)])
  }

  /** The graph after the node is in and, for a handoff, linked. */
  function Grown(g: Graph, node: GraphNode): Graph {
    var h := Upserted(g, node);
    if node.nodeType == Handoff && node.id in h.index then Linked(h, h.index[node.id], node.agentId) else h
  }

  /** The ledger after looking at the node stored under an id. */
  function Captured(st: State, graphId: string, nodeId: string, now: Now): State {
    if graphId in st.graphs && nodeId in st.graphs[graphId].ccg.index then
      var data := st.graphs[graphId];
      var i := data.ccg.index[nodeId];
      if i < |data.ccg.nodes| && OffenceOf(data.ccg.nodes[i].payload).Some? then
        var node := data.ccg.nodes[i];
        st.(violations := st.violations + [RecordOf(graphId, data, node, OffenceOf(node.payload).value, now)])
      else st
    else st
  }

  function Stored(st: State, graphId: string, g: Graph, now: Now): State
    requires graphId in st.graphs
  {
    st.(graphs := st.graphs[graphId := st.graphs[graphId].(ccg := g, lastUpdated := now.instant)])
  }

  ghost function InsertedInto(st: State, graphId: string, node: GraphNode, now: Now): (State, Result<string, GraphError>)
    requires graphId in st.graphs
  {
    var grown := Grown(st.graphs[graphId].ccg, node);
    if grown.Acyclic() then (Captured(Stored(st, graphId, grown, now), graphId, node.id, now), Ok(graphId))
    else (st, Err(UnknownNode("cycle detected")))
  }

  /** A failed conversion or a cycle leaves the entry that was opened. */
  ghost function Inserted(st: State, proto: ProtoNode, scrub: Scrub, now: Now): (State, Result<string, GraphError>) {
    var ready := Opened(st, proto.workflowId, now);
    match ConvertNode(proto)
    case Err(e) => (ready, Err(e))
    case Ok(converted) => InsertedInto(ready, proto.workflowId, Scrubbed(converted, scrub), now)
  }

  /** A graph the scan over the hash map may stop at. */
  predicate Candidate(st: State, graphId: string, edge: ProtoEdge) {
    && graphId in st.graphs
    && (edge.source in st.graphs[graphId].ccg.index || edge.target in st.graphs[graphId].ccg.index)
  }

  ghost function EdgeLinked(st: State, graphId: string, edge: ProtoEdge, now: Now): (State, Result<(), GraphError>)
    requires graphId in st.graphs
  {
    var data := st.graphs[graphId];
    var g, kind := data.ccg, EdgeTypeOf(edge.edgeType);
    if kind.None? then (st, Err(UnknownNode("invalid edge type")))
    else if edge.source !in g.index then (st, Err(UnknownNode(edge.source)))
    else if edge.target !in g.index then (st, Err(UnknownNode(edge.target)))
    else
      var grown := WithEdge(g, g.index[edge.source], g.index[edge.target], kind.value);
      if grown.Acyclic() then (Stored(st, graphId, grown, now), Ok(()))
      else (st, Err(UnknownNode("cycle detected")))
  }

  function Expired(st: State, ttl: nat, now: Now): State {
    st.(graphs := map id | id in st.graphs && now.instant - st.graphs[id].lastUpdated <= ttl :: st.graphs[id])
  }

  // ----- The store object -----

  lemma UpdatedTwice(graphs: map<string, GraphData>, id: string, a: GraphData, b: GraphData)
    ensures graphs[id := a][id := b] == graphs[id := b]
  {
  }

  lemma UpdatedBack(graphs: map<string, GraphData>, id: string, a: GraphData)
    requires id in graphs
    ensures graphs[id := a][id := graphs[id]] == graphs
  {
  }

  /** Puts a node in, links it if it is a handoff, and checks the result. */
  method GrowAndValidate(ccg: CausalGraph, node: GraphNode) returns (ok: bool)
    requires ccg.View().Sound()
    modifies ccg
    ensures ccg.View() == Grown(old(ccg.View()), node) && ccg.View().Sound()
    ensures ok <==> ccg.View().Acyclic()
  {
    UpsertedKeeps(ccg.View(), node);
    ghost var upserted := Upserted(ccg.View(), node);
    var i := ccg.UpsertNode(node);
    if node.nodeType == Handoff {
      LinkedKeeps(upserted, i, node.agentId);
      var _ := ccg.LinkHandoff(node.id, node.agentId);
    }
    ok := ccg.ValidateDag();
  }

  class GraphStore {
    var graphs: map<string, GraphData>
    var violations: seq<ViolationRecord>
    const ttl: nat
    const scrub: Scrub

    function View(): State
      reads this
    {
      State(graphs, violations)
    }

    constructor (ttl: nat, scrub: Scrub)
      ensures View() == State(map[], []) && this.ttl == ttl && this.scrub == scrub
    {
      graphs, violations := map[], [];
      this.ttl, this.scrub := ttl, scrub;
    }

    method OpenGraph(workflow: string, now: Now)
      requires View().Valid()
      modifies this`graphs
      ensures View() == Opened(old(View()), workflow, now) && View().Valid() && workflow in graphs
    {
      if workflow !in graphs {
        graphs := graphs[workflow := NewData(workflow, now)];
        NoArcsNoCycle();
      }
    }

    method InsertNode(proto: ProtoNode, now: Now) returns (r: Result<string, GraphError>)
      requires View().Valid()
      modifies this
      ensures (View(), r) == Inserted(old(View()), proto, scrub, now)
      ensures View().Valid()
    {
      OpenGraph(proto.workflowId, now);
      var converted := ConvertNode(proto);
      if converted.Err? { return Err(converted.error); }
      r := InsertInto(proto.workflowId, Scrubbed(converted.value, scrub), now);
    }

    method InsertInto(graphId: string, node: GraphNode, now: Now) returns (r: Result<string, GraphError>)
      requires View().Valid() && graphId in graphs
      modifies this
      ensures (View(), r) == InsertedInto(old(View()), graphId, node, now)
      ensures View().Valid()
    {
      ghost var before := View();
      var previous := graphs[graphId].ccg;
      var ccg := new CausalGraph.From(previous);
      var ok := GrowAndValidate(ccg, node);
      graphs := graphs[graphId := graphs[graphId].(ccg := ccg.View())];
      if !ok {
        graphs := graphs[graphId := graphs[graphId].(ccg := previous)];
        assert graphs == before.graphs;
        return Err(UnknownNode("cycle detected"));
      }
      graphs := graphs[graphId := graphs[graphId].(lastUpdated := now.instant)];
      assert graphs == Stored(before, graphId, ccg.View(), now).graphs;
      CaptureViolationIfNeeded(graphId, node.id, now);
      r := Ok(graphId);
    }

    method CaptureViolationIfNeeded(graphId: string, nodeId: string, now: Now)
      modifies this`violations
      ensures View() == Captured(old(View()), graphId, nodeId, now)
    {
      if graphId !in graphs || nodeId !in graphs[graphId].ccg.index { return; }
      var index := graphs[graphId].ccg.index[nodeId];
      if index >= |graphs[graphId].ccg.nodes| { return; }
      var node := graphs[graphId].ccg.nodes[index];
      var offence := OffenceOf(node.payload);
      if offence.None? { return; }
      violations := violations + [RecordOf(graphId, graphs[graphId], node, offence.value, now)];
    }

    /** The scan stops at some graph that knows either end; which one is left open. */
    method LinkEdge(edge: ProtoEdge, now: Now) returns (r: Result<(), GraphError>)
      requires View().Valid()
      modifies this
      ensures (forall id :: !Candidate(old(View()), id, edge)) ==>
                View() == old(View()) && r == Err(UnknownNode("unknown graph"))
      ensures (exists id :: Candidate(old(View()), id, edge)) ==>
                exists id :: Candidate(old(View()), id, edge) && (View(), r) == EdgeLinked(old(View()), id, edge, now)
      ensures View().Valid()
    {
      if forall id :: id in graphs ==> !Candidate(View(), id, edge) {
        return Err(UnknownNode("unknown graph"));
      }
      var graphId :| graphId in graphs && Candidate(View(), graphId, edge);
      r := LinkEdgeIn(graphId, edge, now);
    }

    method LinkEdgeIn(graphId: string, edge: ProtoEdge, now: Now) returns (r: Result<(), GraphError>)
      requires View().Valid() && graphId in graphs
      modifies this`graphs
      ensures (View(), r) == EdgeLinked(old(View()), graphId, edge, now)
      ensures View().Valid()
    {
      ghost var before := graphs;
      var previous := graphs[graphId].ccg;
      var kind := EdgeTypeOf(edge.edgeType);
      if kind.None? { return Err(UnknownNode("invalid edge type")); }
      var ccg := new CausalGraph.From(previous);
      var added := ccg.AddEdgeById(edge.source, edge.target, kind.value);
      if added.Err? { return Err(added.error); }
      WithEdgeKeeps(previous, previous.index[edge.source], previous.index[edge.target], kind.value);
      graphs := graphs[graphId := graphs[graphId].(ccg := ccg.View())];
      var ok := ccg.ValidateDag();
      if !ok {
        graphs := graphs[graphId := graphs[graphId].(ccg := previous)];
        UpdatedBack(before, graphId, before[graphId].(ccg := ccg.View()));
        return Err(UnknownNode("cycle detected"));
      }
      graphs := graphs[graphId := graphs[graphId].(lastUpdated := now.instant)];
      UpdatedTwice(before, graphId, before[graphId].(ccg := ccg.View()), graphs[graphId]);
      r := Ok(());
    }

    method CleanupExpired(now: Now)
      modifies this`graphs
      ensures View() == Expired(old(View()), ttl, now)
      ensures forall id :: id in graphs <==> id in old(graphs) && now.instant - old(graphs)[id].lastUpdated <= ttl
      ensures forall id :: id in graphs ==> graphs[id] == old(graphs)[id]
      ensures violations == old(violations)
      ensures old(View()).Valid() ==> View().Valid()
    {
      graphs := map id | id in graphs && now.instant - graphs[id].lastUpdated <= ttl :: graphs[id];
    }
  }

  lemma NoArcsNoCycle()
    ensures EMPTY.Sound() && EMPTY.Acyclic()
  {
    assert EMPTY.Arcs() == {};
    forall p ensures !IsCycle({}, p) {
      if IsWalk({}, p) { FirstStep({}, p); }
    }
  }
}
