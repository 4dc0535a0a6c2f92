/** Where the nodes and edges of a graph come from, over every run of the store:
    stated on the requests alone. graph/src/store.rs and graph/src/algorithms.rs. */
module Provenance {
  import opened Options
  import opened Json
  import opened Ccg
  import opened GraphStore
  import opened GraphTheorems

  // ----- A request and its node -----

  predicate IsTypeCode(kind: NodeType, code: int) {
    && (kind == Thinking <==> code == 0)
    && (kind == Action <==> code == 1)
    && (kind == Handoff <==> code == 2)
    && (kind == Verification <==> code == 3)
  }

  /** Codes other than these two mean pending. */
  predicate IsStatusCode(status: ActionStatus, code: int) {
    && (status == Allowed <==> code == 1)
    && (status == Blocked <==> code == 2)
  }

  /** Only thinking is scrubbed. */
  predicate CarriesPayload(payload: NodePayload, request: ProtoPayload, scrub: Scrub) {
    match request
    case ProtoThinking(trace, content, model, tokens) => payload == ThinkingPayload(trace, scrub(content), model, tokens)
    case ProtoAction(kind, tool, arguments, status) =>
      && payload.ActionPayload? && payload.actionType == kind && payload.toolName == tool
      && payload.arguments == StructToJson(arguments) && IsStatusCode(payload.status, status)
    case ProtoHandoff(source, target, task, hash) => payload == HandoffPayload(source, target, task, hash)
    case ProtoVerification(parent, score, policy, verdict, model, latency) =>
      && payload.VerificationPayload? && payload.parentNodeId == parent && payload.deviationScore == score
      && payload.policyId == policy && IsStatusCode(payload.verdict, verdict)
      && payload.verifierModel == model && payload.latencyMs == latency
  }

  predicate Carries(node: GraphNode, request: ProtoNode, scrub: Scrub) {
    && node.id == request.id && node.agentId == request.agentId && node.workflowId == request.workflowId
    && IsTypeCode(node.nodeType, request.nodeType)
    && request.payload.Some? && CarriesPayload(node.payload, request.payload.value, scrub)
  }

  lemma StatusCodes(code: int)
    ensures IsStatusCode(StatusOf(code), code)
  {
  }

  lemma ConvertedCarries(proto: ProtoNode, scrub: Scrub)
    requires ConvertNode(proto).Ok?
    ensures Carries(Scrubbed(ConvertNode(proto).value, scrub), proto, scrub)
  {
    match proto.payload.value
    case ProtoAction(_, _, _, status) => StatusCodes(status);
    case ProtoVerification(_, _, _, verdict, _, _) => StatusCodes(verdict);
    case _ =>
  }

  // ----- One accepted insert -----

  ghost predicate Accepted(st: State, op: Op, scrub: Scrub) {
    op.Insert? && Inserted(st, op.proto, scrub, op.now).1.Ok?
  }

  /** The graph of a workflow, empty before it is opened. */
  function GraphOf(st: State, workflow: string): Graph {
    if workflow in st.graphs then st.graphs[workflow].ccg else EMPTY
  }

  lemma AcceptedGrows(st: State, op: Op, scrub: Scrub)
    requires st.Valid() && Accepted(st, op, scrub)
    ensures ConvertNode(op.proto).Ok? && op.proto.workflowId in Inserted(st, op.proto, scrub, op.now).0.graphs
    ensures GraphOf(Inserted(st, op.proto, scrub, op.now).0, op.proto.workflowId)
         == Grown(GraphOf(st, op.proto.workflowId), Scrubbed(ConvertNode(op.proto).value, scrub))
  {
    var id := op.proto.workflowId;
    InsertedIntoGraph(Opened(st, id, op.now), id, Scrubbed(ConvertNode(op.proto).value, scrub), op.now);
  }

  /** What an insert leaves alone: every other workflow, and its own if refused. */
  lemma InsertElsewhere(st: State, op: Op, scrub: Scrub, w: string)
    requires st.Valid() && op.Insert? && (op.proto.workflowId != w || !Accepted(st, op, scrub))
    ensures GraphOf(Inserted(st, op.proto, scrub, op.now).0, w) == GraphOf(st, w)
  {
    if Accepted(st, op, scrub) {
      AcceptedInsertKeeps(st, op.proto, scrub, op.now);
    } else {
      RejectedInsertKeeps(st, op.proto, scrub, op.now);
    }
  }

  /** The node list after an accepted insert. */
  lemma AcceptedNodes(st: State, op: Op, scrub: Scrub)
    requires st.Valid() && Accepted(st, op, scrub)
    ensures var g, h := GraphOf(st, op.proto.workflowId), GraphOf(Inserted(st, op.proto, scrub, op.now).0, op.proto.workflowId);
            if op.proto.id in g.index then h.nodes == g.nodes
            else |h.nodes| == |g.nodes| + 1 && h.nodes[..|g.nodes|] == g.nodes && Carries(h.nodes[|g.nodes|], op.proto, scrub)
  {
    AcceptedGrows(st, op, scrub);
    ConvertedCarries(op.proto, scrub);
  }

  /** The edge list after an accepted insert. */
  lemma AcceptedEdges(st: State, op: Op, scrub: Scrub)
    requires st.Valid() && Accepted(st, op, scrub)
    ensures var g, h := GraphOf(st, op.proto.workflowId), GraphOf(Inserted(st, op.proto, scrub, op.now).0, op.proto.workflowId);
            && op.proto.id in h.index
            && (op.proto.nodeType != 2 ==> h.edges == g.edges)
            && (op.proto.nodeType == 2 ==>
                 && (forall k: nat :: IsLatestAction(h.nodes, op.proto.agentId, k) ==> h.edges == g.edges + [Edge(k, h.index[op.proto.id], InformedBy)])
                 && ((forall k: nat :: !IsLatestAction(h.nodes, op.proto.agentId, k)) ==> h.edges == g.edges))
  {
    AcceptedGrows(st, op, scrub);
    ConvertedCarries(op.proto, scrub);
    var g, node := GraphOf(st, op.proto.workflowId), Scrubbed(ConvertNode(op.proto).value, scrub);
    LatestActionFound(Upserted(g, node).nodes, op.proto.agentId);
  }

  // ----- First inserts -----

  /** The request is an accepted insert into w under an id that none before carried. */
  ghost predicate IsFirst(states: seq<State>, ops: seq<Op>, scrub: Scrub, w: string, before: seq<nat>, i: nat)
    requires i < |ops| < |states|
  {
    && Accepted(states[i], ops[i], scrub) && ops[i].proto.workflowId == w
    && forall j :: j in before && j < |ops| && ops[j].Insert? ==> ops[j].proto.id != ops[i].proto.id
  }

  /** The requests that first brought an id into w since its graph was last removed. */
  ghost function FirstInserts(states: seq<State>, ops: seq<Op>, scrub: Scrub, w: string, n: nat): (r: seq<nat>)
    requires n <= |ops| < |states|
    ensures forall k :: 0 <= k < |r| ==> r[k] < n && ops[r[k]].Insert? && ops[r[k]].proto.workflowId == w
    decreases n
  {
    if n == 0 then []
    else
      var before := FirstInserts(states, ops, scrub, w, n - 1);
      if ops[n - 1].Expire? && w !in states[n].graphs then []
      else if IsFirst(states, ops, scrub, w, before, n - 1) then before + [n - 1]
      else before
  }

  /** They are listed in the order they came. */
  lemma {:induction false} FirstsAscend(states: seq<State>, ops: seq<Op>, scrub: Scrub, w: string, n: nat)
    requires n <= |ops| < |states|
    ensures Ascends(FirstInserts(states, ops, scrub, w, n))
    decreases n
  {
    if n > 0 {
      FirstsAscend(states, ops, scrub, w, n - 1);
      AscendsOn(FirstInserts(states, ops, scrub, w, n - 1), n - 1);
    }
  }

  predicate Ascends(places: seq<nat>) {
    forall k, l :: 0 <= k < l < |places| ==> places[k] < places[l]
  }

  lemma AscendsOn(places: seq<nat>, n: nat)
    requires Ascends(places) && forall k :: 0 <= k < |places| ==> places[k] < n
    ensures Ascends(places + [n])
  {
  }

  /** Node k of the graph was brought by the k-th of these requests, and no other. */
  ghost predicate BroughtBy(nodes: seq<GraphNode>, ops: seq<Op>, firsts: seq<nat>, scrub: Scrub) {
    && |nodes| == |firsts|
    && forall k :: 0 <= k < |nodes| ==> firsts[k] < |ops| && ops[firsts[k]].Insert? && Carries(nodes[k], ops[firsts[k]].proto, scrub)
  }

  lemma HeldIds(g: Graph, ops: seq<Op>, firsts: seq<nat>, scrub: Scrub, id: string)
    requires g.Sound() && BroughtBy(g.nodes, ops, firsts, scrub)
    ensures id in g.index <==> exists j :: j in firsts && j < |ops| && ops[j].Insert? && ops[j].proto.id == id
  {
    if id in g.index { assert firsts[g.index[id]] in firsts; }
    if j :| j in firsts && j < |ops| && ops[j].Insert? && ops[j].proto.id == id {
      var k :| 0 <= k < |firsts| && firsts[k] == j;
      assert g.nodes[k].id == id;
    }
  }

  lemma InsertBrings(states: seq<State>, ops: seq<Op>, ttl: nat, scrub: Scrub, w: string, n: nat)
    requires Run(states, ops, ttl, scrub) && n < |ops| && ops[n].Insert?
    requires ops[n].proto.workflowId == w && Accepted(states[n], ops[n], scrub)
    requires BroughtBy(GraphOf(states[n], w).nodes, ops, FirstInserts(states, ops, scrub, w, n), scrub)
    ensures BroughtBy(GraphOf(states[n + 1], w).nodes, ops, FirstInserts(states, ops, scrub, w, n + 1), scrub)
  {
    RunStep(states, ops, ttl, scrub, n);
    var before, g, id := FirstInserts(states, ops, scrub, w, n), GraphOf(states[n], w), ops[n].proto.id;
    SoundGraph(states[n], w);
    AcceptedNodes(states[n], ops[n], scrub);
    HeldIds(g, ops, before, scrub, id);
    var h := GraphOf(states[n + 1], w);
    if id !in g.index {
      assert IsFirst(states, ops, scrub, w, before, n);
      OneMoreBrought(g.nodes, h.nodes, ops, before, scrub, n);
    } else {
      assert !IsFirst(states, ops, scrub, w, before, n);
    }
  }

  lemma OneMoreBrought(nodes: seq<GraphNode>, nodes': seq<GraphNode>, ops: seq<Op>, firsts: seq<nat>, scrub: Scrub, n: nat)
    requires BroughtBy(nodes, ops, firsts, scrub) && n < |ops| && ops[n].Insert?
    requires |nodes'| == |nodes| + 1 && nodes'[..|nodes|] == nodes && Carries(nodes'[|nodes|], ops[n].proto, scrub)
    ensures BroughtBy(nodes', ops, firsts + [n], scrub)
  {
    assert forall k :: 0 <= k < |nodes| ==> nodes'[..|nodes|][k] == nodes'[k];
  }

  lemma StepBrings(states: seq<State>, ops: seq<Op>, ttl: nat, scrub: Scrub, w: string, n: nat)
    requires Run(states, ops, ttl, scrub) && n < |ops|
    requires BroughtBy(GraphOf(states[n], w).nodes, ops, FirstInserts(states, ops, scrub, w, n), scrub)
    ensures BroughtBy(GraphOf(states[n + 1], w).nodes, ops, FirstInserts(states, ops, scrub, w, n + 1), scrub)
  {
    if ops[n].Insert? && ops[n].proto.workflowId == w && Accepted(states[n], ops[n], scrub) {
      InsertBrings(states, ops, ttl, scrub, w, n);
    } else {
      RunStep(states, ops, ttl, scrub, n);
      OtherStepKeeps(states[n], ops[n], states[n + 1], ttl, scrub, w);
    }
  }

  /** A step that is no accepted insert into w keeps its nodes, or removes it. */
  lemma OtherStepKeeps(st: State, op: Op, st': State, ttl: nat, scrub: Scrub, w: string)
    requires st.Valid() && Next(st, op, st', ttl, scrub) && !(op.Insert? && op.proto.workflowId == w && Accepted(st, op, scrub))
    ensures if op.Expire? && w !in st'.graphs then GraphOf(st', w).nodes == []
            else GraphOf(st', w).nodes == GraphOf(st, w).nodes
  {
    match op
    case Insert(_, _) => InsertElsewhere(st, op, scrub, w);
    case Link(_, _) => LinkKeepsNodes(st, op, st', ttl, scrub, w);
    case Expire(_) =>
  }

  lemma SoundGraph(st: State, w: string)
    requires st.Valid()
    ensures GraphOf(st, w).Sound()
  {
    NoArcsNoCycle();
  }

  lemma LinkKeepsNodes(st: State, op: Op, st': State, ttl: nat, scrub: Scrub, w: string)
    requires st.Valid() && op.Link? && Next(st, op, st', ttl, scrub)
    ensures GraphOf(st', w).nodes == GraphOf(st, w).nodes
  {
    if exists id :: Candidate(st, id, op.edge) {
      var id :| Candidate(st, id, op.edge) && st' == EdgeLinked(st, id, op.edge, op.now).0;
      LinkInKeepsNodes(st, id, op.edge, op.now, w);
    }
  }

  lemma LinkInKeepsNodes(st: State, id: string, edge: ProtoEdge, now: Now, w: string)
    requires id in st.graphs
    ensures GraphOf(EdgeLinked(st, id, edge, now).0, w).nodes == GraphOf(st, w).nodes
  {
  }

  /** On every run the nodes of a workflow's graph are, one by one and in order,
      the requests that first brought their ids. */
  lemma {:induction false} NodesAreFirstInserts(states: seq<State>, ops: seq<Op>, ttl: nat, scrub: Scrub, w: string, n: nat)
    requires Run(states, ops, ttl, scrub) && n <= |ops|
    ensures BroughtBy(GraphOf(states[n], w).nodes, ops, FirstInserts(states, ops, scrub, w, n), scrub)
    decreases n
  {
    if n > 0 {
      NodesAreFirstInserts(states, ops, ttl, scrub, w, n - 1);
      StepBrings(states, ops, ttl, scrub, w, n - 1);
    }
  }

  // ----- Handoffs -----

  /** The request is an insert of an action of the agent. */
  predicate ActionRequest(op: Op, agent: string) {
    op.Insert? && op.proto.nodeType == 1 && op.proto.agentId == agent
  }

  predicate Within(firsts: seq<nat>, ops: seq<Op>) {
    forall k :: 0 <= k < |firsts| ==> firsts[k] < |ops|
  }

  /** Among these requests, the last action of the agent is the k-th. */
  predicate LastAction(ops: seq<Op>, firsts: seq<nat>, agent: string, k: nat)
    requires Within(firsts, ops)
  {
    k < |firsts| && ActionRequest(ops[firsts[k]], agent)
    && forall l :: k < l < |firsts| ==> !ActionRequest(ops[firsts[l]], agent)
  }

  lemma SameLastAction(nodes: seq<GraphNode>, ops: seq<Op>, firsts: seq<nat>, scrub: Scrub, agent: string, k: nat)
    requires BroughtBy(nodes, ops, firsts, scrub) && Within(firsts, ops)
    ensures LastAction(ops, firsts, agent, k) <==> IsLatestAction(nodes, agent, k)
  {
    assert forall l :: 0 <= l < |nodes| ==> (ActsFor(nodes[l], agent) <==> ActionRequest(ops[firsts[l]], agent));
    if IsLatestAction(nodes, agent, k) {
      forall l | k < l < |firsts| ensures !ActionRequest(ops[firsts[l]], agent) { assert !ActsFor(nodes[l], agent); }
    }
    if LastAction(ops, firsts, agent, k) {
      forall l | k < l < |nodes| ensures !ActsFor(nodes[l], agent) { assert !ActionRequest(ops[firsts[l]], agent); }
    }
  }

  /** On every run an accepted handoff adds one edge to its workflow's graph, from
      the agent's last action there to the handoff, or none if the agent has acted
      in no request; and no other insert adds an edge. */
  lemma HandoffsAreInformed(states: seq<State>, ops: seq<Op>, ttl: nat, scrub: Scrub, n: nat)
    returns (j: nat)
    requires Run(states, ops, ttl, scrub) && n < |ops| && ops[n].Insert?
    ensures var proto, w := ops[n].proto, ops[n].proto.workflowId;
            var firsts := FirstInserts(states, ops, scrub, w, n + 1);
            var before, after := GraphOf(states[n], w).edges, GraphOf(states[n + 1], w).edges;
            && (Accepted(states[n], ops[n], scrub) ==> j < |firsts| && ops[firsts[j]].proto.id == proto.id)
            && (Accepted(states[n], ops[n], scrub) && proto.nodeType == 2 ==>
                  && (forall k: nat :: LastAction(ops, firsts, proto.agentId, k) ==> after == before + [Edge(k, j, InformedBy)])
                  && ((forall k :: 0 <= k < |firsts| ==> !ActionRequest(ops[firsts[k]], proto.agentId)) ==> after == before))
            && (!Accepted(states[n], ops[n], scrub) || proto.nodeType != 2 ==> after == before)
    ensures forall w :: w != ops[n].proto.workflowId ==> GraphOf(states[n + 1], w) == GraphOf(states[n], w)
  {
    RunStep(states, ops, ttl, scrub, n);
    var proto, w := ops[n].proto, ops[n].proto.workflowId;
    var firsts, h := FirstInserts(states, ops, scrub, w, n + 1), GraphOf(states[n + 1], w);
    forall v | v != w ensures GraphOf(states[n + 1], v) == GraphOf(states[n], v) { InsertElsewhere(states[n], ops[n], scrub, v); }
    j := 0;
    if Accepted(states[n], ops[n], scrub) {
      EveryGraphAcyclic(states, ops, ttl, scrub, n + 1);
      NodesAreFirstInserts(states, ops, ttl, scrub, w, n + 1);
      AcceptedEdges(states[n], ops[n], scrub);
      SoundGraph(states[n + 1], w);
      j := h.index[proto.id];
      forall k: nat ensures LastAction(ops, firsts, proto.agentId, k) <==> IsLatestAction(h.nodes, proto.agentId, k) {
        SameLastAction(h.nodes, ops, firsts, scrub, proto.agentId, k);
      }
    } else {
      InsertElsewhere(states[n], ops[n], scrub, w);
    }
  }

  // ----- Renderings -----

  predicate IsEdgeName(name: string, kind: EdgeType) {
    && (kind == CausedBy ==> name == "CausedBy")
    && (kind == InformedBy ==> name == "InformedBy")
    && (kind == VerifiedBy ==> name == "VerifiedBy")
  }

  predicate ShowsNode(shown: NodeResponse, node: GraphNode) {
    && shown.id == node.id && shown.agentId == node.agentId
    && match node.payload
       case ThinkingPayload(_, _, _, _) =>
         shown.nodeType == "ThinkingNode" && shown.actionType == None && shown.toolName == None && shown.deviationScore == None && shown.status == None
       case ActionPayload(kind, tool, _, status) =>
         && shown.nodeType == "ActionNode" && shown.actionType == Some(kind) && shown.toolName == Some(tool) && shown.deviationScore == None
         && (status == Pending ==> shown.status == Some("pending"))
         && (status == Allowed ==> shown.status == Some("allowed"))
         && (status == Blocked ==> shown.status == Some("blocked"))
       case HandoffPayload(_, _, _, _) =>
         shown.nodeType == "HandoffNode" && shown.actionType == None && shown.toolName == None && shown.deviationScore == None && shown.status == None
       case VerificationPayload(_, score, _, _, _, _) =>
         && shown.nodeType == "VerificationNode" && shown.actionType == None && shown.toolName == None
         && shown.deviationScore == Some(score) && shown.status == None
  }

  predicate ShowsEdge(shown: EdgeResponse, e: Edge, nodes: seq<GraphNode>) {
    && e.source < |nodes| && e.target < |nodes|
    && shown.source == nodes[e.source].id && shown.target == nodes[e.target].id && IsEdgeName(shown.edgeType, e.kind)
  }

  lemma {:induction false} EdgesShown(g: Graph, edges: seq<Edge>)
    requires forall e :: e in edges ==> e.source < |g.nodes| && e.target < |g.nodes|
    ensures |EdgeResponses(g, edges)| == |edges|
    ensures forall i :: 0 <= i < |edges| ==> ShowsEdge(EdgeResponses(g, edges)[i], edges[i], g.nodes)
    decreases |edges|
  {
    if edges != [] {
      EdgesShown(g, edges[1..]);
      forall i | 0 < i < |edges| ensures ShowsEdge(EdgeResponses(g, edges)[i], edges[i], g.nodes) {
        assert EdgeResponses(g, edges)[i] == EdgeResponses(g, edges[1..])[i - 1] && edges[i] == edges[1..][i - 1];
      }
    }
  }

  lemma NodeShown(n: GraphNode)
    ensures ShowsNode(NodeResponseOf(n), n)
  {
  }

  ghost predicate Named(st: State) {
    forall w :: w in st.graphs ==> st.graphs[w].workflowId == w
  }

  lemma InsertKeepsNames(st: State, op: Op, scrub: Scrub)
    requires st.Valid() && Named(st) && op.Insert?
    ensures Named(Inserted(st, op.proto, scrub, op.now).0)
  {
    if Accepted(st, op, scrub) {
      InsertedIntoGraph(Opened(st, op.proto.workflowId, op.now), op.proto.workflowId, Scrubbed(ConvertNode(op.proto).value, scrub), op.now);
    } else {
      RejectedInsertKeeps(st, op.proto, scrub, op.now);
    }
  }

  lemma LinkKeepsNames(st: State, op: Op, st': State, ttl: nat, scrub: Scrub)
    requires st.Valid() && Named(st) && op.Link? && Next(st, op, st', ttl, scrub)
    ensures Named(st')
  {
    if exists id :: Candidate(st, id, op.edge) {
      var id :| Candidate(st, id, op.edge) && st' == EdgeLinked(st, id, op.edge, op.now).0;
      LinkInKeepsNames(st, id, op.edge, op.now);
    }
  }

  lemma LinkInKeepsNames(st: State, id: string, edge: ProtoEdge, now: Now)
    requires id in st.graphs && Named(st)
    ensures Named(EdgeLinked(st, id, edge, now).0)
  {
  }

  lemma {:induction false} GraphsKeepTheirNames(states: seq<State>, ops: seq<Op>, ttl: nat, scrub: Scrub, n: nat)
    requires Run(states, ops, ttl, scrub) && n < |states|
    ensures Named(states[n])
    decreases n
  {
    if n > 0 {
      GraphsKeepTheirNames(states, ops, ttl, scrub, n - 1);
      RunStep(states, ops, ttl, scrub, n - 1);
      match ops[n - 1]
      case Insert(_, _) => InsertKeepsNames(states[n - 1], ops[n - 1], scrub);
      case Link(_, _) => LinkKeepsNames(states[n - 1], ops[n - 1], states[n], ttl, scrub);
      case Expire(_) =>
    }
  }

  /** On every run a graph is shown whole: node by node and edge by edge, in order. */
  lemma ResponseIsWhole(states: seq<State>, ops: seq<Op>, ttl: nat, scrub: Scrub, w: string, n: nat)
    requires Run(states, ops, ttl, scrub) && n < |states| && w in states[n].graphs
    ensures var g, r := states[n].graphs[w].ccg, BuildGraphResponse(w, states[n].graphs[w]);
            && r.graphId == w && r.workflowId == w
            && |r.nodes| == |g.nodes| && |r.edges| == |g.edges|
            && (forall i :: 0 <= i < |g.nodes| ==> ShowsNode(r.nodes[i], g.nodes[i]))
            && (forall i :: 0 <= i < |g.edges| ==> ShowsEdge(r.edges[i], g.edges[i], g.nodes))
  {
    EveryGraphAcyclic(states, ops, ttl, scrub, n);
    GraphsKeepTheirNames(states, ops, ttl, scrub, n);
    var g := states[n].graphs[w].ccg;
    EdgesShown(g, g.edges);
    forall i | 0 <= i < |g.nodes| ensures ShowsNode(NodeResponses(g.nodes)[i], g.nodes[i]) { NodeShown(g.nodes[i]); }
  }
}
