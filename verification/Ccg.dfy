/** The causal graph of one workflow: graph/src/ccg.rs and graph/src/algorithms.rs. */
module Ccg {
  import opened Options
  import opened Floats
  import opened Numerals
  import opened Json
  import opened Digraph

  datatype NodeType = Thinking | Action | Handoff | Verification
  datatype ActionStatus = Pending | Allowed | Blocked
  datatype EdgeType = CausedBy | InformedBy | VerifiedBy

  datatype NodePayload =
    | ThinkingPayload(traceId: string, content: string, modelName: string, tokenCount: u32)
    | ActionPayload(actionType: string, toolName: string, arguments: Json, status: ActionStatus)
    | HandoffPayload(sourceAgentId: string, targetAgentId: string, taskId: string, contextHash: string)
    | VerificationPayload(parentNodeId: string, deviationScore: Float, policyId: string,
                          verdict: ActionStatus, verifierModel: string, latencyMs: u32)

  datatype GraphNode = GraphNode(id: string, nodeType: NodeType, agentId: string, workflowId: string, payload: NodePayload)

  datatype GraphError = UnknownNode(message: string)

  datatype Edge = Edge(source: nat, target: nat, kind: EdgeType)

  /** The value of a graph: nodes and edges by index, and the index of each id. */
  datatype Graph = Graph(nodes: seq<GraphNode>, edges: seq<Edge>, index: map<string, nat>) {
    function Arcs(): set<Arc> {
      set e | e in edges :: (e.source, e.target)
    }

    /** The index finds every node, and edges join nodes. */
    ghost predicate Sound() {
      && (forall i :: 0 <= i < |nodes| ==> nodes[i].id in index && index[nodes[i].id] == i)
      && (forall id :: id in index ==> index[id] < |nodes| && nodes[index[id]].id == id)
      && (forall e :: e in edges ==> e.source < |nodes| && e.target < |nodes|)
    }

    ghost predicate Acyclic() {
      !Cyclic(Arcs())
    }
  }

  const EMPTY := Graph([], [], map[])

  // ----- What each operation does to the value -----

  /** First write wins: a known id keeps its node. */
  function Upserted(g: Graph, node: GraphNode): Graph {
    if node.id in g.index then g
    else Graph(g.nodes + [node], g.edges, g.index[node.id := |g.nodes|])
  }

  function WithEdge(g: Graph, source: nat, target: nat, kind: EdgeType): Graph {
    g.(edges := g.edges + [Edge(source, target, kind)])
  }

  /** The highest-index action node of the agent. */
  function LatestAction(nodes: seq<GraphNode>, agent: string): Option<nat> {
    if nodes == [] then None
    else
      var last := |nodes| - 1;
      if nodes[last].nodeType == Action && nodes[last].agentId == agent then Some(last)
      else LatestAction(nodes[..last], agent)
  }

  function Linked(g: Graph, node: nat, agent: string): Graph {
    match LatestAction(g.nodes, agent)
    case None => g
    case Some(action) => WithEdge(g, action, node, InformedBy)
  }

  // ----- The graph object -----

  class CausalGraph {
    var nodes: seq<GraphNode>
    var edges: seq<Edge>
    var nodeIndex: map<string, nat>

    function View(): Graph
      reads this
    {
      Graph(nodes, edges, nodeIndex)
    }

    constructor From(g: Graph)
      ensures View() == g
    {
      nodes, edges, nodeIndex := g.nodes, g.edges, g.index;
    }

    method UpsertNode(node: GraphNode) returns (i: nat)
      modifies this
      ensures View() == Upserted(old(View()), node)
      ensures node.id in nodeIndex && i == nodeIndex[node.id]
    {
      if node.id in nodeIndex {
        return nodeIndex[node.id];
      }
      i := |nodes|;
      nodes := nodes + [node];
      nodeIndex := nodeIndex[node.id := i];
    }

    method AddEdgeById(source: string, target: string, kind: EdgeType) returns (r: Result<(), GraphError>)
      modifies this
      ensures r.Ok? <==> source in old(nodeIndex) && target in old(nodeIndex)
      ensures r.Ok? ==> View() == WithEdge(old(View()), old(nodeIndex)[source], old(nodeIndex)[target], kind)
      ensures r.Err? ==> View() == old(View()) && r.error.message == if source in nodeIndex then target else source
    {
      if source !in nodeIndex { return Err(UnknownNode(source)); }
      if target !in nodeIndex { return Err(UnknownNode(target)); }
      edges := edges + [Edge(nodeIndex[source], nodeIndex[target], kind)];
      r := Ok(());
    }

    method LatestActionNode(agent: string) returns (latest: Option<nat>)
      ensures latest == LatestAction(nodes, agent)
    {
      latest := None;
      for index := 0 to |nodes|
        invariant latest == LatestAction(nodes[..index], agent)
      {
        assert nodes[..index + 1][..index] == nodes[..index];
        if nodes[index].nodeType == Action && nodes[index].agentId == agent {
          latest := match latest
            case None => Some(index)
            case Some(current) => if index > current then Some(index) else Some(current);
          LatestActionIs(nodes[..index], agent);
        }
      }
      assert nodes[..|nodes|] == nodes;
    }

    method LinkHandoff(handoffId: string, agent: string) returns (r: Result<(), GraphError>)
      modifies this
      ensures r.Ok? <==> handoffId in old(nodeIndex)
      ensures View() == if r.Ok? then Linked(old(View()), old(nodeIndex)[handoffId], agent) else old(View())
    {
      if handoffId !in nodeIndex { return Err(UnknownNode(handoffId)); }
      var action := LatestActionNode(agent);
      if action.Some? {
        edges := edges + [Edge(action.value, nodeIndex[handoffId], InformedBy)];
      }
      r := Ok(());
    }

    method ValidateDag() returns (ok: bool)
      requires View().Sound()
      ensures ok <==> View().Acyclic()
    {
      ok := IsAcyclic(|nodes|, View().Arcs());
    }
  }

  // ----- What the operations keep -----

  lemma {:induction false} LatestActionIs(nodes: seq<GraphNode>, agent: string)
    ensures var r := LatestAction(nodes, agent);
            && (r.Some? ==> r.value < |nodes| && nodes[r.value].nodeType == Action && nodes[r.value].agentId == agent)
            && (forall i :: (if r.Some? then r.value else -1) < i < |nodes| ==>
                  !(nodes[i].nodeType == Action && nodes[i].agentId == agent))
  {
    if nodes != [] {
      LatestActionIs(nodes[..|nodes| - 1], agent);
    }
  }

  lemma UpsertedKeeps(g: Graph, node: GraphNode)
    requires g.Sound()
    ensures Upserted(g, node).Sound() && Upserted(g, node).Arcs() == g.Arcs()
    ensures node.id in Upserted(g, node).index && Upserted(g, node).nodes[Upserted(g, node).index[node.id]].id == node.id
    ensures g.nodes <= Upserted(g, node).nodes
  {
  }

  lemma WithEdgeKeeps(g: Graph, u: nat, v: nat, kind: EdgeType)
    requires g.Sound() && u < |g.nodes| && v < |g.nodes|
    ensures WithEdge(g, u, v, kind).Sound()
    ensures WithEdge(g, u, v, kind).Arcs() == g.Arcs() + {(u, v)}
  {
    var es := g.edges + [Edge(u, v, kind)];
    assert forall e :: e in es <==> e in g.edges || e == Edge(u, v, kind);
  }

  /** A new edge leaves an acyclic graph acyclic exactly when its target does not
      already reach its source. */
  lemma EdgeClosesCycle(g: Graph, u: nat, v: nat, kind: EdgeType)
    requires g.Sound() && g.Acyclic() && u < |g.nodes| && v < |g.nodes|
    ensures WithEdge(g, u, v, kind).Acyclic() <==> !Reaches(g.Arcs(), v, u)
  {
    WithEdgeKeeps(g, u, v, kind);
    AddedArc(g.Arcs(), u, v);
  }

  /** A fresh node has no edges, so linking the latest action to it is harmless. */
  lemma FreshHandoffIsAcyclic(g: Graph, node: GraphNode, agent: string)
    requires g.Sound() && g.Acyclic() && node.id !in g.index && node.nodeType != Action
    ensures Linked(Upserted(g, node), |g.nodes|, agent).Acyclic()
  {
    var h := Upserted(g, node);
    UpsertedKeeps(g, node);
    LatestActionIs(h.nodes, agent);
    var action := LatestAction(h.nodes, agent);
    if action.Some? {
      EdgeClosesCycle(h, action.value, |g.nodes|, InformedBy);
      if Reaches(h.Arcs(), |g.nodes|, action.value) {
        SinkReachesItself(h.Arcs(), |g.nodes|, action.value);
      }
    }
  }

  lemma LinkedKeeps(g: Graph, node: nat, agent: string)
    requires g.Sound() && node < |g.nodes|
    ensures Linked(g, node, agent).Sound()
  {
    LatestActionIs(g.nodes, agent);
    if LatestAction(g.nodes, agent).Some? {
      WithEdgeKeeps(g, LatestAction(g.nodes, agent).value, node, InformedBy);
    }
  }
}
