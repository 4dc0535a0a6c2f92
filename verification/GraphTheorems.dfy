/** What the graph store promises: over one operation and over every run. */
module GraphTheorems {
  import opened Options
  import opened Floats
  import opened Json
  import opened Digraph
  import opened Ccg
  import opened GraphStore

  // ----- One insert -----

  /** The node is a handoff already in the graph, and it reaches the agent's
      latest action, from which the new edge would come. */
  ghost predicate HandoffClosesCycle(g: Graph, id: string, agent: string) {
    id in g.index && exists k :: IsLatestAction(g.nodes, agent, k) && Reaches(g.Arcs(), g.index[id], k)
  }

  predicate ActsFor(node: GraphNode, agent: string) {
    node.nodeType == Action && node.agentId == agent
  }

  /** The last action of the agent stands at position k. */
  predicate IsLatestAction(nodes: seq<GraphNode>, agent: string, k: nat) {
    k < |nodes| && ActsFor(nodes[k], agent) && forall i :: k < i < |nodes| ==> !ActsFor(nodes[i], agent)
  }

  lemma LatestActionFound(nodes: seq<GraphNode>, agent: string)
    ensures forall k: nat :: IsLatestAction(nodes, agent, k) <==> LatestAction(nodes, agent) == Some(k)
    ensures LatestAction(nodes, agent) == None <==> forall i :: 0 <= i < |nodes| ==> !ActsFor(nodes[i], agent)
  {
    LatestActionIs(nodes, agent);
    forall k: nat ensures IsLatestAction(nodes, agent, k) <==> LatestAction(nodes, agent) == Some(k) {
      if IsLatestAction(nodes, agent, k) { assert ActsFor(nodes[k], agent); }
    }
  }

  lemma GrownAcyclicExactly(g: Graph, node: GraphNode)
    requires g.Sound() && g.Acyclic()
    ensures Grown(g, node).Sound()
    ensures Grown(g, node).Acyclic() <==> !(node.nodeType == Handoff && HandoffClosesCycle(g, node.id, node.agentId))
  {
    UpsertedKeeps(g, node);
    LatestActionFound(g.nodes, node.agentId);
    var h := Upserted(g, node);
    if node.nodeType == Handoff {
      LinkedKeeps(h, h.index[node.id], node.agentId);
      if node.id !in g.index {
        FreshHandoffIsAcyclic(g, node, node.agentId);
      } else {
        LatestActionIs(g.nodes, node.agentId);
        var action := LatestAction(g.nodes, node.agentId);
        if action.Some? { EdgeClosesCycle(g, action.value, g.index[node.id], InformedBy); }
      }
    }
  }

  lemma OpenedValid(st: State, workflow: string, now: Now)
    requires st.Valid()
    ensures Opened(st, workflow, now).Valid() && workflow in Opened(st, workflow, now).graphs
  {
    NoArcsNoCycle();
  }

  /** An insert succeeds exactly when it carries a payload and a known type and is
      not a handoff already in the graph that would close a cycle. */
  lemma InsertAcceptedExactly(st: State, proto: ProtoNode, scrub: Scrub, now: Now)
    requires st.Valid()
    ensures Inserted(st, proto, scrub, now).1.Ok? <==>
              && proto.payload.Some? && 0 <= proto.nodeType <= 3
              && !(proto.nodeType == 2 && proto.workflowId in st.graphs &&
                   HandoffClosesCycle(st.graphs[proto.workflowId].ccg, proto.id, proto.agentId))
    ensures Inserted(st, proto, scrub, now).0.Valid()
  {
    OpenedValid(st, proto.workflowId, now);
    var ready := Opened(st, proto.workflowId, now);
    if ConvertNode(proto).Ok? {
      ConvertKeepsId(proto, scrub);
      InsertedIntoExactly(ready, proto.workflowId, Scrubbed(ConvertNode(proto).value, scrub), now);
    }
  }

  lemma InsertedIntoExactly(st: State, graphId: string, node: GraphNode, now: Now)
    requires st.Valid() && graphId in st.graphs
    ensures InsertedInto(st, graphId, node, now).1.Ok? <==>
              !(node.nodeType == Handoff && HandoffClosesCycle(st.graphs[graphId].ccg, node.id, node.agentId))
    ensures InsertedInto(st, graphId, node, now).0.Valid()
  {
    GrownAcyclicExactly(st.graphs[graphId].ccg, node);
  }

  /** A fresh id is never turned away as a cycle. */
  lemma FreshInsertAccepted(st: State, proto: ProtoNode, scrub: Scrub, now: Now)
    requires st.Valid()
    requires proto.payload.Some? && 0 <= proto.nodeType <= 3
    requires proto.workflowId in st.graphs ==> proto.id !in st.graphs[proto.workflowId].ccg.index
    ensures Inserted(st, proto, scrub, now).1 == Ok(proto.workflowId)
  {
    InsertAcceptedExactly(st, proto, scrub, now);
  }

  /** A rejected insert leaves the ledger and every graph alone, and adds at most
      one graph, an empty one. */
  lemma RejectedInsertKeeps(st: State, proto: ProtoNode, scrub: Scrub, now: Now)
    requires Inserted(st, proto, scrub, now).1.Err?
    ensures var st' := Inserted(st, proto, scrub, now).0;
            && st'.violations == st.violations
            && (proto.workflowId in st.graphs ==> st' == st)
            && (proto.workflowId !in st.graphs ==>
                  st'.graphs == st.graphs[proto.workflowId := GraphData(EMPTY, proto.workflowId, "active", now.instant)])
    ensures Inserted(st, proto, scrub, now).1.error.message
         == if proto.payload.None? then "missing payload" else if 0 <= proto.nodeType <= 3 then "cycle detected" else "invalid node type"
  {
  }

  /** The node an id stands for after an insert: the first one written. */
  function FirstWritten(before: Graph, node: GraphNode): GraphNode {
    if node.id in before.index && before.index[node.id] < |before.nodes|
    then before.nodes[before.index[node.id]]
    else node
  }

  lemma GrownKeeps(g: Graph, node: GraphNode)
    requires g.Sound()
    ensures var h := Grown(g, node);
            && g.nodes <= h.nodes && g.edges <= h.edges
            && |h.nodes| == |g.nodes| + (if node.id in g.index then 0 else 1)
            && node.id in h.index && h.index[node.id] < |h.nodes|
            && h.nodes[h.index[node.id]] == FirstWritten(g, node)
  {
    UpsertedKeeps(g, node);
  }

  lemma ConvertKeepsId(proto: ProtoNode, scrub: Scrub)
    requires ConvertNode(proto).Ok?
    ensures Scrubbed(ConvertNode(proto).value, scrub).id == proto.id
  {
  }

  /** An accepted insert touches no graph but its own, keeps every node and edge
      of that graph in place, and stores its node unless the id was taken. */
  lemma AcceptedInsertKeeps(st: State, proto: ProtoNode, scrub: Scrub, now: Now)
    requires st.Valid() && Inserted(st, proto, scrub, now).1.Ok?
    ensures var st' := Inserted(st, proto, scrub, now).0;
            && st'.graphs.Keys == st.graphs.Keys + {proto.workflowId}
            && (forall id :: id in st.graphs && id != proto.workflowId ==> st'.graphs[id] == st.graphs[id])
    ensures var before := Opened(st, proto.workflowId, now).graphs[proto.workflowId].ccg;
            var after := Inserted(st, proto, scrub, now).0.graphs[proto.workflowId].ccg;
            && before.nodes <= after.nodes && before.edges <= after.edges
            && |after.nodes| == |before.nodes| + (if proto.id in before.index then 0 else 1)
            && proto.id in after.index && after.index[proto.id] < |after.nodes|
            && ConvertNode(proto).Ok?
            && after.nodes[after.index[proto.id]] == FirstWritten(before, Scrubbed(ConvertNode(proto).value, scrub))
  {
    OpenedValid(st, proto.workflowId, now);
    var ready := Opened(st, proto.workflowId, now);
    var node := Scrubbed(ConvertNode(proto).value, scrub);
    ConvertKeepsId(proto, scrub);
    InsertedIntoGraph(ready, proto.workflowId, node, now);
    GrownKeeps(ready.graphs[proto.workflowId].ccg, node);
  }

  lemma InsertedIntoGraph(st: State, graphId: string, node: GraphNode, now: Now)
    requires graphId in st.graphs && InsertedInto(st, graphId, node, now).1.Ok?
    ensures var st' := InsertedInto(st, graphId, node, now).0;
            && st'.graphs == st.graphs[graphId := st.graphs[graphId].(ccg := Grown(st.graphs[graphId].ccg, node), lastUpdated := now.instant)]
            && st' == Captured(Stored(st, graphId, Grown(st.graphs[graphId].ccg, node), now), graphId, node.id, now)
  {
  }

  // ----- One edge -----

  /** The wire code of an edge's kind. */
  predicate IsEdgeCode(kind: EdgeType, code: int) {
    && (kind == CausedBy <==> code == 0)
    && (kind == InformedBy <==> code == 1)
    && (kind == VerifiedBy <==> code == 2)
  }

  /** On the chosen graph, linking succeeds exactly when the type is known, both
      ends are there and the target does not reach the source; and an error
      leaves the whole store as it was. */
  lemma LinkAcceptedExactly(st: State, graphId: string, edge: ProtoEdge, now: Now)
    requires st.Valid() && graphId in st.graphs
    ensures var g := st.graphs[graphId].ccg;
            EdgeLinked(st, graphId, edge, now).1.Ok? <==>
              && 0 <= edge.edgeType <= 2
              && edge.source in g.index && edge.target in g.index
              && !Reaches(g.Arcs(), g.index[edge.target], g.index[edge.source])
    ensures EdgeLinked(st, graphId, edge, now).1.Err? ==> EdgeLinked(st, graphId, edge, now).0 == st
    ensures EdgeLinked(st, graphId, edge, now).1.Err? ==>
              var index, message := st.graphs[graphId].ccg.index, EdgeLinked(st, graphId, edge, now).1.error.message;
              message == if !(0 <= edge.edgeType <= 2) then "invalid edge type"
                         else if edge.source !in index then edge.source
                         else if edge.target !in index then edge.target
                         else "cycle detected"
    ensures EdgeLinked(st, graphId, edge, now).1.Ok? ==>
              var data := st.graphs[graphId];
              var g := data.ccg;
              exists kind :: IsEdgeCode(kind, edge.edgeType) && EdgeLinked(st, graphId, edge, now).0.graphs
                == st.graphs[graphId := data.(ccg := g.(edges := g.edges + [Edge(g.index[edge.source], g.index[edge.target], kind)]),
                                              lastUpdated := now.instant)]
    ensures EdgeLinked(st, graphId, edge, now).0.Valid()
    ensures EdgeLinked(st, graphId, edge, now).0.violations == st.violations
  {
    var g := st.graphs[graphId].ccg;
    if EdgeTypeOf(edge.edgeType).Some? && edge.source in g.index && edge.target in g.index {
      var u, v := g.index[edge.source], g.index[edge.target];
      assert IsEdgeCode(EdgeTypeOf(edge.edgeType).value, edge.edgeType);
      WithEdgeKeeps(g, u, v, EdgeTypeOf(edge.edgeType).value);
      EdgeClosesCycle(g, u, v, EdgeTypeOf(edge.edgeType).value);
    }
  }

  // ----- Runs -----

  datatype Op = Insert(proto: ProtoNode, now: Now) | Link(edge: ProtoEdge, now: Now) | Expire(now: Now)

  ghost predicate Next(st: State, op: Op, st': State, ttl: nat, scrub: Scrub) {
    match op
    case Insert(proto, now) => st' == Inserted(st, proto, scrub, now).0
    case Link(edge, now) =>
      if exists id :: Candidate(st, id, edge)
      then exists id :: Candidate(st, id, edge) && st' == EdgeLinked(st, id, edge, now).0
      else st' == st
    case Expire(now) => st' == Expired(st, ttl, now)
  }

  /** Any sequence of operations from the empty store, with any choice the scans make. */
  ghost predicate Run(states: seq<State>, ops: seq<Op>, ttl: nat, scrub: Scrub) {
    && |states| == |ops| + 1
    && states[0] == State(map[], [])
    && forall i :: 0 <= i < |ops| ==> NextAt(states, ops, ttl, scrub, i)
  }

  ghost predicate NextAt(states: seq<State>, ops: seq<Op>, ttl: nat, scrub: Scrub, i: nat)
    requires i < |ops| < |states|
  {
    Next(states[i], ops[i], states[i + 1], ttl, scrub)
  }

  lemma NextKeepsValid(st: State, op: Op, st': State, ttl: nat, scrub: Scrub)
    requires st.Valid() && Next(st, op, st', ttl, scrub)
    ensures st'.Valid()
  {
    match op
    case Insert(proto, now) => InsertAcceptedExactly(st, proto, scrub, now);
    case Link(edge, now) =>
      if exists id :: Candidate(st, id, edge) {
        var id :| Candidate(st, id, edge) && st' == EdgeLinked(st, id, edge, now).0;
        LinkAcceptedExactly(st, id, edge, now);
      }
    case Expire(now) =>
  }

  /** Every graph of every state of every run is sound and acyclic. */
  lemma {:induction false} EveryGraphAcyclic(states: seq<State>, ops: seq<Op>, ttl: nat, scrub: Scrub, n: nat)
    requires Run(states, ops, ttl, scrub) && n < |states|
    ensures states[n].Valid()
    decreases n
  {
    if n == 0 {
      FirstIsValid();
    } else {
      EveryGraphAcyclic(states, ops, ttl, scrub, n - 1);
      StepOf(states, ops, ttl, scrub, n - 1);
      NextKeepsValid(states[n - 1], ops[n - 1], states[n], ttl, scrub);
    }
  }

  lemma FirstIsValid()
    ensures State(map[], []).Valid()
  {
  }

  lemma StepOf(states: seq<State>, ops: seq<Op>, ttl: nat, scrub: Scrub, i: nat)
    requires Run(states, ops, ttl, scrub) && i < |ops|
    ensures |states| == |ops| + 1 && Next(states[i], ops[i], states[i + 1], ttl, scrub)
  {
    assert NextAt(states, ops, ttl, scrub, i);
  }

  /** A step of a run starts in such a state. */
  lemma RunStep(states: seq<State>, ops: seq<Op>, ttl: nat, scrub: Scrub, i: nat)
    requires Run(states, ops, ttl, scrub) && i < |ops|
    ensures states[i].Valid() && Next(states[i], ops[i], states[i + 1], ttl, scrub)
  {
    EveryGraphAcyclic(states, ops, ttl, scrub, i);
    assert NextAt(states, ops, ttl, scrub, i);
  }

  // ----- The ledger -----

  /** The node an accepted insert finds stored under its id. */
  function Held(st: State, proto: ProtoNode, scrub: Scrub, now: Now): GraphNode
    requires ConvertNode(proto).Ok?
  {
    FirstWritten(Opened(st, proto.workflowId, now).graphs[proto.workflowId].ccg, Scrubbed(ConvertNode(proto).value, scrub))
  }

  /** A node that is recorded, under which rule, score and threshold: a blocked
      verification under its policy, and a blocked action that names a rule. */
  predicate Offends(payload: NodePayload, ruleId: string, score: Float, threshold: Float) {
    match payload
    case VerificationPayload(_, deviation, policy, verdict, _, _) =>
      verdict == Blocked && ruleId == policy && score == deviation && threshold == Finite(0.7)
    case ActionPayload(_, _, arguments, status) =>
      && status == Blocked && arguments.JObject? && "__policy_rule_id" in arguments.fields
      && arguments.fields["__policy_rule_id"] == JString(ruleId) && ruleId != ""
      && score == Finite(1.0) && threshold == Finite(1.0)
    case _ => false
  }

  ghost predicate IsOffence(payload: NodePayload) {
    exists ruleId, score, threshold :: Offends(payload, ruleId, score, threshold)
  }

  lemma OffenceIs(payload: NodePayload)
    ensures forall r, s, t :: Offends(payload, r, s, t) <==> OffenceOf(payload) == Some(Offence(r, s, t))
    ensures IsOffence(payload) <==> OffenceOf(payload).Some?
  {
    var o := OffenceOf(payload);
    if o.Some? { assert Offends(payload, o.value.ruleId, o.value.score, o.value.threshold); }
  }

  /** An accepted insert whose stored node is an offence. */
  ghost predicate Records(st: State, op: Op, scrub: Scrub) {
    && op.Insert? && ConvertNode(op.proto).Ok?
    && Inserted(st, op.proto, scrub, op.now).1.Ok?
    && IsOffence(Held(st, op.proto, scrub, op.now).payload)
  }

  /** The record such an insert appends: rule, score and threshold of the stored
      node, and as snapshot the graph as it stands in the state after it. */
  ghost predicate IsRecordOf(record: ViolationRecord, st: State, op: Op, st': State, scrub: Scrub)
    requires Records(st, op, scrub)
  {
    var id, node := op.proto.workflowId, Held(st, op.proto, scrub, op.now);
    && record.nodeId == op.proto.id && record.workflowId == id && record.violationId == "violation-" + op.proto.id
    && record.agentId == node.agentId && record.timestamp == op.now.wall
    && Offends(node.payload, record.ruleId, record.deviationScore, record.threshold)
    && id in st'.graphs && record.snapshot == BuildGraphResponse(id, st'.graphs[id])
  }

  lemma InsertLedger(st: State, op: Op, scrub: Scrub)
    requires st.Valid() && op.Insert?
    ensures var st' := Inserted(st, op.proto, scrub, op.now).0;
            if Records(st, op, scrub)
            then |st'.violations| == |st.violations| + 1 && st'.violations[..|st.violations|] == st.violations
                 && IsRecordOf(st'.violations[|st.violations|], st, op, st', scrub)
            else st'.violations == st.violations
  {
    var proto, now := op.proto, op.now;
    if Inserted(st, proto, scrub, now).1.Err? {
      RejectedInsertKeeps(st, proto, scrub, now);
    } else {
      var ready, id := Opened(st, proto.workflowId, now), proto.workflowId;
      var node := Scrubbed(ConvertNode(proto).value, scrub);
      OpenedValid(st, id, now);
      ConvertKeepsId(proto, scrub);
      GrownKeeps(ready.graphs[id].ccg, node);
      InsertedIntoGraph(ready, id, node, now);
      HeldId(ready.graphs[id].ccg, node);
      OffenceIs(FirstWritten(ready.graphs[id].ccg, node).payload);
      CapturedLedger(Stored(ready, id, Grown(ready.graphs[id].ccg, node), now), id, proto.id, now);
    }
  }

  lemma HeldId(g: Graph, node: GraphNode)
    requires g.Sound()
    ensures FirstWritten(g, node).id == node.id
  {
  }

  lemma CapturedLedger(st: State, graphId: string, nodeId: string, now: Now)
    requires graphId in st.graphs && nodeId in st.graphs[graphId].ccg.index
    requires st.graphs[graphId].ccg.index[nodeId] < |st.graphs[graphId].ccg.nodes|
    ensures var node := st.graphs[graphId].ccg.nodes[st.graphs[graphId].ccg.index[nodeId]];
            Captured(st, graphId, nodeId, now) ==
              if OffenceOf(node.payload).Some?
              then st.(violations := st.violations + [RecordOf(graphId, st.graphs[graphId], node, OffenceOf(node.payload).value, now)])
              else st
  {
  }

  lemma NextLedger(st: State, op: Op, st': State, ttl: nat, scrub: Scrub)
    requires st.Valid() && Next(st, op, st', ttl, scrub)
    ensures if Records(st, op, scrub)
            then |st'.violations| == |st.violations| + 1 && st'.violations[..|st.violations|] == st.violations
                 && IsRecordOf(st'.violations[|st.violations|], st, op, st', scrub)
            else st'.violations == st.violations
  {
    match op
    case Insert(proto, now) => InsertLedger(st, op, scrub);
    case Link(edge, now) =>
      if exists id :: Candidate(st, id, edge) {
        var id :| Candidate(st, id, edge) && st' == EdgeLinked(st, id, edge, now).0;
        LinkAcceptedExactly(st, id, edge, now);
      }
    case Expire(now) =>
  }

  lemma NextCount(st: State, op: Op, st': State, ttl: nat, scrub: Scrub)
    requires st.Valid() && Next(st, op, st', ttl, scrub)
    ensures |st'.violations| == |st.violations| + if Records(st, op, scrub) then 1 else 0
  {
    NextLedger(st, op, st', ttl, scrub);
  }

  /** How many of the first n marks are set. */
  function Ones(marks: seq<bool>, n: nat): nat
    requires n <= |marks|
  {
    if n == 0 then 0 else Ones(marks, n - 1) + if marks[n - 1] then 1 else 0
  }

  lemma {:induction false} CountsUp(sizes: seq<nat>, marks: seq<bool>, n: nat)
    requires |sizes| == |marks| + 1 && n < |sizes| && sizes[0] == 0
    requires forall i :: 0 <= i < |marks| ==> sizes[i + 1] == sizes[i] + if marks[i] then 1 else 0
    ensures sizes[n] == Ones(marks, n)
  {
    if n > 0 { CountsUp(sizes, marks, n - 1); assert sizes[n - 1 + 1] == sizes[n]; }
  }

  /** Which operations of a run record a violation. */
  ghost function Recordings(states: seq<State>, ops: seq<Op>, scrub: Scrub): (r: seq<bool>)
    requires |states| == |ops| + 1
    ensures |r| == |ops| && forall i :: 0 <= i < |r| ==> (r[i] <==> Records(states[i], ops[i], scrub))
  {
    seq(|ops|, i requires 0 <= i < |ops| => Records(states[i], ops[i], scrub))
  }

  function LedgerSizes(states: seq<State>): (r: seq<nat>)
    ensures |r| == |states| && forall i :: 0 <= i < |r| ==> r[i] == |states[i].violations|
  {
    seq(|states|, i requires 0 <= i < |states| => |states[i].violations|)
  }

  /** On every run the ledger has one entry per recording insert, whatever expired. */
  lemma LedgerCounts(states: seq<State>, ops: seq<Op>, ttl: nat, scrub: Scrub, n: nat)
    requires Run(states, ops, ttl, scrub) && n < |states|
    ensures |states[n].violations| == Ones(Recordings(states, ops, scrub), n)
  {
    var sizes, marks := LedgerSizes(states), Recordings(states, ops, scrub);
    forall i | 0 <= i < |ops| ensures sizes[i + 1] == sizes[i] + if marks[i] then 1 else 0 {
      RunStep(states, ops, ttl, scrub, i);
      NextCount(states[i], ops[i], states[i + 1], ttl, scrub);
    }
    CountsUp(sizes, marks, n);
  }

  /** On every run the ledger only grows at its end. */
  lemma {:induction false} LedgerAppendOnly(states: seq<State>, ops: seq<Op>, ttl: nat, scrub: Scrub, m: nat, n: nat)
    requires Run(states, ops, ttl, scrub) && m <= n < |states|
    ensures states[m].violations <= states[n].violations
    decreases n
  {
    if m < n {
      LedgerAppendOnly(states, ops, ttl, scrub, m, n - 1);
      StepAppends(states, ops, ttl, scrub, n - 1);
      PrefixOfPrefix(states[m].violations, states[n - 1].violations, states[n].violations);
    }
  }

  lemma PrefixOfPrefix(a: seq<ViolationRecord>, b: seq<ViolationRecord>, c: seq<ViolationRecord>)
    requires a <= b <= c
    ensures a <= c
  {
  }

  lemma StepAppends(states: seq<State>, ops: seq<Op>, ttl: nat, scrub: Scrub, i: nat)
    requires Run(states, ops, ttl, scrub) && i < |ops|
    ensures states[i].violations <= states[i + 1].violations
  {
    RunStep(states, ops, ttl, scrub, i);
    NextAppends(states[i], ops[i], states[i + 1], ttl, scrub);
  }

  lemma NextAppends(st: State, op: Op, st': State, ttl: nat, scrub: Scrub)
    requires st.Valid() && Next(st, op, st', ttl, scrub)
    ensures st.violations <= st'.violations
  {
    NextLedger(st, op, st', ttl, scrub);
  }

  /** An entry of the ledger after a step was there before, or is the step's. */
  lemma NextEntry(st: State, op: Op, st': State, ttl: nat, scrub: Scrub, k: nat)
    requires st.Valid() && Next(st, op, st', ttl, scrub) && k < |st'.violations|
    ensures if k < |st.violations| then st'.violations[k] == st.violations[k]
            else Records(st, op, scrub) && IsRecordOf(st'.violations[k], st, op, st', scrub)
  {
    NextLedger(st, op, st', ttl, scrub);
    if k < |st.violations| { assert st'.violations[..|st.violations|][k] == st'.violations[k]; }
  }

  /** On every run each entry was made by an insert, and describes it. */
  lemma {:induction false} EveryEntryWasRecorded(states: seq<State>, ops: seq<Op>, ttl: nat, scrub: Scrub, n: nat, k: nat)
    returns (i: nat)
    requires Run(states, ops, ttl, scrub) && n < |states| && k < |states[n].violations|
    ensures i < n && Records(states[i], ops[i], scrub)
    ensures IsRecordOf(states[n].violations[k], states[i], ops[i], states[i + 1], scrub)
    decreases n
  {
    i := n - 1;
    StepAppends(states, ops, ttl, scrub, i);
    if k < |states[i].violations| {
      i := EveryEntryWasRecorded(states, ops, ttl, scrub, i, k);
    } else {
      RunStep(states, ops, ttl, scrub, i);
      NextEntry(states[i], ops[i], states[i + 1], ttl, scrub, k);
    }
  }
}
