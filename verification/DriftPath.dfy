/** Tracing a drift path back through the earliest causes: trace_drift_path and
    collect_earliest_path of graph/src/algorithms.rs. */
module DriftPath {
  import opened Options
  import opened Floats
  import opened Digraph
  import opened Ccg

  /** The least index with an edge into v. */
  function LeastParent(edges: seq<Edge>, v: nat): (r: Option<nat>)
    ensures r.Some? ==> exists e :: e in edges && e.target == v && e.source == r.value
    ensures forall e :: e in edges && e.target == v ==> r.Some? && r.value <= e.source
  {
    if edges == [] then None
    else
      var e, rest := edges[0], LeastParent(edges[1..], v);
      assert edges == [e] + edges[1..];
      if e.target != v || (rest.Some? && rest.value <= e.source) then rest else Some(e.source)
  }

  /** The walk back from v, earliest node first, ended by a parentless node or by
      a node already visited. */
  function Chain(g: Graph, v: nat, visited: set<nat>): seq<nat>
    requires g.Sound() && v < |g.nodes|
    decreases Nodes(|g.nodes|) - visited
  {
    if v in visited then []
    else
      assert v in Nodes(|g.nodes|) - visited;
      match LeastParent(g.edges, v)
      case None => [v]
      case Some(parent) => Chain(g, parent, visited + {v}) + [v]
  }

  function Members(c: seq<nat>): set<nat> {
    set u | u in c
  }

  lemma MembersStep(c: seq<nat>, v: nat, visited: set<nat>)
    ensures visited + Members(c + [v]) == (visited + {v}) + Members(c)
  {
  }

  predicate Kept(node: GraphNode, threshold: Float) {
    node.payload.VerificationPayload? ==> !Less(node.payload.deviationScore, threshold)
  }

  /** The ids of the nodes on the chain, verification nodes below threshold left out. */
  function KeptIds(nodes: seq<GraphNode>, chain: seq<nat>, threshold: Float): seq<string>
    requires forall i :: 0 <= i < |chain| ==> chain[i] < |nodes|
  {
    if chain == [] then []
    else
      var last := |chain| - 1;
      KeptIds(nodes, chain[..last], threshold) + if Kept(nodes[chain[last]], threshold) then [nodes[chain[last]].id] else []
  }

  lemma {:induction false} ChainInGraph(g: Graph, v: nat, visited: set<nat>)
    requires g.Sound() && v < |g.nodes|
    ensures forall i :: 0 <= i < |Chain(g, v, visited)| ==> Chain(g, v, visited)[i] < |g.nodes|
    decreases Nodes(|g.nodes|) - visited
  {
    var parent := LeastParent(g.edges, v);
    if v !in visited && parent.Some? {
      assert v in Nodes(|g.nodes|) - visited;
      ChainInGraph(g, parent.value, visited + {v});
    }
  }

  lemma KeptIdsOfLonger(nodes: seq<GraphNode>, chain: seq<nat>, v: nat, threshold: Float)
    requires v < |nodes| && forall i :: 0 <= i < |chain| ==> chain[i] < |nodes|
    ensures KeptIds(nodes, chain + [v], threshold)
         == KeptIds(nodes, chain, threshold) + if Kept(nodes[v], threshold) then [nodes[v].id] else []
  {
    assert (chain + [v])[..|chain|] == chain;
  }

  /** The ids kept on the chain from v. */
  function EarliestIds(g: Graph, v: nat, visited: set<nat>, threshold: Float): seq<string>
    requires g.Sound() && v < |g.nodes|
  {
    ChainInGraph(g, v, visited);
    KeptIds(g.nodes, Chain(g, v, visited), threshold)
  }

  /** The chain before v itself. */
  function Earlier(g: Graph, v: nat, visited: set<nat>): seq<nat>
    requires g.Sound() && v < |g.nodes| && v !in visited
  {
    match LeastParent(g.edges, v)
    case None => []
    case Some(parent) => Chain(g, parent, visited + {v})
  }

  lemma ChainStep(g: Graph, v: nat, visited: set<nat>)
    requires g.Sound() && v < |g.nodes| && v !in visited
    ensures Nodes(|g.nodes|) - (visited + {v}) < Nodes(|g.nodes|) - visited
    ensures Chain(g, v, visited) == Earlier(g, v, visited) + [v]
    ensures forall i :: 0 <= i < |Earlier(g, v, visited)| ==> Earlier(g, v, visited)[i] < |g.nodes|
  {
    assert v in Nodes(|g.nodes|) - visited;
    assert [] + [v] == [v];
    var parent := LeastParent(g.edges, v);
    if parent.Some? { ChainInGraph(g, parent.value, visited + {v}); }
  }

  function EarlierIds(g: Graph, v: nat, visited: set<nat>, threshold: Float): seq<string>
    requires g.Sound() && v < |g.nodes| && v !in visited
  {
    match LeastParent(g.edges, v)
    case None => []
    case Some(parent) => EarliestIds(g, parent, visited + {v}, threshold)
  }

  lemma EarlierIdsAre(g: Graph, v: nat, visited: set<nat>, threshold: Float)
    requires g.Sound() && v < |g.nodes| && v !in visited
    requires forall i :: 0 <= i < |Earlier(g, v, visited)| ==> Earlier(g, v, visited)[i] < |g.nodes|
    ensures EarlierIds(g, v, visited, threshold) == KeptIds(g.nodes, Earlier(g, v, visited), threshold)
  {
  }

  lemma EarliestStep(g: Graph, v: nat, visited: set<nat>, threshold: Float)
    requires g.Sound() && v < |g.nodes| && v !in visited
    ensures EarliestIds(g, v, visited, threshold)
         == EarlierIds(g, v, visited, threshold) + if Kept(g.nodes[v], threshold) then [g.nodes[v].id] else []
  {
    ChainStep(g, v, visited);
    EarlierIdsAre(g, v, visited, threshold);
    KeptIdsOfLonger(g.nodes, Earlier(g, v, visited), v, threshold);
  }

  /** The recursion of the source, threading the visited set and the path. */
  method CollectEarliestPath(g: Graph, v: nat, threshold: Float, visited: set<nat>, path: seq<string>)
    returns (visited': set<nat>, path': seq<string>)
    requires g.Sound() && v < |g.nodes|
    ensures path' == path + EarliestIds(g, v, visited, threshold)
    ensures visited' == visited + Members(Chain(g, v, visited))
    decreases Nodes(|g.nodes|) - visited
  {
    visited', path' := visited, path;
    if v in visited { return; }
    ChainStep(g, v, visited);
    EarliestStep(g, v, visited, threshold);
    MembersStep(Earlier(g, v, visited), v, visited);
    visited' := visited' + {v};
    var parent := LeastParent(g.edges, v);
    if parent.Some? {
      visited', path' := CollectEarliestPath(g, parent.value, threshold, visited', path');
    }
    path' := PushKept(path', g.nodes[v], threshold);
  }

  /** The node is pushed, and popped again if it is a verification below threshold. */
  method PushKept(path: seq<string>, node: GraphNode, threshold: Float) returns (path': seq<string>)
    ensures path' == path + if Kept(node, threshold) then [node.id] else []
  {
    path' := path + [node.id];
    match node.payload {
      case VerificationPayload(_, score, _, _, _, _) =>
        if Less(score, threshold) { path' := path'[..|path'| - 1]; }
      case _ =>
    }
  }

  method TraceDriftPath(g: Graph, start: string, threshold: Float) returns (r: Result<seq<string>, GraphError>)
    requires g.Sound()
    ensures r == if start in g.index then Ok(EarliestIds(g, g.index[start], {}, threshold)) else Err(UnknownNode(start))
    ensures r.Ok? ==> start in g.index && IsDriftPath(g, g.index[start], {}, threshold, r.value)
  {
    if start !in g.index { return Err(UnknownNode(start)); }
    var visited, path := CollectEarliestPath(g, g.index[start], threshold, {}, []);
    assert path == EarliestIds(g, g.index[start], {}, threshold);
    EarliestIdsAreDriftPath(g, g.index[start], {}, threshold);
    r := Ok(path);
  }

  // ----- What the chain is -----

  /** Stated without the recursion: a sequence of distinct nodes that ends in v,
      in which every node but the first follows its least parent, and whose first
      node has no parent, or has its least parent among the visited nodes or on
      the sequence itself. */
  ghost predicate IsTrail(g: Graph, v: nat, visited: set<nat>, c: seq<nat>) {
    && c != [] && c[|c| - 1] == v
    && (forall i, j :: 0 <= i < j < |c| ==> c[i] != c[j])
    && (forall i :: 0 <= i < |c| ==> c[i] !in visited)
    && (forall i :: 0 <= i < |c| - 1 ==> LeastParent(g.edges, c[i + 1]) == Some(c[i]))
    && var root := LeastParent(g.edges, c[0]); root.Some? ==> root.value in visited || root.value in c
  }

  lemma {:induction false} ChainIsTrail(g: Graph, v: nat, visited: set<nat>)
    requires g.Sound() && v < |g.nodes| && v !in visited
    ensures IsTrail(g, v, visited, Chain(g, v, visited))
    decreases Nodes(|g.nodes|) - visited
  {
    var parent := LeastParent(g.edges, v);
    assert v in Nodes(|g.nodes|) - visited;
    if parent.Some? && parent.value !in visited + {v} {
      ChainIsTrail(g, parent.value, visited + {v});
      var b := Chain(g, parent.value, visited + {v});
      var c := b + [v];
      assert c[0] == b[0];
      assert forall i :: 0 <= i < |b| ==> b[i] in c;
      assert v in c;
    }
  }

  // ----- What the path shows of the chain -----

  predicate InGraph(nodes: seq<GraphNode>, chain: seq<nat>) {
    forall i :: 0 <= i < |chain| ==> chain[i] < |nodes|
  }

  /** These are the ids at certain places of the chain, in its order, and the places
      are all those where the node is no verification or deviates by the threshold
      at least. */
  predicate Picks(nodes: seq<GraphNode>, chain: seq<nat>, threshold: Float, ids: seq<string>, places: seq<nat>)
    requires InGraph(nodes, chain)
  {
    && |places| == |ids|
    && (forall i :: 0 <= i < |places| ==> places[i] < |chain| && ids[i] == nodes[chain[places[i]]].id)
    && (forall i, j :: 0 <= i < j < |places| ==> places[i] < places[j])
    && (forall p :: 0 <= p < |chain| ==>
          (p in places <==> match nodes[chain[p]].payload
                            case VerificationPayload(_, score, _, _, _, _) => !Less(score, threshold)
                            case _ => true))
  }

  lemma {:induction false} KeptIdsPick(nodes: seq<GraphNode>, chain: seq<nat>, threshold: Float) returns (places: seq<nat>)
    requires InGraph(nodes, chain)
    ensures Picks(nodes, chain, threshold, KeptIds(nodes, chain, threshold), places)
  {
    places := [];
    if chain != [] {
      var last := |chain| - 1;
      places := KeptIdsPick(nodes, chain[..last], threshold);
      if Kept(nodes[chain[last]], threshold) {
        places := OnePickMore(nodes, chain, threshold, KeptIds(nodes, chain[..last], threshold), places);
      } else {
        NoPickMore(nodes, chain, threshold, KeptIds(nodes, chain[..last], threshold), places);
        assert KeptIds(nodes, chain, threshold) == KeptIds(nodes, chain[..last], threshold);
      }
    }
  }

  lemma OnePickMore(nodes: seq<GraphNode>, chain: seq<nat>, threshold: Float, ids: seq<string>, places: seq<nat>) returns (more: seq<nat>)
    requires InGraph(nodes, chain) && chain != [] && Kept(nodes[chain[|chain| - 1]], threshold)
    requires Picks(nodes, chain[..|chain| - 1], threshold, ids, places)
    ensures Picks(nodes, chain, threshold, ids + [nodes[chain[|chain| - 1]].id], more)
  {
    var last := |chain| - 1;
    more := places + [last];
    forall p | 0 <= p < last ensures p in more <==> p in places { }
    assert forall p :: 0 <= p < last ==> chain[..last][p] == chain[p];
    assert more[|places|] == last;
  }

  lemma NoPickMore(nodes: seq<GraphNode>, chain: seq<nat>, threshold: Float, ids: seq<string>, places: seq<nat>)
    requires InGraph(nodes, chain) && chain != [] && !Kept(nodes[chain[|chain| - 1]], threshold)
    requires Picks(nodes, chain[..|chain| - 1], threshold, ids, places)
    ensures Picks(nodes, chain, threshold, ids, places)
  {
    var last := |chain| - 1;
    assert forall p :: 0 <= p < last ==> chain[..last][p] == chain[p];
    assert last !in places;
  }

  /** A trail to v, seen through the threshold. */
  ghost predicate IsDriftPath(g: Graph, v: nat, visited: set<nat>, threshold: Float, ids: seq<string>) {
    exists chain: seq<nat>, places: seq<nat> ::
      IsTrail(g, v, visited, chain) && InGraph(g.nodes, chain) && Picks(g.nodes, chain, threshold, ids, places)
  }

  lemma EarliestIdsAreDriftPath(g: Graph, v: nat, visited: set<nat>, threshold: Float)
    requires g.Sound() && v < |g.nodes|
    ensures if v in visited then EarliestIds(g, v, visited, threshold) == []
            else IsDriftPath(g, v, visited, threshold, EarliestIds(g, v, visited, threshold))
  {
    if v !in visited {
      ChainIsTrail(g, v, visited);
      ChainInGraph(g, v, visited);
      var places := KeptIdsPick(g.nodes, Chain(g, v, visited), threshold);
    }
  }

  /** There is only one such sequence. */
  lemma TrailIsUnique(g: Graph, v: nat, visited: set<nat>, c: seq<nat>, d: seq<nat>)
    requires IsTrail(g, v, visited, c) && IsTrail(g, v, visited, d) && |c| <= |d|
    ensures c == d
  {
    var n := |d| - |c|;
    SameTail(g, c, d, |c|);
    assert d[n..] == c;
    if n > 0 { FirstAgain(g, v, visited, c, d, n); }
  }

  lemma FirstAgain(g: Graph, v: nat, visited: set<nat>, c: seq<nat>, d: seq<nat>, n: nat)
    requires IsTrail(g, v, visited, c) && 0 < n < |d| && d[n..] == c
    requires LeastParent(g.edges, d[n - 1 + 1]) == Some(d[n - 1])
    ensures d[n - 1] in visited || exists k :: n <= k < |d| && d[k] == d[n - 1]
  {
    assert d[n] == c[0];
    if d[n - 1] !in visited {
      var k :| 0 <= k < |c| && c[k] == d[n - 1];
      assert d[n + k] == c[k];
    }
  }

  lemma {:induction false} SameTail(g: Graph, c: seq<nat>, d: seq<nat>, k: nat)
    requires 0 < k <= |c| <= |d| && c[|c| - 1] == d[|d| - 1]
    requires forall i :: 0 <= i < |c| - 1 ==> LeastParent(g.edges, c[i + 1]) == Some(c[i])
    requires forall i :: 0 <= i < |d| - 1 ==> LeastParent(g.edges, d[i + 1]) == Some(d[i])
    ensures forall i :: |c| - k <= i < |c| ==> d[|d| - |c| + i] == c[i]
  {
    if k > 1 {
      SameTail(g, c, d, k - 1);
      var i := |c| - k;
      assert LeastParent(g.edges, c[i + 1]) == Some(c[i]);
      assert LeastParent(g.edges, d[|d| - |c| + i + 1]) == Some(d[|d| - |c| + i]);
    }
  }

  lemma TrailIsWalk(g: Graph, v: nat, visited: set<nat>, c: seq<nat>)
    requires IsTrail(g, v, visited, c)
    ensures IsWalk(g.Arcs(), c)
  {
    forall i | 0 <= i < |c| - 1 ensures (c[i], c[i + 1]) in g.Arcs() {
      assert LeastParent(g.edges, c[i + 1]) == Some(c[i]);
      var e :| e in g.edges && e.target == c[i + 1] && e.source == c[i];
    }
  }

  /** On an acyclic graph the chain from a node is its least-parent ancestry all
      the way to a node without parents, each node once; no other sequence is. */
  lemma DriftChain(g: Graph, v: nat)
    requires g.Sound() && v < |g.nodes|
    ensures IsTrail(g, v, {}, Chain(g, v, {}))
    ensures forall c :: IsTrail(g, v, {}, c) ==> c == Chain(g, v, {})
    ensures g.Acyclic() ==> LeastParent(g.edges, Chain(g, v, {})[0]).None?
  {
    ChainIsTrail(g, v, {});
    var d := Chain(g, v, {});
    forall c | IsTrail(g, v, {}, c) ensures c == d {
      if |c| <= |d| { TrailIsUnique(g, v, {}, c, d); } else { TrailIsUnique(g, v, {}, d, c); }
    }
    if LeastParent(g.edges, d[0]).Some? { ParentedHeadIsOnCycle(g, v, d); }
  }

  /** A trail from the empty set stops early only because its next parent is on it. */
  lemma ParentedHeadIsOnCycle(g: Graph, v: nat, d: seq<nat>)
    requires g.Sound() && IsTrail(g, v, {}, d) && d != [] && LeastParent(g.edges, d[0]).Some?
    ensures !g.Acyclic()
  {
    var root := LeastParent(g.edges, d[0]).value;
    TrailIsWalk(g, v, {}, d);
    var e :| e in g.edges && e.target == d[0] && e.source == root;
    var k :| 0 <= k < |d| && d[k] == root;
    assert (root, d[0]) in g.Arcs();
    assert IsCycle(g.Arcs(), [root] + d[..k + 1]);
  }

  // ----- The threshold -----

  /** a is b with some entries left out: places tells where its entries stand. */
  predicate Embeds(a: seq<string>, b: seq<string>, places: seq<nat>) {
    && |places| == |a|
    && (forall i :: 0 <= i < |a| ==> places[i] < |b| && b[places[i]] == a[i])
    && (forall i, j :: 0 <= i < j < |a| ==> places[i] < places[j])
  }

  /** Raising the threshold only leaves more verification nodes out. */
  lemma {:induction false} HigherThresholdKeepsLess(nodes: seq<GraphNode>, chain: seq<nat>, low: Float, high: Float)
    returns (places: seq<nat>)
    requires forall i :: 0 <= i < |chain| ==> chain[i] < |nodes|
    requires AtMost(low, high)
    ensures Embeds(KeptIds(nodes, chain, high), KeptIds(nodes, chain, low), places)
  {
    if chain == [] {
      places := [];
    } else {
      var last := |chain| - 1;
      places := HigherThresholdKeepsLess(nodes, chain[..last], low, high);
      var node := nodes[chain[last]];
      HigherKeepsLess(node, low, high);
      var a, b := KeptIds(nodes, chain[..last], high), KeptIds(nodes, chain[..last], low);
      if Kept(node, high) {
        places := EmbedsOneMore(a, b, places, node.id);
      } else {
        EmbedsInMore(a, b, places, if Kept(node, low) then [node.id] else []);
      }
    }
  }

  lemma HigherKeepsLess(node: GraphNode, low: Float, high: Float)
    requires AtMost(low, high)
    ensures Kept(node, high) ==> Kept(node, low)
  {
  }

  lemma EmbedsOneMore(a: seq<string>, b: seq<string>, places: seq<nat>, id: string) returns (more: seq<nat>)
    requires Embeds(a, b, places)
    ensures Embeds(a + [id], b + [id], more)
  {
    more := places + [|b|];
  }

  lemma EmbedsInMore(a: seq<string>, b: seq<string>, places: seq<nat>, tail: seq<string>)
    requires Embeds(a, b, places)
    ensures Embeds(a, b + tail, places) && a + [] == a
  {
  }
}
