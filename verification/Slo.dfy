/** The service-level summary of the graph store: graph/src/store.rs. */
module Slo {
  import opened Floats
  import opened Ccg
  import opened GraphStore

  // ----- Percentiles -----

  function Ceil(x: real): int {
    -((-x).Floor)
  }

  predicate Ascending(s: seq<nat>) {
    forall i, j :: 0 <= i < j < |s| ==> s[i] <= s[j]
  }

  /** The fraction p of n samples. */
  function Share(p: real, n: nat): real {
    p * n as real
  }

  function RankIndex(n: nat, percentile: real): (i: nat)
    requires n > 0
    ensures i < n
  {
    var bounded := if percentile < 0.0 then 0.0 else if percentile > 1.0 then 1.0 else percentile;
    var rank := Ceil(Share(bounded, n));
    var index := if rank > 0 then rank - 1 else 0;
    if index < n then index else n - 1
  }

  function PercentileMs(sorted: seq<nat>, percentile: real): nat {
    if sorted == [] then 0 else sorted[RankIndex(|sorted|, percentile)]
  }

  function CountBelow(s: seq<nat>, v: nat): nat {
    if s == [] then 0 else CountBelow(s[..|s| - 1], v) + if s[|s| - 1] < v then 1 else 0
  }

  function CountAtMost(s: seq<nat>, v: nat): nat {
    CountBelow(s, v + 1)
  }

  lemma {:induction false} CountOfSorted(s: seq<nat>, i: nat, v: nat)
    requires Ascending(s) && i <= |s|
    requires forall j :: 0 <= j < i ==> s[j] < v
    ensures CountBelow(s, v) >= i
    ensures (forall j :: i <= j < |s| ==> s[j] >= v) ==> CountBelow(s, v) == i
  {
    if s != [] {
      var t := s[..|s| - 1];
      CountOfSorted(t, if i == |s| then i - 1 else i, v);
    }
  }

  lemma RankBounds(n: nat, p: real)
    requires n > 0 && 0.0 < p <= 1.0
    ensures RankIndex(n, p) as real < Share(p, n) <= (RankIndex(n, p) + 1) as real
  {
    assert 0.0 < Share(p, n) <= n as real;
  }

  lemma RankCounts(s: seq<nat>, i: nat)
    requires Ascending(s) && i < |s|
    ensures CountBelow(s, s[i]) <= i && CountAtMost(s, s[i]) >= i + 1
  {
    CountOfSorted(s, i + 1, s[i] + 1);
    var k := FirstAt(s, s[i], i);
    CountOfSorted(s, k, s[i]);
  }

  lemma AsReals(below: nat, i: nat, atMost: nat, x: real)
    requires below <= i && i + 1 <= atMost && i as real < x <= (i + 1) as real
    ensures below as real < x <= atMost as real
  {
  }

  predicate IsNearestRank(s: seq<nat>, x: real, v: nat) {
    v in s && CountBelow(s, v) as real < x <= CountAtMost(s, v) as real
  }

  lemma AtRank(s: seq<nat>, i: nat, x: real)
    requires Ascending(s) && i < |s| && i as real < x <= (i + 1) as real
    ensures IsNearestRank(s, x, s[i])
  {
    RankCounts(s, i);
    AsReals(CountBelow(s, s[i]), i, CountAtMost(s, s[i]), x);
  }

  /** The nearest-rank percentile: at least the fraction p of the samples are at
      or below it, and less than that fraction strictly below. */
  lemma NearestRank(s: seq<nat>, p: real)
    requires s != [] && Ascending(s) && 0.0 < p <= 1.0
    ensures IsNearestRank(s, Share(p, |s|), PercentileMs(s, p))
  {
    RankBounds(|s|, p);
    AtRank(s, RankIndex(|s|, p), Share(p, |s|));
  }

  /** Fractions outside the range read the first sample or the last, and no samples read 0. */
  lemma PercentileEnds(s: seq<nat>, p: real)
    ensures s == [] ==> PercentileMs(s, p) == 0
    ensures s != [] && p <= 0.0 ==> PercentileMs(s, p) == s[0]
    ensures s != [] && p >= 1.0 ==> PercentileMs(s, p) == s[|s| - 1]
  {
    assert Share(0.0, |s|) == 0.0 && Share(1.0, |s|) == |s| as real;
    assert Ceil(|s| as real) == |s|;
  }

  lemma {:induction false} FirstAt(s: seq<nat>, v: nat, i: nat) returns (k: nat)
    requires Ascending(s) && i < |s| && s[i] == v
    ensures k <= i && (forall j :: 0 <= j < k ==> s[j] < v) && forall j :: k <= j < |s| ==> s[j] >= v
  {
    if i > 0 && s[i - 1] == v { k := FirstAt(s, v, i - 1); } else { k := i; }
  }

  lemma PercentilesAscend(s: seq<nat>, p: real, q: real)
    requires Ascending(s) && 0.0 <= p <= q <= 1.0
    ensures PercentileMs(s, p) <= PercentileMs(s, q)
  {
    if s != [] {
      RanksAscend(|s|, p, q);
    }
  }

  lemma CeilAscends(x: real, y: real)
    requires x <= y
    ensures Ceil(x) <= Ceil(y)
  {
  }

  lemma RanksAscend(n: nat, p: real, q: real)
    requires n > 0 && 0.0 <= p <= q <= 1.0
    ensures RankIndex(n, p) <= RankIndex(n, q)
  {
    ShareAscends(p, q, n as real);
    CeilAscends(Share(p, n), Share(q, n));
  }

  lemma ShareAscends(p: real, q: real, x: real)
    requires p <= q && x >= 0.0
    ensures p * x <= q * x
  {
  }

  // ----- Sorting the samples -----

  function InsertSorted(s: seq<nat>, v: nat): seq<nat> {
    if s == [] || s[|s| - 1] <= v then s + [v]
    else InsertSorted(s[..|s| - 1], v) + [s[|s| - 1]]
  }

  lemma {:induction false} InsertSortedBound(s: seq<nat>, v: nat, m: nat)
    requires v <= m && forall i :: 0 <= i < |s| ==> s[i] <= m
    ensures forall i :: 0 <= i < |InsertSorted(s, v)| ==> InsertSorted(s, v)[i] <= m
  {
    if s != [] && s[|s| - 1] > v { InsertSortedBound(s[..|s| - 1], v, m); }
  }

  lemma {:induction false} InsertSortedAscends(s: seq<nat>, v: nat)
    requires Ascending(s)
    ensures Ascending(InsertSorted(s, v))
  {
    if s != [] && s[|s| - 1] > v {
      InsertSortedAscends(s[..|s| - 1], v);
      InsertSortedBound(s[..|s| - 1], v, s[|s| - 1]);
    }
  }

  lemma {:induction false} InsertSortedAdds(s: seq<nat>, v: nat)
    ensures multiset(InsertSorted(s, v)) == multiset(s) + multiset{v}
  {
    if s != [] && s[|s| - 1] > v {
      InsertSortedAdds(s[..|s| - 1], v);
      assert s == s[..|s| - 1] + [s[|s| - 1]];
    }
  }

  /** Stands for sort_unstable. */
  method SortSamples(s: seq<nat>) returns (r: seq<nat>)
    ensures Ascending(r) && multiset(r) == multiset(s)
  {
    r := [];
    for i := 0 to |s|
      invariant Ascending(r) && multiset(r) == multiset(s[..i])
    {
      assert s[..i + 1] == s[..i] + [s[i]];
      InsertSortedAscends(r, s[i]);
      InsertSortedAdds(r, s[i]);
      r := InsertSorted(r, s[i]);
    }
    assert s[..|s|] == s;
  }

  lemma LastIsLargest(a: seq<nat>, v: nat)
    requires Ascending(a) && v in multiset(a)
    ensures a != [] && v <= a[|a| - 1]
  {
    assert v in a;
  }

  lemma WithoutLast(a: seq<nat>)
    requires a != []
    ensures multiset(a[..|a| - 1]) == multiset(a) - multiset{a[|a| - 1]} && a[|a| - 1] in multiset(a)
  {
    assert a == a[..|a| - 1] + [a[|a| - 1]];
  }

  lemma SameLast(a: seq<nat>, b: seq<nat>)
    requires Ascending(a) && Ascending(b) && multiset(a) == multiset(b) && a != []
    ensures b != [] && a[|a| - 1] == b[|b| - 1]
    ensures multiset(a[..|a| - 1]) == multiset(b[..|b| - 1])
  {
    WithoutLast(a);
    LastIsLargest(b, a[|a| - 1]);
    WithoutLast(b);
    LastIsLargest(a, b[|b| - 1]);
  }

  lemma FromLast(a: seq<nat>, b: seq<nat>)
    requires a != [] && b != [] && a[|a| - 1] == b[|b| - 1] && a[..|a| - 1] == b[..|b| - 1]
    ensures a == b
  {
    assert a == a[..|a| - 1] + [a[|a| - 1]];
  }

  lemma NoneLeft<T>(b: seq<T>)
    requires multiset(b) == multiset{}
    ensures b == []
  {
    assert |multiset(b)| == |b|;
  }

  /** A multiset has one ascending arrangement. */
  lemma {:induction false} SortedUnique(a: seq<nat>, b: seq<nat>)
    requires Ascending(a) && Ascending(b) && multiset(a) == multiset(b)
    ensures a == b
  {
    if a == [] {
      NoneLeft(b);
    } else {
      SameLast(a, b);
      SortedUnique(a[..|a| - 1], b[..|b| - 1]);
      FromLast(a, b);
    }
  }

  // ----- The payloads of all graphs, in the order a scan meets them -----

  function NodePayloads(nodes: seq<GraphNode>): (r: seq<NodePayload>)
    ensures |r| == |nodes| && forall i :: 0 <= i < |r| ==> r[i] == nodes[i].payload
  {
    seq(|nodes|, i requires 0 <= i < |nodes| => nodes[i].payload)
  }

  function Payloads(graphs: map<string, GraphData>, order: seq<string>): seq<NodePayload>
    requires forall i :: 0 <= i < |order| ==> order[i] in graphs
  {
    if order == [] then []
    else Payloads(graphs, order[..|order| - 1]) + NodePayloads(graphs[order[|order| - 1]].ccg.nodes)
  }

  /** A hash map is scanned in an order of its own, each key once. */
  predicate IsOrder(graphs: map<string, GraphData>, order: seq<string>) {
    && (forall i :: 0 <= i < |order| ==> order[i] in graphs)
    && (forall i, j :: 0 <= i < j < |order| ==> order[i] != order[j])
    && (forall id :: id in graphs ==> id in order)
  }

  function StatusCount(ps: seq<NodePayload>, status: ActionStatus): nat {
    if ps == [] then 0
    else
      var last := ps[|ps| - 1];
      StatusCount(ps[..|ps| - 1], status) + if last.ActionPayload? && last.status == status then 1 else 0
  }

  function ActionCount(ps: seq<NodePayload>): nat {
    if ps == [] then 0 else ActionCount(ps[..|ps| - 1]) + if ps[|ps| - 1].ActionPayload? then 1 else 0
  }

  function SampleOf(p: NodePayload): seq<nat> {
    if p.VerificationPayload? && p.latencyMs > 0 then [p.latencyMs] else []
  }

  function Samples(ps: seq<NodePayload>): seq<nat> {
    if ps == [] then [] else Samples(ps[..|ps| - 1]) + SampleOf(ps[|ps| - 1])
  }

  // ----- The summary -----

  datatype Summary = Summary(
    samples: nat, p50: nat, p95: nat, p99: nat,
    total: nat, allowed: nat, blocked: nat, pending: nat, blockRate: real,
    reviewCount: nat, reviewMargin: Float)

  function MarginOf(reviewMargin: Float): Float {
    if reviewMargin.Finite? && reviewMargin.r >= 0.0 then reviewMargin else Finite(0.05)
  }

  /** Recorded thresholds and margins are finite. */
  predicate NeedsReview(v: ViolationRecord, margin: Float) {
    && Less(v.threshold, Finite(1.0)) && AtMost(v.threshold, v.deviationScore)
    && (v.threshold.Finite? && margin.Finite? ==> AtMost(v.deviationScore, Finite(v.threshold.r + margin.r)))
  }

  function ReviewCount(vs: seq<ViolationRecord>, margin: Float): nat {
    if vs == [] then 0 else ReviewCount(vs[..|vs| - 1], margin) + if NeedsReview(vs[|vs| - 1], margin) then 1 else 0
  }

  function BlockRate(blocked: nat, total: nat): real {
    if total > 0 then blocked as real / total as real else 0.0
  }

  /** The counters and samples after one more node. */
  method CountNode(p: NodePayload, latencies: seq<nat>, allowed: nat, blocked: nat, pending: nat)
    returns (latencies': seq<nat>, allowed': nat, blocked': nat, pending': nat)
    ensures latencies' == latencies + SampleOf(p)
    ensures allowed' == allowed + if p.ActionPayload? && p.status == Allowed then 1 else 0
    ensures blocked' == blocked + if p.ActionPayload? && p.status == Blocked then 1 else 0
    ensures pending' == pending + if p.ActionPayload? && p.status == Pending then 1 else 0
  {
    latencies', allowed', blocked', pending' := latencies, allowed, blocked, pending;
    match p {
      case ActionPayload(_, _, _, status) =>
        match status {
          case Allowed => allowed' := allowed' + 1;
          case Blocked => blocked' := blocked' + 1;
          case Pending => pending' := pending' + 1;
        }
      case VerificationPayload(_, _, _, _, _, latency) =>
        if latency > 0 { latencies' := latencies' + [latency]; }
      case _ =>
    }
  }

  /** The inner loop: the nodes of one graph. */
  method CountGraph(nodes: seq<GraphNode>, ghost seen: seq<NodePayload>, latencies: seq<nat>, allowed: nat, blocked: nat, pending: nat)
    returns (latencies': seq<nat>, allowed': nat, blocked': nat, pending': nat)
    requires Counted(seen, latencies, allowed, blocked, pending)
    ensures Counted(seen + NodePayloads(nodes), latencies', allowed', blocked', pending')
  {
    latencies', allowed', blocked', pending' := latencies, allowed, blocked, pending;
    ghost var ps := NodePayloads(nodes);
    assert seen + ps[..0] == seen;
    for i := 0 to |nodes|
      invariant Counted(seen + ps[..i], latencies', allowed', blocked', pending')
    {
      latencies', allowed', blocked', pending' := CountNode(nodes[i].payload, latencies', allowed', blocked', pending');
      CountedOneMore(seen + ps[..i], ps[i]);
      assert seen + ps[..i] + [ps[i]] == seen + ps[..i + 1];
    }
    assert ps[..|nodes|] == ps;
  }

  /** The outer loop, with the scan's order as a parameter. */
  method CountAll(graphs: map<string, GraphData>, order: seq<string>)
    returns (latencies: seq<nat>, allowed: nat, blocked: nat, pending: nat)
    requires IsOrder(graphs, order)
    ensures Counted(Payloads(graphs, order), latencies, allowed, blocked, pending)
  {
    latencies, allowed, blocked, pending := [], 0, 0, 0;
    assert order[..0] == [];
    for g := 0 to |order|
      invariant Counted(Payloads(graphs, order[..g]), latencies, allowed, blocked, pending)
    {
      latencies, allowed, blocked, pending :=
        CountGraph(graphs[order[g]].ccg.nodes, Payloads(graphs, order[..g]), latencies, allowed, blocked, pending);
      PayloadsNext(graphs, order, g);
    }
    assert order[..|order|] == order;
  }

  method SloSummary(st: State, order: seq<string>, reviewMargin: Float) returns (s: Summary)
    requires IsOrder(st.graphs, order)
    ensures IsSummary(st, Payloads(st.graphs, order), reviewMargin, s)
    ensures s.p50 <= s.p95 <= s.p99
  {
    var latencies, allowed, blocked, pending := CountAll(st.graphs, order);
    var sorted := SortSamples(latencies);
    PercentilesAscend(sorted, 0.5, 0.95);
    PercentilesAscend(sorted, 0.95, 0.99);
    Partition(Payloads(st.graphs, order));
    var total := allowed + blocked + pending;
    var margin := MarginOf(reviewMargin);
    s := Summary(|latencies|, PercentileMs(sorted, 0.5), PercentileMs(sorted, 0.95), PercentileMs(sorted, 0.99),
                 total, allowed, blocked, pending, BlockRate(blocked, total), ReviewCount(st.violations, margin), margin);
    RateIs(blocked, total);
    assert Describes(sorted, Payloads(st.graphs, order), s);
  }

  /** The samples in ascending order and the percentiles read off them. */
  ghost predicate Describes(sorted: seq<nat>, ps: seq<NodePayload>, s: Summary) {
    && Ascending(sorted) && multiset(sorted) == multiset(Samples(ps))
    && s.p50 == PercentileMs(sorted, 0.5) && s.p95 == PercentileMs(sorted, 0.95) && s.p99 == PercentileMs(sorted, 0.99)
  }

  /** The blocked share of all actions, 0 without any. */
  predicate IsRate(rate: real, blocked: nat, total: nat) {
    rate * total as real == blocked as real && (total == 0 ==> rate == 0.0)
  }

  lemma RateIs(blocked: nat, total: nat)
    requires blocked <= total
    ensures IsRate(BlockRate(blocked, total), blocked, total)
  {
  }

  lemma OneRate(a: real, b: real, blocked: nat, total: nat)
    requires IsRate(a, blocked, total) && IsRate(b, blocked, total)
    ensures a == b
  {
    if total > 0 {
      assert a == blocked as real / total as real;
      assert b == blocked as real / total as real;
    }
  }

  ghost predicate IsSummary(st: State, ps: seq<NodePayload>, reviewMargin: Float, s: Summary) {
    && s.allowed == StatusCount(ps, Allowed) && s.blocked == StatusCount(ps, Blocked) && s.pending == StatusCount(ps, Pending)
    && s.total == ActionCount(ps) && IsRate(s.blockRate, s.blocked, s.total)
    && s.samples == |Samples(ps)| && (exists sorted :: Describes(sorted, ps, s))
    && s.reviewMargin == (if reviewMargin.Finite? && reviewMargin.r >= 0.0 then reviewMargin else Finite(0.05))
    && s.reviewCount == ReviewCount(st.violations, s.reviewMargin)
  }

  predicate Counted(ps: seq<NodePayload>, latencies: seq<nat>, allowed: nat, blocked: nat, pending: nat) {
    && latencies == Samples(ps)
    && allowed == StatusCount(ps, Allowed) && blocked == StatusCount(ps, Blocked) && pending == StatusCount(ps, Pending)
  }

  lemma CountedOneMore(ps: seq<NodePayload>, p: NodePayload)
    ensures Samples(ps + [p]) == Samples(ps) + SampleOf(p)
    ensures forall status :: StatusCount(ps + [p], status) ==
              StatusCount(ps, status) + if p.ActionPayload? && p.status == status then 1 else 0
  {
    assert (ps + [p])[..|ps|] == ps;
  }

  /** Every action node is counted once, under its status. */
  lemma {:induction false} Partition(ps: seq<NodePayload>)
    ensures StatusCount(ps, Allowed) + StatusCount(ps, Blocked) + StatusCount(ps, Pending) == ActionCount(ps)
  {
    if ps != [] { Partition(ps[..|ps| - 1]); }
  }

  // ----- What is counted -----

  /** The positions of the action nodes with a status. */
  function ActionsAt(ps: seq<NodePayload>, status: ActionStatus): set<nat> {
    set i: nat | i < |ps| && ps[i].ActionPayload? && ps[i].status == status
  }

  lemma {:induction false} StatusCountIs(ps: seq<NodePayload>, status: ActionStatus)
    ensures StatusCount(ps, status) == |ActionsAt(ps, status)|
  {
    if ps != [] {
      var n := |ps| - 1;
      StatusCountIs(ps[..n], status);
      assert ActionsAt(ps, status) == ActionsAt(ps[..n], status) + if ps[n].ActionPayload? && ps[n].status == status then {n} else {};
    }
  }

  /** The positions of the verifications that took so long. */
  function LatenciesAt(ps: seq<NodePayload>, ms: nat): set<nat> {
    set i: nat | i < |ps| && ps[i].VerificationPayload? && ps[i].latencyMs == ms
  }

  /** The samples are the latencies of the verifications, without the zeros. */
  lemma {:induction false} SamplesAre(ps: seq<NodePayload>, ms: nat)
    ensures multiset(Samples(ps))[ms] == if ms > 0 then |LatenciesAt(ps, ms)| else 0
  {
    if ps != [] {
      var n := |ps| - 1;
      SamplesAre(ps[..n], ms);
      OneMoreLatency(ps, ms);
      assert multiset(Samples(ps))[ms] == multiset(Samples(ps[..n]))[ms] + multiset(SampleOf(ps[n]))[ms];
    }
  }

  lemma OneMoreLatency(ps: seq<NodePayload>, ms: nat)
    requires ps != []
    ensures var n := |ps| - 1;
            |LatenciesAt(ps, ms)| == |LatenciesAt(ps[..n], ms)| + if ps[n].VerificationPayload? && ps[n].latencyMs == ms then 1 else 0
  {
    var n := |ps| - 1;
    assert LatenciesAt(ps, ms) == LatenciesAt(ps[..n], ms) + if ps[n].VerificationPayload? && ps[n].latencyMs == ms then {n} else {};
  }

  /** The positions of the records below the top threshold that lie within the
      margin above their own. */
  function ReviewsAt(vs: seq<ViolationRecord>, margin: real): set<nat>
    requires FiniteThresholds(vs)
  {
    set i: nat | i < |vs| && vs[i].threshold.r < 1.0 && vs[i].deviationScore.Finite?
              && vs[i].threshold.r <= vs[i].deviationScore.r <= vs[i].threshold.r + margin
  }

  predicate FiniteThresholds(vs: seq<ViolationRecord>) {
    forall i :: 0 <= i < |vs| ==> vs[i].threshold.Finite?
  }

  lemma {:induction false} ReviewCountIs(vs: seq<ViolationRecord>, margin: real)
    requires FiniteThresholds(vs)
    ensures ReviewCount(vs, Finite(margin)) == |ReviewsAt(vs, margin)|
  {
    if vs != [] {
      var n := |vs| - 1;
      ReviewCountIs(vs[..n], margin);
      assert ReviewsAt(vs, margin) == ReviewsAt(vs[..n], margin) + if NeedsReview(vs[n], Finite(margin)) then {n} else {};
    }
  }

  // ----- The scan's order does not matter -----

  /** A tally that adds something up node by node. */
  function Bag(ps: seq<NodePayload>, f: NodePayload -> multiset<nat>): multiset<nat> {
    if ps == [] then multiset{} else Bag(ps[..|ps| - 1], f) + f(ps[|ps| - 1])
  }

  lemma {:induction false} BagAppend(a: seq<NodePayload>, b: seq<NodePayload>, f: NodePayload -> multiset<nat>)
    ensures Bag(a + b, f) == Bag(a, f) + Bag(b, f)
  {
    if b == [] {
      assert a + b == a;
    } else {
      assert (a + b)[..|a + b| - 1] == a + b[..|b| - 1];
      BagAppend(a, b[..|b| - 1], f);
    }
  }

  lemma {:induction false} PayloadsAppend(graphs: map<string, GraphData>, a: seq<string>, b: seq<string>)
    requires forall i :: 0 <= i < |a| ==> a[i] in graphs
    requires forall i :: 0 <= i < |b| ==> b[i] in graphs
    ensures Payloads(graphs, a + b) == Payloads(graphs, a) + Payloads(graphs, b)
  {
    if b == [] {
      assert a + b == a;
    } else {
      var before, last := b[..|b| - 1], b[|b| - 1];
      assert b == before + [last];
      PayloadsAppend(graphs, a, before);
      PayloadsOneMore(graphs, before, last);
      PayloadsOneMore(graphs, a + before, last);
      assert a + before + [last] == a + b;
    }
  }

  lemma PayloadsNext(graphs: map<string, GraphData>, order: seq<string>, g: nat)
    requires g < |order| && forall i :: 0 <= i < |order| ==> order[i] in graphs
    ensures Payloads(graphs, order[..g + 1]) == Payloads(graphs, order[..g]) + NodePayloads(graphs[order[g]].ccg.nodes)
  {
    PayloadsOneMore(graphs, order[..g], order[g]);
    assert order[..g] + [order[g]] == order[..g + 1];
  }

  lemma PayloadsOneMore(graphs: map<string, GraphData>, a: seq<string>, id: string)
    requires id in graphs && forall i :: 0 <= i < |a| ==> a[i] in graphs
    ensures Payloads(graphs, a + [id]) == Payloads(graphs, a) + NodePayloads(graphs[id].ccg.nodes)
  {
    assert (a + [id])[..|a|] == a;
  }

  /** One key's share can be taken out of the scan wherever it was met. */
  lemma BagWithout(graphs: map<string, GraphData>, order: seq<string>, k: nat, f: NodePayload -> multiset<nat>)
    requires k < |order| && forall i :: 0 <= i < |order| ==> order[i] in graphs
    ensures Bag(Payloads(graphs, order), f)
         == Bag(Payloads(graphs, order[..k] + order[k + 1..]), f) + Bag(Payloads(graphs, [order[k]]), f)
  {
    var a, b := order[..k], order[k + 1..];
    assert order == a + ([order[k]] + b);
    PayloadsAppend(graphs, a, [order[k]] + b);
    PayloadsAppend(graphs, [order[k]], b);
    PayloadsAppend(graphs, a, b);
    BagAppend(Payloads(graphs, a), Payloads(graphs, [order[k]]) + Payloads(graphs, b), f);
    BagAppend(Payloads(graphs, [order[k]]), Payloads(graphs, b), f);
    BagAppend(Payloads(graphs, a), Payloads(graphs, b), f);
  }

  lemma CutOut(b: seq<string>, k: nat)
    requires k < |b|
    ensures multiset(b[..k] + b[k + 1..]) == multiset(b) - multiset{b[k]}
  {
    assert b == b[..k] + [b[k]] + b[k + 1..];
  }

  lemma {:induction false} BagOfAnyOrder(graphs: map<string, GraphData>, a: seq<string>, b: seq<string>, f: NodePayload -> multiset<nat>)
    requires (forall i :: 0 <= i < |a| ==> a[i] in graphs) && (forall i :: 0 <= i < |b| ==> b[i] in graphs)
    requires multiset(a) == multiset(b)
    ensures Bag(Payloads(graphs, a), f) == Bag(Payloads(graphs, b), f)
  {
    if a == [] {
      NoneLeft(b);
    } else {
      var n := |a| - 1;
      assert a[n] in multiset(b);
      var k :| 0 <= k < |b| && b[k] == a[n];
      CutOut(a, n);
      CutOut(b, k);
      assert a[..n] + a[n + 1..] == a[..n];
      BagOfAnyOrder(graphs, a[..n], b[..k] + b[k + 1..], f);
      BagWithout(graphs, b, k, f);
      BagWithout(graphs, a, n, f);
    }
  }

  lemma OrdersAgree(graphs: map<string, GraphData>, a: seq<string>, b: seq<string>)
    requires IsOrder(graphs, a) && IsOrder(graphs, b)
    ensures multiset(a) == multiset(b)
  {
    forall x: string ensures multiset(a)[x] == multiset(b)[x] {
      OnceOrNever(a, x);
      OnceOrNever(b, x);
    }
  }

  lemma {:induction false} OnceOrNever(a: seq<string>, x: string)
    requires forall i, j :: 0 <= i < j < |a| ==> a[i] != a[j]
    ensures multiset(a)[x] == if x in a then 1 else 0
  {
    if a != [] {
      var n := |a| - 1;
      assert a == a[..n] + [a[n]];
      OnceOrNever(a[..n], x);
    }
  }

  function StatusBag(status: ActionStatus): NodePayload -> multiset<nat> {
    (p: NodePayload) => if p.ActionPayload? && p.status == status then multiset{0} else multiset{}
  }

  function SampleBag(): NodePayload -> multiset<nat> {
    (p: NodePayload) => multiset(SampleOf(p))
  }

  lemma {:induction false} CountIsBag(ps: seq<NodePayload>, status: ActionStatus)
    ensures StatusCount(ps, status) == |Bag(ps, StatusBag(status))|
  {
    if ps != [] { CountIsBag(ps[..|ps| - 1], status); }
  }

  lemma {:induction false} SamplesAreBag(ps: seq<NodePayload>)
    ensures multiset(Samples(ps)) == Bag(ps, SampleBag())
  {
    if ps != [] { SamplesAreBag(ps[..|ps| - 1]); }
  }

  lemma SameCounts(graphs: map<string, GraphData>, a: seq<string>, b: seq<string>, status: ActionStatus)
    requires IsOrder(graphs, a) && IsOrder(graphs, b)
    ensures StatusCount(Payloads(graphs, a), status) == StatusCount(Payloads(graphs, b), status)
  {
    OrdersAgree(graphs, a, b);
    BagOfAnyOrder(graphs, a, b, StatusBag(status));
    CountIsBag(Payloads(graphs, a), status);
    CountIsBag(Payloads(graphs, b), status);
  }

  lemma SameSamples(graphs: map<string, GraphData>, a: seq<string>, b: seq<string>)
    requires IsOrder(graphs, a) && IsOrder(graphs, b)
    ensures multiset(Samples(Payloads(graphs, a))) == multiset(Samples(Payloads(graphs, b)))
  {
    OrdersAgree(graphs, a, b);
    BagOfAnyOrder(graphs, a, b, SampleBag());
    SamplesAreBag(Payloads(graphs, a));
    SamplesAreBag(Payloads(graphs, b));
  }

  lemma SameSize(a: seq<nat>, b: seq<nat>)
    requires multiset(a) == multiset(b)
    ensures |a| == |b|
  {
    assert |multiset(a)| == |a| && |multiset(b)| == |b|;
  }

  lemma OnePercentiles(ps: seq<NodePayload>, qs: seq<NodePayload>, s: Summary, t: Summary)
    requires multiset(Samples(ps)) == multiset(Samples(qs))
    requires (exists sorted :: Describes(sorted, ps, s)) && (exists sorted :: Describes(sorted, qs, t))
    ensures s.p50 == t.p50 && s.p95 == t.p95 && s.p99 == t.p99
  {
    var sorted :| Describes(sorted, ps, s);
    var sorted' :| Describes(sorted', qs, t);
    SortedUnique(sorted, sorted');
  }

  /** A state has one summary, whatever order the hash map is scanned in. */
  lemma SummaryIgnoresOrder(st: State, a: seq<string>, b: seq<string>, reviewMargin: Float, s: Summary, t: Summary)
    requires IsOrder(st.graphs, a) && IsOrder(st.graphs, b)
    requires IsSummary(st, Payloads(st.graphs, a), reviewMargin, s)
    requires IsSummary(st, Payloads(st.graphs, b), reviewMargin, t)
    ensures s == t
  {
    var ps, qs := Payloads(st.graphs, a), Payloads(st.graphs, b);
    SameCounts(st.graphs, a, b, Allowed);
    SameCounts(st.graphs, a, b, Blocked);
    SameCounts(st.graphs, a, b, Pending);
    Partition(ps);
    Partition(qs);
    OneRate(s.blockRate, t.blockRate, s.blocked, s.total);
    SameSamples(st.graphs, a, b);
    SameSize(Samples(ps), Samples(qs));
    OnePercentiles(ps, qs, s, t);
  }
}
