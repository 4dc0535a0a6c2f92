/** Directed graphs as sets of arcs: walks, reachability and cycles, with the
    acyclicity check that stands for petgraph's `toposort(..).is_ok()`. */
module Digraph {

  type Arc = (nat, nat)

  predicate IsWalk(E: set<Arc>, p: seq<nat>) {
    |p| >= 1 && forall i :: 0 <= i < |p| - 1 ==> (p[i], p[i + 1]) in E
  }

  predicate IsCycle(E: set<Arc>, p: seq<nat>) {
    IsWalk(E, p) && |p| >= 2 && p[0] == p[|p| - 1]
  }

  /** A directed cycle exists; a self-loop is one. */
  ghost predicate Cyclic(E: set<Arc>) {
    exists p :: IsCycle(E, p)
  }

  predicate Joins(E: set<Arc>, p: seq<nat>, u: nat, v: nat) {
    IsWalk(E, p) && p[0] == u && p[|p| - 1] == v
  }

  /** A walk of any length, the empty one included, leads from u to v. */
  ghost predicate Reaches(E: set<Arc>, u: nat, v: nat) {
    exists p :: Joins(E, p, u, v)
  }

  // ----- Adding one arc -----

  /** Whether and where a walk first uses an arc. */
  lemma FirstUse(E: set<Arc>, p: seq<nat>, u: nat, v: nat) returns (i: nat)
    requires IsWalk(E + {(u, v)}, p)
    ensures i < |p| && IsWalk(E, p[..i + 1])
    ensures if i + 1 < |p| then p[i] == u && p[i + 1] == v else (IsCycle(E + {(u, v)}, p) ==> IsCycle(E, p))
  {
    i := 0;
    while i + 1 < |p| && (p[i], p[i + 1]) in E
      invariant i < |p| && IsWalk(E, p[..i + 1])
    {
      i := i + 1;
    }
    assert p[..|p|] == p;
  }

  /** With the arc (u, v) added, getting from v to u needs nothing new: a walk
      can stop where it first meets u before using the arc. */
  lemma ArcNotNeeded(E: set<Arc>, p: seq<nat>, u: nat, v: nat)
    requires Joins(E + {(u, v)}, p, v, u)
    ensures Reaches(E, v, u)
  {
    var i := FirstUse(E, p, u, v);
    assert p[..i + 1][i] == p[i];
    assert Joins(E, p[..i + 1], v, u);
  }

  /** The tail and the head of a cycle, joined where it closes. */
  lemma Rotate(E: set<Arc>, c: seq<nat>, i: nat)
    requires IsCycle(E, c) && i + 1 < |c|
    ensures Joins(E, c[i + 1..] + c[1..i + 1], c[i + 1], c[i])
  {
    var q := c[i + 1..] + c[1..i + 1];
    forall k | 0 <= k < |q| - 1 ensures (q[k], q[k + 1]) in E {
      var n := |c| - i - 1;
      if k < n - 1 {
        assert q[k] == c[i + 1 + k] && q[k + 1] == c[i + 2 + k];
      } else if k == n - 1 {
        assert q[k] == c[|c| - 1] == c[0] && q[k + 1] == c[1];
      } else {
        assert q[k] == c[1 + k - n] && q[k + 1] == c[2 + k - n];
      }
    }
  }

  /** Adding an arc to an acyclic graph closes a cycle exactly when its head
      already reaches its tail. */
  lemma AddedArc(E: set<Arc>, u: nat, v: nat)
    requires !Cyclic(E)
    ensures Cyclic(E + {(u, v)}) <==> Reaches(E, v, u)
  {
    var F := E + {(u, v)};
    if Reaches(E, v, u) {
      var p :| Joins(E, p, v, u);
      assert IsCycle(F, [u] + p);
    }
    if Cyclic(F) {
      var c :| IsCycle(F, c);
      var i := FirstUse(E, c, u, v);
      if i + 1 < |c| {
        Rotate(F, c, i);
        ArcNotNeeded(E, c[i + 1..] + c[1..i + 1], u, v);
      }
    }
  }

  lemma FirstStep(E: set<Arc>, p: seq<nat>)
    requires IsWalk(E, p)
    ensures |p| == 1 || (p[0], p[1]) in E
  {
  }

  /** A node without outgoing arcs reaches nothing but itself. */
  lemma SinkReachesItself(E: set<Arc>, v: nat, u: nat)
    requires forall e :: e in E ==> e.0 != v
    requires Reaches(E, v, u)
    ensures u == v
  {
    var p :| Joins(E, p, v, u);
    FirstStep(E, p);
  }

  // ----- The check -----

  function Nodes(n: nat): (S: set<nat>)
    ensures forall i :: i in S <==> 0 <= i < n
  {
    if n == 0 then {} else Nodes(n - 1) + {n - 1}
  }

  predicate HasSource(E: set<Arc>, S: set<nat>, x: nat) {
    x in S && forall e :: e in E ==> !(e.1 == x && e.0 in S)
  }

  /** On a cycle every node has a predecessor on the cycle. */
  lemma CycleHasPredecessor(E: set<Arc>, c: seq<nat>, i: nat) returns (j: nat)
    requires IsCycle(E, c) && i < |c|
    ensures j < |c| && (c[j], c[i]) in E
  {
    j := if i == 0 then |c| - 2 else i - 1;
    assert (c[j], c[j + 1]) in E;
  }

  ghost predicate KeepsCycles(E: set<Arc>, S: set<nat>) {
    forall c, i :: IsCycle(E, c) && 0 <= i < |c| ==> c[i] in S
  }

  lemma SourceIsOnNoCycle(E: set<Arc>, S: set<nat>, x: nat)
    requires KeepsCycles(E, S) && HasSource(E, S, x)
    ensures KeepsCycles(E, S - {x})
  {
    forall c, i | IsCycle(E, c) && 0 <= i < |c|
      ensures c[i] in S - {x}
    {
      var j := CycleHasPredecessor(E, c, i);
      assert c[j] in S;
    }
  }

  /** A walk that only ever goes back inside S. */
  lemma {:induction false} WalkBack(E: set<Arc>, S: set<nat>, n: nat) returns (p: seq<nat>)
    requires S != {} && forall x :: x in S ==> !HasSource(E, S, x)
    ensures IsWalk(E, p) && |p| == n + 1 && forall i :: 0 <= i < |p| ==> p[i] in S
  {
    if n == 0 {
      var x :| x in S;
      p := [x];
    } else {
      var q := WalkBack(E, S, n - 1);
      assert !HasSource(E, S, q[0]);
      var e :| e in E && e.1 == q[0] && e.0 in S;
      p := [e.0] + q;
    }
  }

  /** More entries than values: some value occurs twice. */
  lemma {:induction false} Pigeonhole(p: seq<nat>, S: set<nat>) returns (i: nat, j: nat)
    requires |p| > |S| && forall k :: 0 <= k < |p| ==> p[k] in S
    ensures i < j < |p| && p[i] == p[j]
  {
    if exists k :: 0 < k < |p| && p[k] == p[0] {
      i := 0;
      j :| 0 < j < |p| && p[j] == p[0];
    } else {
      i, j := Pigeonhole(p[1..], S - {p[0]});
      i, j := i + 1, j + 1;
    }
  }

  lemma StuckIsCyclic(E: set<Arc>, S: set<nat>)
    requires S != {} && forall x :: x in S ==> !HasSource(E, S, x)
    ensures Cyclic(E)
  {
    var p := WalkBack(E, S, |S|);
    var i, j := Pigeonhole(p, S);
    assert IsCycle(E, p[i..j + 1]);
  }

  /** Takes away nodes that no remaining node points at until none is left to
      take: the graph is acyclic exactly when nothing remains. */
  method IsAcyclic(n: nat, E: set<Arc>) returns (ok: bool)
    requires forall e :: e in E ==> e.0 < n && e.1 < n
    ensures ok <==> !Cyclic(E)
  {
    var S := Nodes(n);
    forall c, i | IsCycle(E, c) && 0 <= i < |c| ensures c[i] in S {
      var j := CycleHasPredecessor(E, c, i);
    }
    while exists x :: x in S && HasSource(E, S, x)
      invariant KeepsCycles(E, S)
      decreases S
    {
      var x :| x in S && HasSource(E, S, x);
      SourceIsOnNoCycle(E, S, x);
      S := S - {x};
    }
    ok := S == {};
    assert forall c :: IsCycle(E, c) ==> c[0] in S;
    if !ok { StuckIsCyclic(E, S); }
  }
}
