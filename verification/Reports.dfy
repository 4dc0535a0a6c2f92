/** The summary of the graph store on the states its runs reach, stated on what
    the graphs and the ledger hold: graph/src/store.rs. */
module Reports {
  import opened Floats
  import opened Ccg
  import opened GraphStore
  import opened GraphTheorems
  import opened Slo

  /** On every run an entry is a verification's, at 0.7, or a denial's, at 1. */
  lemma EntriesAreOfTwoKinds(states: seq<State>, ops: seq<Op>, ttl: nat, scrub: Scrub, n: nat)
    requires Run(states, ops, ttl, scrub) && n < |states|
    ensures var vs := states[n].violations;
            && FiniteThresholds(vs)
            && forall k :: 0 <= k < |vs| ==> vs[k].threshold == Finite(0.7) || (vs[k].threshold == vs[k].deviationScore == Finite(1.0))
  {
    forall k | 0 <= k < |states[n].violations|
      ensures var v := states[n].violations[k]; v.threshold == Finite(0.7) || (v.threshold == v.deviationScore == Finite(1.0))
    {
      var i := EveryEntryWasRecorded(states, ops, ttl, scrub, n, k);
    }
  }

  /** The verifications in the ledger that deviate by 0.7, and by no more than a
      margin beyond. */
  function NearMisses(vs: seq<ViolationRecord>, margin: real): set<nat> {
    set k: nat | k < |vs| && vs[k].threshold == Finite(0.7) && vs[k].deviationScore.Finite? && 0.7 <= vs[k].deviationScore.r <= 0.7 + margin
  }

  /** On every run, whatever the order of the scan: the summary counts the actions
      by status, divides the blocked ones by all, and asks for a review of exactly
      the near misses of the verifier, denials never among them. */
  lemma SummaryOfRun(states: seq<State>, ops: seq<Op>, ttl: nat, scrub: Scrub, n: nat, order: seq<string>, margin: Float, s: Summary)
    requires Run(states, ops, ttl, scrub) && n < |states| && IsOrder(states[n].graphs, order)
    requires IsSummary(states[n], Payloads(states[n].graphs, order), margin, s)
    ensures var ps := Payloads(states[n].graphs, order);
            && s.allowed == |ActionsAt(ps, Allowed)| && s.blocked == |ActionsAt(ps, Blocked)| && s.pending == |ActionsAt(ps, Pending)|
            && s.total == s.allowed + s.blocked + s.pending && IsRate(s.blockRate, s.blocked, s.total)
    ensures s.reviewMargin.Finite?
         && s.reviewMargin.r == (if margin.Finite? && margin.r >= 0.0 then margin.r else 0.05)
         && s.reviewCount == |NearMisses(states[n].violations, s.reviewMargin.r)|
  {
    var ps, vs := Payloads(states[n].graphs, order), states[n].violations;
    StatusCountIs(ps, Allowed);
    StatusCountIs(ps, Blocked);
    StatusCountIs(ps, Pending);
    Partition(ps);
    EntriesAreOfTwoKinds(states, ops, ttl, scrub, n);
    ReviewCountIs(vs, s.reviewMargin.r);
    assert ReviewsAt(vs, s.reviewMargin.r) == NearMisses(vs, s.reviewMargin.r);
  }
}
