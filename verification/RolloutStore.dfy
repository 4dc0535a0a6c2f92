/** Stable policies, canary rollouts and version history: policy/src/store.rs. */
module RolloutStore {
  import opened Options
  import opened Numerals
  import opened PolicyTypes
  import opened Bucket

  datatype HistoryItem = HistoryItem(version: string, timestamp: int, diff: string)

  datatype ActiveRollout = ActiveRollout(candidate: AgentPolicy, percentage: byte, startedAt: int, stableVersion: string)

  datatype RolloutState = RolloutState(
    name: string, stableVersion: string, candidateVersion: string, percentage: byte, startedAt: int)

  datatype PolicySummary = PolicySummary(name: string, version: string)

  datatype StoreError = NotFound | InvalidInput(reason: string)

  /** The YAML text of a policy, as bytes; serialization itself is not modelled. */
  type Render = AgentPolicy -> seq<byte>

  datatype State = State(
    policies: map<string, AgentPolicy>, rollouts: map<string, ActiveRollout>, history: map<string, seq<HistoryItem>>)

  const EMPTY := State(map[], map[], map[])

  // ----- What each operation does to the state -----

  function DiffText(before: seq<byte>, after: seq<byte>): string {
    if before == after then "no-change" else "len:" + Dec(|before|) + "->" + Dec(|after|)
  }

  function HistoryOf(st: State, name: string): seq<HistoryItem> {
    if name in st.history then st.history[name] else []
  }

  function Inserted(st: State, policy: AgentPolicy, render: Render, time: int): State {
    var name := policy.metadata.name;
    var diff := if name in st.policies then DiffText(render(st.policies[name]), render(policy)) else "initial";
    var item := HistoryItem(policy.metadata.version, time, diff);
    State(st.policies[name := policy], st.rollouts, st.history[name := HistoryOf(st, name) + [item]])
  }

  function DescribeRollout(name: string, r: ActiveRollout): RolloutState {
    RolloutState(name, r.stableVersion, r.candidate.metadata.version, r.percentage, r.startedAt)
  }

  function Started(st: State, name: string, candidate: AgentPolicy, percentage: byte, time: int): (State, Result<RolloutState, StoreError>) {
    if percentage == 0 || percentage > 100 then
      (st, Err(InvalidInput("rollout percentage must be in range 1..=100")))
    else if candidate.metadata.name != name then
      (st, Err(InvalidInput("candidate policy metadata.name must match target policy name")))
    else if name !in st.policies then (st, Err(NotFound))
    else
      var rollout := ActiveRollout(candidate, percentage, time, st.policies[name].metadata.version);
      (st.(rollouts := st.rollouts[name := rollout]), Ok(DescribeRollout(name, rollout)))
  }

  function Stopped(st: State, name: string): (State, bool) {
    (st.(rollouts := st.rollouts - {name}), name in st.rollouts)
  }

  function Promoted(st: State, name: string, render: Render, time: int): (State, Result<PolicySummary, StoreError>) {
    if name !in st.rollouts then (st, Err(NotFound))
    else
      var next := Inserted(st.(rollouts := st.rollouts - {name}), st.rollouts[name].candidate, render, time);
      if name !in next.policies then (next, Err(NotFound))
      else (next, Ok(PolicySummary(next.policies[name].metadata.name, next.policies[name].metadata.version)))
  }

  function Resolved(st: State, name: string, key: seq<byte>): Option<AgentPolicy> {
    if name !in st.policies then None
    else if name in st.rollouts && BucketOf(key) < st.rollouts[name].percentage then Some(st.rollouts[name].candidate)
    else Some(st.policies[name])
  }

  // ----- The store object -----

  class PolicyStore {
    var policies: map<string, AgentPolicy>
    var rollouts: map<string, ActiveRollout>
    var history: map<string, seq<HistoryItem>>
    const render: Render

    function View(): State
      reads this
    {
      State(policies, rollouts, history)
    }

    constructor (render: Render)
      ensures View() == EMPTY && this.render == render
    {
      policies, rollouts, history := map[], map[], map[];
      this.render := render;
    }

    method Insert(policy: AgentPolicy, time: int)
      modifies this
      ensures View() == Inserted(old(View()), policy, render, time)
    {
      var name := policy.metadata.name;
      var diff := "initial";
      if name in policies { diff := DiffText(render(policies[name]), render(policy)); }
      policies := policies[name := policy];
      var item := HistoryItem(policy.metadata.version, time, diff);
      if name !in history { history := history[name := []]; }
      history := history[name := history[name] + [item]];
      assert history == Inserted(old(View()), policy, render, time).history;
    }

    method StartRollout(name: string, candidate: AgentPolicy, percentage: byte, time: int) returns (r: Result<RolloutState, StoreError>)
      modifies this`rollouts
      ensures (View(), r) == Started(old(View()), name, candidate, percentage, time)
    {
      if percentage == 0 || percentage > 100 {
        return Err(InvalidInput("rollout percentage must be in range 1..=100"));
      }
      if candidate.metadata.name != name {
        return Err(InvalidInput("candidate policy metadata.name must match target policy name"));
      }
      if name !in policies { return Err(NotFound); }
      var rollout := ActiveRollout(candidate, percentage, time, policies[name].metadata.version);
      rollouts := rollouts[name := rollout];
      r := Ok(DescribeRollout(name, rollout));
    }

    method StopRollout(name: string) returns (stopped: bool)
      modifies this`rollouts
      ensures (View(), stopped) == Stopped(old(View()), name)
    {
      stopped := name in rollouts;
      rollouts := rollouts - {name};
    }

    method PromoteRollout(name: string, time: int) returns (r: Result<PolicySummary, StoreError>)
      modifies this
      ensures (View(), r) == Promoted(old(View()), name, render, time)
    {
      if name !in rollouts { return Err(NotFound); }
      var rollout := rollouts[name];
      rollouts := rollouts - {name};
      Insert(rollout.candidate, time);
      if name !in policies { return Err(NotFound); }
      r := Ok(PolicySummary(policies[name].metadata.name, policies[name].metadata.version));
    }

    method ResolveForEvaluation(name: string, key: seq<byte>) returns (policy: Option<AgentPolicy>)
      ensures policy == Resolved(View(), name, key)
      ensures policy.None? <==> name !in policies
      ensures name in policies && name in rollouts && Hash(key) % 100 < rollouts[name].percentage ==> policy == Some(rollouts[name].candidate)
      ensures name in policies && (name in rollouts ==> Hash(key) % 100 >= rollouts[name].percentage) ==> policy == Some(policies[name])
    {
      if name !in policies { return None; }
      if name in rollouts {
        var bucket := Bucket0To99(key);
        if bucket < rollouts[name].percentage { return Some(rollouts[name].candidate); }
      }
      policy := Some(policies[name]);
    }
  }

  // ----- What every run keeps -----

  predicate WasVersion(h: seq<HistoryItem>, version: string) {
    exists i :: 0 <= i < |h| && h[i].version == version
  }

  ghost predicate RolloutOk(st: State, name: string)
    requires name in st.rollouts
  {
    var r := st.rollouts[name];
    && name in st.policies
    && r.candidate.metadata.name == name
    && 1 <= r.percentage <= 100
    && WasVersion(HistoryOf(st, name), r.stableVersion)
  }

  ghost predicate HistoryOk(st: State, name: string)
    requires name in st.policies
  {
    var h := HistoryOf(st, name);
    && h != []
    && h[|h| - 1].version == st.policies[name].metadata.version
    && forall i :: 0 <= i < |h| ==> (h[i].diff == "initial" <==> i == 0)
  }

  /** Names match; every rollout has a stable policy, a candidate of its name, a
      percentage in 1..100 and a stable version that was once live; histories
      exist exactly for known policies, end in the stable version, and are
      "initial" exactly at their first entry. */
  ghost predicate Valid(st: State) {
    && (forall n :: n in st.policies ==> st.policies[n].metadata.name == n && HistoryOk(st, n))
    && (forall n :: n in st.rollouts ==> RolloutOk(st, n))
    && st.history.Keys == st.policies.Keys
  }

  lemma DiffIsNotInitial(before: seq<byte>, after: seq<byte>)
    ensures DiffText(before, after) != "initial"
  {
    assert "no-change"[0] == 'n' && "initial"[0] == 'i';
    var text := "len:" + Dec(|before|) + "->" + Dec(|after|);
    assert text[0] == 'l';
  }

  lemma InsertKeepsRollouts(st: State, policy: AgentPolicy, render: Render, time: int, n: string)
    requires Valid(st) && n in st.rollouts
    ensures RolloutOk(Inserted(st, policy, render, time), n)
  {
    var st' := Inserted(st, policy, render, time);
    var h, h' := HistoryOf(st, n), HistoryOf(st', n);
    var i :| 0 <= i < |h| && h[i].version == st.rollouts[n].stableVersion;
    assert h <= h';
    assert h'[i] == h[i];
  }

  lemma InsertKeepsHistory(st: State, policy: AgentPolicy, render: Render, time: int, n: string)
    requires Valid(st) && n in Inserted(st, policy, render, time).policies
    ensures HistoryOk(Inserted(st, policy, render, time), n)
    ensures Inserted(st, policy, render, time).policies[n].metadata.name == n
  {
    if policy.metadata.name in st.policies {
      DiffIsNotInitial(render(st.policies[policy.metadata.name]), render(policy));
    }
    if n != policy.metadata.name {
      assert HistoryOk(st, n);
      assert HistoryOf(Inserted(st, policy, render, time), n) == HistoryOf(st, n);
    } else if n in st.policies {
      assert HistoryOk(st, n);
    }
  }

  lemma InsertKeepsValid(st: State, policy: AgentPolicy, render: Render, time: int)
    requires Valid(st)
    ensures Valid(Inserted(st, policy, render, time))
  {
    var st' := Inserted(st, policy, render, time);
    forall n | n in st'.policies ensures st'.policies[n].metadata.name == n && HistoryOk(st', n) {
      InsertKeepsHistory(st, policy, render, time, n);
    }
    forall n | n in st'.rollouts ensures RolloutOk(st', n) { InsertKeepsRollouts(st, policy, render, time, n); }
  }

  lemma SameHistoryKeeps(st: State, st': State)
    requires Valid(st) && st'.policies == st.policies && st'.history == st.history
    requires forall n :: n in st'.rollouts ==> RolloutOk(st', n)
    ensures Valid(st')
  {
    forall n | n in st'.policies ensures st'.policies[n].metadata.name == n && HistoryOk(st', n) {
      assert HistoryOk(st, n);
    }
  }

  lemma NewRolloutOk(st: State, name: string, candidate: AgentPolicy, percentage: byte, time: int)
    requires Valid(st) && Started(st, name, candidate, percentage, time).1.Ok?
    ensures RolloutOk(Started(st, name, candidate, percentage, time).0, name)
  {
    assert HistoryOk(st, name);
    var h := HistoryOf(st, name);
    assert h[|h| - 1].version == st.policies[name].metadata.version;
    assert WasVersion(h, st.policies[name].metadata.version);
  }

  lemma StartKeepsValid(st: State, name: string, candidate: AgentPolicy, percentage: byte, time: int)
    requires Valid(st)
    ensures Valid(Started(st, name, candidate, percentage, time).0)
  {
    var (st', r) := Started(st, name, candidate, percentage, time);
    if r.Ok? {
      NewRolloutOk(st, name, candidate, percentage, time);
      forall n | n in st'.rollouts ensures RolloutOk(st', n) {
        if n != name { assert RolloutOk(st, n) && HistoryOf(st', n) == HistoryOf(st, n); }
      }
      SameHistoryKeeps(st, st');
    }
  }

  lemma StopKeepsValid(st: State, name: string)
    requires Valid(st)
    ensures Valid(Stopped(st, name).0)
  {
    var st' := Stopped(st, name).0;
    forall n | n in st'.rollouts ensures RolloutOk(st', n) { assert RolloutOk(st, n); }
    SameHistoryKeeps(st, st');
  }

  /** Promoting an active rollout never fails, and makes its candidate stable. */
  lemma PromoteNeverFails(st: State, name: string, render: Render, time: int)
    requires Valid(st)
    ensures var (st', r) := Promoted(st, name, render, time);
            && Valid(st')
            && (name in st.rollouts ==>
                  && r == Ok(PolicySummary(name, st.rollouts[name].candidate.metadata.version))
                  && name !in st'.rollouts && name in st'.policies && st'.policies[name] == st.rollouts[name].candidate)
            && (name !in st.rollouts ==> r.Err? && st' == st)
  {
    if name in st.rollouts {
      assert RolloutOk(st, name);
      StopKeepsValid(st, name);
      InsertKeepsValid(Stopped(st, name).0, st.rollouts[name].candidate, render, time);
    }
  }

  // ----- What is recorded -----

  /** The first thing wrong with a start. */
  function StartError(name: string, candidate: AgentPolicy, percentage: byte): StoreError {
    if !(1 <= percentage <= 100) then InvalidInput("rollout percentage must be in range 1..=100")
    else if candidate.metadata.name != name then InvalidInput("candidate policy metadata.name must match target policy name")
    else NotFound
  }

  /** A start succeeds exactly under these three conditions, the first that fails
      is named, and the rollout remembers the version that is stable at the time. */
  lemma StartedExactly(st: State, name: string, candidate: AgentPolicy, percentage: byte, time: int)
    requires Valid(st)
    ensures var (st', r) := Started(st, name, candidate, percentage, time);
            && (r.Ok? <==> 1 <= percentage <= 100 && candidate.metadata.name == name && name in st.policies)
            && (r.Err? ==> st' == st && r.error == StartError(name, candidate, percentage))
            && (r.Ok? ==>
                  && r.value == RolloutState(name, st.policies[name].metadata.version, candidate.metadata.version, percentage, time)
                  && st' == State(st.policies, st.rollouts[name := ActiveRollout(candidate, percentage, time, r.value.stableVersion)], st.history)
                  && HistoryOf(st, name)[|HistoryOf(st, name)| - 1].version == r.value.stableVersion)
  {
    if name in st.policies { assert HistoryOk(st, name); }
  }

  /** An insert replaces the policy and adds one item to its history, which tells
      a first version, an unchanged text, or the two lengths. */
  lemma InsertRecords(st: State, policy: AgentPolicy, render: Render, time: int)
    requires Valid(st)
    ensures var st', name := Inserted(st, policy, render, time), policy.metadata.name;
            && st'.policies == st.policies[name := policy] && st'.rollouts == st.rollouts
            && (forall n :: n != name ==> HistoryOf(st', n) == HistoryOf(st, n))
            && var item := HistoryItem(policy.metadata.version, time,
                 if name !in st.policies then "initial"
                 else if render(st.policies[name]) == render(policy) then "no-change"
                 else "len:" + Dec(|render(st.policies[name])|) + "->" + Dec(|render(policy)|));
               HistoryOf(st', name) == HistoryOf(st, name) + [item] && (HistoryOf(st, name) == [] <==> name !in st.policies)
  {
    if policy.metadata.name in st.policies { assert HistoryOk(st, policy.metadata.name); }
  }

  // ----- Canary resolution -----

  /** With the candidate fixed, a larger percentage keeps every key that was on
      the candidate there, and moves others only from stable to candidate; at 100
      every key is moved. */
  lemma RaisingMovesOneWay(st: State, name: string, candidate: AgentPolicy, low: byte, high: byte, time: int, key: seq<byte>)
    requires name in st.policies && candidate.metadata.name == name && 1 <= low <= high <= 100
    ensures var before := Resolved(Started(st, name, candidate, low, time).0, name, key);
            var after := Resolved(Started(st, name, candidate, high, time).0, name, key);
            && (before == after || (before == Some(st.policies[name]) && after == Some(candidate)))
            && (before == Some(candidate) ==> after == Some(candidate))
            && (high == 100 ==> after == Some(candidate))
  {
  }

  /** Stopping right after a successful start gives the store back exactly when
      no rollout of that name was active before. */
  lemma StopUndoesStart(st: State, name: string, candidate: AgentPolicy, percentage: byte, time: int)
    requires Started(st, name, candidate, percentage, time).1.Ok?
    ensures Stopped(Started(st, name, candidate, percentage, time).0, name).0 == st <==> name !in st.rollouts
    ensures Stopped(Started(st, name, candidate, percentage, time).0, name).1
  {
    var st' := Stopped(Started(st, name, candidate, percentage, time).0, name).0;
    if name !in st.rollouts { assert st'.rollouts == st.rollouts; }
  }
}
