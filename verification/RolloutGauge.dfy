/** Rollout handlers racing on one store: policy/src/main.rs. Each handler updates
    the store under its lock and only later, outside it, adds to the gauge. */
module RolloutGauge {
  import opened PolicyTypes
  import opened Bucket
  import opened RolloutStore

  /** A gauge change a handler has decided on but not yet recorded. */
  datatype Delta = Delta(name: string, amount: int)

  datatype System = System(store: State, gauge: map<string, int>, pending: seq<Delta>)

  const IDLE := System(EMPTY, map[], [])

  /** The store halves of the handlers, the gauge half, and the file watcher. */
  datatype Event =
    | Start(name: string, candidate: AgentPolicy, percentage: byte, time: int)
    | Stop(name: string)
    | Promote(name: string, time: int)
    | Record(index: nat)
    | Reload(policy: AgentPolicy, time: int)

  function Reading(gauge: map<string, int>, name: string): int {
    if name in gauge then gauge[name] else 0
  }

  function Next(s: System, e: Event, render: Render): System {
    match e
    case Start(name, candidate, percentage, time) =>
      var hadActive := name in s.store.rollouts;
      var (store, r) := Started(s.store, name, candidate, percentage, time);
      s.(store := store, pending := if r.Ok? && !hadActive then s.pending + [Delta(name, 1)] else s.pending)
    case Stop(name) =>
      var (store, stopped) := Stopped(s.store, name);
      s.(store := store, pending := if stopped then s.pending + [Delta(name, -1)] else s.pending)
    case Promote(name, time) =>
      var (store, r) := Promoted(s.store, name, render, time);
      s.(store := store, pending := if r.Ok? then s.pending + [Delta(name, -1)] else s.pending)
    case Record(i) =>
      if i < |s.pending| then
        var d := s.pending[i];
        s.(gauge := s.gauge[d.name := Reading(s.gauge, d.name) + d.amount], pending := s.pending[..i] + s.pending[i + 1..])
      else s
    case Reload(policy, time) => s.(store := Inserted(s.store, policy, render, time))
  }

  /** The system after any interleaving of handler halves and reloads. */
  function After(events: seq<Event>, render: Render): System {
    if events == [] then IDLE else Next(After(events[..|events| - 1], render), events[|events| - 1], render)
  }

  // ----- Conservation -----

  function Owed(pending: seq<Delta>, name: string): int {
    if pending == [] then 0
    else Owed(pending[..|pending| - 1], name) + if pending[|pending| - 1].name == name then pending[|pending| - 1].amount else 0
  }

  lemma {:induction false} OwedAppend(a: seq<Delta>, b: seq<Delta>, name: string)
    ensures Owed(a + b, name) == Owed(a, name) + Owed(b, name)
  {
    if b == [] {
      assert a + b == a;
    } else {
      assert (a + b)[..|a + b| - 1] == a + b[..|b| - 1];
      OwedAppend(a, b[..|b| - 1], name);
    }
  }

  lemma OwedOne(d: Delta, name: string)
    ensures Owed([d], name) == if d.name == name then d.amount else 0
  {
    assert [d][..0] == [];
  }

  lemma OwedRemove(pending: seq<Delta>, i: nat, name: string)
    requires i < |pending|
    ensures Owed(pending[..i] + pending[i + 1..], name)
         == Owed(pending, name) - (if pending[i].name == name then pending[i].amount else 0)
  {
    assert pending == pending[..i] + ([pending[i]] + pending[i + 1..]);
    OwedAppend(pending[..i], [pending[i]] + pending[i + 1..], name);
    OwedAppend([pending[i]], pending[i + 1..], name);
    OwedAppend(pending[..i], pending[i + 1..], name);
    OwedOne(pending[i], name);
  }

  function Active(s: System, name: string): int {
    if name in s.store.rollouts then 1 else 0
  }

  lemma NextKeepsStoreValid(s: System, e: Event, render: Render)
    requires Valid(s.store)
    ensures Valid(Next(s, e, render).store)
  {
    match e
    case Start(name, candidate, percentage, time) => StartKeepsValid(s.store, name, candidate, percentage, time);
    case Stop(name) => StopKeepsValid(s.store, name);
    case Promote(name, time) => PromoteNeverFails(s.store, name, render, time);
    case Record(i) =>
    case Reload(policy, time) => InsertKeepsValid(s.store, policy, render, time);
  }

  ghost predicate Balance(s: System, name: string) {
    Reading(s.gauge, name) + Owed(s.pending, name) == Active(s, name)
  }

  /** A store half: what it owes the gauge is the change in activity. */
  lemma StoreHalfBalances(s: System, store: State, d: Delta, owes: bool, name: string)
    requires Balance(s, name)
    requires Active(s.(store := store), name) == Active(s, name) + if owes && d.name == name then d.amount else 0
    ensures Balance(s.(store := store, pending := if owes then s.pending + [d] else s.pending), name)
  {
    OwedAppend(s.pending, [d], name);
    OwedOne(d, name);
  }

  lemma RecordBalances(s: System, i: nat, render: Render, name: string)
    requires Balance(s, name)
    ensures Balance(Next(s, Record(i), render), name)
  {
    if i < |s.pending| { OwedRemove(s.pending, i, name); }
  }

  lemma StartBalances(s: System, e: Event, render: Render, name: string)
    requires Balance(s, name) && e.Start?
    ensures Balance(Next(s, e, render), name)
  {
    var (store, r) := Started(s.store, e.name, e.candidate, e.percentage, e.time);
    StoreHalfBalances(s, store, Delta(e.name, 1), r.Ok? && e.name !in s.store.rollouts, name);
  }

  lemma StopBalances(s: System, e: Event, render: Render, name: string)
    requires Balance(s, name) && e.Stop?
    ensures Balance(Next(s, e, render), name)
  {
    var (store, stopped) := Stopped(s.store, e.name);
    StoreHalfBalances(s, store, Delta(e.name, -1), stopped, name);
  }

  lemma PromoteBalances(s: System, e: Event, render: Render, name: string)
    requires Valid(s.store) && Balance(s, name) && e.Promote?
    ensures Balance(Next(s, e, render), name)
  {
    PromoteEndsRollout(s.store, e.name, render, e.time, name);
    var (store, r) := Promoted(s.store, e.name, render, e.time);
    StoreHalfBalances(s, store, Delta(e.name, -1), r.Ok?, name);
  }

  lemma PromoteEndsRollout(st: State, promoted: string, render: Render, time: int, name: string)
    requires Valid(st)
    ensures var (store, r) := Promoted(st, promoted, render, time);
            && (r.Ok? <==> promoted in st.rollouts)
            && (name in store.rollouts <==> name in st.rollouts && name != promoted)
  {
    PromoteNeverFails(st, promoted, render, time);
  }

  lemma ReloadBalances(s: System, e: Event, render: Render, name: string)
    requires Balance(s, name) && e.Reload?
    ensures Balance(Next(s, e, render), name)
  {
  }

  lemma NextKeepsBalance(s: System, e: Event, render: Render, name: string)
    requires Valid(s.store) && Balance(s, name)
    ensures Balance(Next(s, e, render), name)
  {
    match e
    case Start(_, _, _, _) => StartBalances(s, e, render, name);
    case Stop(_) => StopBalances(s, e, render, name);
    case Promote(_, _) => PromoteBalances(s, e, render, name);
    case Record(i) => RecordBalances(s, i, render, name);
    case Reload(_, _) => ReloadBalances(s, e, render, name);
  }

  /** Over all interleavings, for every policy: the recorded gauge plus the
      changes not yet recorded is 1 if a rollout is active and 0 otherwise. */
  lemma {:induction false} GaugeConserved(events: seq<Event>, render: Render, name: string)
    ensures Valid(After(events, render).store)
    ensures Balance(After(events, render), name)
  {
    if events != [] {
      var before, e := events[..|events| - 1], events[|events| - 1];
      GaugeConserved(before, render, name);
      NextKeepsStoreValid(After(before, render), e, render);
      NextKeepsBalance(After(before, render), e, render, name);
    }
  }

  /** The gauge is the truth exactly when the changes not yet recorded cancel out. */
  lemma GaugeIsTrueExactly(events: seq<Event>, render: Render, name: string)
    ensures Reading(After(events, render).gauge, name) == Active(After(events, render), name)
        <==> Owed(After(events, render).pending, name) == 0
  {
    GaugeConserved(events, render, name);
  }

  /** With nothing left to record the gauge is the truth. */
  lemma QuiescentGaugeIsTrue(events: seq<Event>, render: Render, name: string)
    requires After(events, render).pending == []
    ensures Reading(After(events, render).gauge, name) == Active(After(events, render), name)
  {
    GaugeConserved(events, render, name);
  }

  /** While changes are outstanding the gauge can be wrong, and even negative: a
      stop that records before the start it stopped. */
  lemma GaugeCanLag(policy: AgentPolicy, render: Render)
    ensures var name := policy.metadata.name;
            var events := [Reload(policy, 0), Start(name, policy, 1, 0), Stop(name), Record(1)];
            Reading(After(events, render).gauge, name) == -1
  {
    var name := policy.metadata.name;
    var e0, e1, e2, e3 := Reload(policy, 0), Start(name, policy, 1, 0), Stop(name), Record(1);
    AfterOneMore([e0, e1, e2], e3, render);
    assert [e0, e1, e2] + [e3] == [e0, e1, e2, e3];
    TwoOwed(policy, render);
  }

  lemma FirstReload(policy: AgentPolicy, render: Render)
    ensures var s := After([Reload(policy, 0)], render);
            s.gauge == map[] && s.pending == [] && policy.metadata.name in s.store.policies && policy.metadata.name !in s.store.rollouts
  {
    AfterOneMore([], Reload(policy, 0), render);
    assert [] + [Reload(policy, 0)] == [Reload(policy, 0)];
  }

  lemma TwoOwed(policy: AgentPolicy, render: Render)
    ensures var name := policy.metadata.name;
            var s := After([Reload(policy, 0), Start(name, policy, 1, 0), Stop(name)], render);
            s.gauge == map[] && s.pending == [Delta(name, 1), Delta(name, -1)]
  {
    var name := policy.metadata.name;
    var e0, e1, e2 := Reload(policy, 0), Start(name, policy, 1, 0), Stop(name);
    FirstReload(policy, render);
    StartOwes(After([e0], render), name, policy, render);
    AfterOneMore([e0], e1, render);
    assert [e0] + [e1] == [e0, e1];
    StopOwes(After([e0, e1], render), name, render);
    AfterOneMore([e0, e1], e2, render);
    assert [e0, e1] + [e2] == [e0, e1, e2];
  }

  lemma StartOwes(s: System, name: string, policy: AgentPolicy, render: Render)
    requires name in s.store.policies && name !in s.store.rollouts && policy.metadata.name == name
    ensures var s' := Next(s, Start(name, policy, 1, 0), render);
            s'.gauge == s.gauge && s'.pending == s.pending + [Delta(name, 1)] && name in s'.store.rollouts
  {
  }

  lemma StopOwes(s: System, name: string, render: Render)
    requires name in s.store.rollouts
    ensures var s' := Next(s, Stop(name), render);
            s'.gauge == s.gauge && s'.pending == s.pending + [Delta(name, -1)]
  {
  }

  lemma AfterOneMore(events: seq<Event>, e: Event, render: Render)
    ensures After(events + [e], render) == Next(After(events, render), e, render)
  {
    assert (events + [e])[..|events|] == events;
  }
}
