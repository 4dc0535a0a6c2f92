/** The decision on one tool call, and many such calls sharing one cache:
    proxy/src/enforcement.rs and proxy/src/circuit_breaker.rs. */
module Enforcement {
  import opened Options
  import opened Floats
  import opened PolicyCache

  // ----- One decision -----

  datatype FallbackMode = FallbackAllow | FallbackBlock | FallbackQueue

  datatype Decision = Allow | Block | Queue

  function MapFallback(code: int): FallbackMode {
    match code
    case 1 => FallbackAllow
    case 2 => FallbackQueue
    case _ => FallbackBlock
  }

  function FallbackToDecision(fallback: FallbackMode): Decision {
    match fallback
    case FallbackAllow => Allow
    case FallbackBlock => Block
    case FallbackQueue => Queue
  }

  function Decide(policyAllowed: bool, hasTrace: bool, allowWithoutTrace: bool, score: Option<Float>,
                  threshold: Float, fallback: FallbackMode, timeWindowOk: bool): Decision
  {
    if !policyAllowed || !timeWindowOk then Block
    else if !hasTrace && !allowWithoutTrace then Block
    else match score
      case None => FallbackToDecision(fallback)
      case Some(s) => if Less(s, threshold) then Allow else Block
  }

  /** A second attempt is made only under the QUEUE fallback. */
  function ScoreWithRetry<T>(first: Option<T>, second: Option<T>, fallback: FallbackMode): Option<T> {
    if first.Some? then first else if fallback == FallbackQueue then second else None
  }

  datatype Call = Call(key: CacheKey, hasTrace: bool, allowlisted: bool)

  /** What the verifier must have said, or not said, for a call to pass. */
  predicate VerifierPasses(decision: PolicyDecision, score: Option<Float>) {
    match score
    case Some(s) => Less(s, decision.threshold)
    case None => decision.fallback == 1
  }

  function DecisionFor(call: Call, decision: PolicyDecision, score: Option<Float>): Decision {
    if !decision.allowed then Block
    else Decide(true, call.hasTrace, call.allowlisted, score, decision.threshold, MapFallback(decision.fallback), true)
  }

  lemma AllowExactly(call: Call, decision: PolicyDecision, score: Option<Float>)
    ensures DecisionFor(call, decision, score) == Allow
        <==> decision.allowed && (call.hasTrace || call.allowlisted) && VerifierPasses(decision, score)
  {
  }

  /** What a call must come to under a decision and a score: a denial blocks, and
      so does a call without a trace or an allowlisted tool; else the score is held
      against the threshold, and without one the wire code of the fallback decides. */
  predicate IsAnswer(call: Call, d: PolicyDecision, score: Option<Float>, r: Decision) {
    var heard := d.allowed && (call.hasTrace || call.allowlisted);
    && (!heard ==> r == Block)
    && (heard && score.Some? ==> r == if Less(score.value, d.threshold) then Allow else Block)
    && (heard && score.None? ==> (r == Allow <==> d.fallback == 1) && (r == Queue <==> d.fallback == 2))
  }

  /** The score of two attempts: the second is made when the first fails and the
      call may be queued, and none is made for a denial. */
  predicate IsScore<T(==)>(d: PolicyDecision, first: Option<T>, second: Option<T>, score: Option<T>) {
    && (d.allowed && first.Some? ==> score == first)
    && (d.allowed && first.None? && d.fallback == 2 ==> score == second)
    && (d.allowed && first.None? && d.fallback != 2 ==> score == None)
    && (!d.allowed ==> score == None)
  }

  /** The breaker itself, a closed time window included: everything is blocked that
      is not allowed, in time, and traced or allowlisted. */
  lemma DecideExactly(policyAllowed: bool, hasTrace: bool, allowWithoutTrace: bool, score: Option<Float>,
                      threshold: Float, code: int, timeWindowOk: bool)
    ensures var r := Decide(policyAllowed, hasTrace, allowWithoutTrace, score, threshold, MapFallback(code), timeWindowOk);
            var open := policyAllowed && timeWindowOk && (hasTrace || allowWithoutTrace);
            && (r == Allow <==> open && if score.Some? then Less(score.value, threshold) else code == 1)
            && (r == Queue <==> open && score.None? && code == 2)
  {
  }

  lemma DecisionIsAnswer(call: Call, d: PolicyDecision, score: Option<Float>)
    ensures forall r :: IsAnswer(call, d, score, r) <==> r == DecisionFor(call, d, score)
  {
  }

  // ----- Calls sharing a cache -----

  datatype Outcome = Decided(decision: Decision) | FailedClosed

  /** How far a call has come: the two critical sections on the cache are its
      lookup and its store, and anything may happen in between. */
  datatype Phase =
    | Starting
    | Asking
    | Answered(reply: PolicyDecision)
    | Holding(held: PolicyDecision)
    | Done(outcome: Outcome)

  /** A call's local variables. */
  datatype CallState = CallState(
    call: Call, phase: Phase, lookedUpAt: nat, decision: Option<PolicyDecision>, score: Option<Float>)

  /** The policy service's answers, and the cache's inserts, as they happened. */
  datatype Reply = Reply(caller: nat, key: CacheKey, decision: PolicyDecision)
  datatype Store = Store(key: CacheKey, entry: Entry)

  datatype System = System(
    now: nat, entries: Entries, calls: seq<CallState>, replies: seq<Reply>, stores: seq<Store>)

  datatype Event =
    | Lookup(c: nat)
    | PolicyReplies(c: nat, decision: PolicyDecision)
    | PolicyFails(c: nat)
    | Insert(c: nat)
    | Conclude(c: nat, first: Option<Float>, second: Option<Float>)
    | Tick(elapsed: nat)

  datatype Config = Config(ttl: nat, hash: Hash, failClosed: bool)

  function With(s: System, c: nat, state: CallState): System
    requires c < |s.calls|
  {
    s.(calls := s.calls[c := state])
  }

  function LookedUp(s: System, c: nat, config: Config): System
    requires c < |s.calls|
  {
    var me := s.calls[c];
    var h := config.hash(me.call.key);
    var hit := Found(s.entries, h, config.ttl, s.now);
    var me' := if hit.Some? then me.(phase := Holding(hit.value), decision := hit, lookedUpAt := s.now)
               else me.(phase := Asking, lookedUpAt := s.now);
    With(s, c, me').(entries := Looked(s.entries, h, config.ttl, s.now))
  }

  function Concluded(me: CallState, first: Option<Float>, second: Option<Float>): CallState
    requires me.phase.Holding?
  {
    var d := me.phase.held;
    var score := if d.allowed then ScoreWithRetry(first, second, MapFallback(d.fallback)) else None;
    me.(phase := Done(Decided(DecisionFor(me.call, d, score))), score := score)
  }

  /** An event a call is not ready for changes nothing. */
  function Next(s: System, e: Event, config: Config): System {
    if e.Tick? then s.(now := s.now + e.elapsed)
    else if e.c >= |s.calls| then s
    else
      var me := s.calls[e.c];
      match e
      case Lookup(c) => if me.phase.Starting? then LookedUp(s, c, config) else s
      case PolicyReplies(c, d) =>
        if me.phase.Asking? then With(s, c, me.(phase := Answered(d))).(replies := s.replies + [Reply(c, me.call.key, d)]) else s
      case PolicyFails(c) =>
        if me.phase.Asking?
        then With(s, c, me.(phase := Done(if config.failClosed then FailedClosed else Decided(Allow)))) else s
      case Insert(c) =>
        if me.phase.Answered? then
          var entry := Entry(me.phase.reply, s.now);
          With(s, c, me.(phase := Holding(me.phase.reply), decision := Some(me.phase.reply)))
            .(entries := s.entries[config.hash(me.call.key) := entry], stores := s.stores + [Store(me.call.key, entry)])
        else s
      case Conclude(c, first, second) => if me.phase.Holding? then With(s, c, Concluded(me, first, second)) else s
  }

  function Begin(calls: seq<Call>): System {
    System(0, map[], seq(|calls|, i requires 0 <= i < |calls| => CallState(calls[i], Starting, 0, None, None)), [], [])
  }

  /** Any interleaving of the steps of any calls. */
  function After(calls: seq<Call>, events: seq<Event>, config: Config): System {
    if events == [] then Begin(calls)
    else Next(After(calls, events[..|events| - 1], config), events[|events| - 1], config)
  }

  // ----- Every allowed call is justified -----

  /** The policy service gave this decision for this key. */
  predicate Granted(s: System, key: CacheKey, d: PolicyDecision) {
    exists i :: 0 <= i < |s.replies| && s.replies[i].key == key && s.replies[i].decision == d
  }

  predicate GrantedTo(s: System, c: nat, d: PolicyDecision) {
    exists i :: 0 <= i < |s.replies| && s.replies[i].caller == c && s.replies[i].decision == d
  }

  /** It was stored under a key of the same hash, at most the time-to-live before. */
  predicate StoredFor(s: System, me: CallState, d: PolicyDecision, config: Config) {
    exists i :: 0 <= i < |s.stores| && s.stores[i].entry.decision == d
      && config.hash(s.stores[i].key) == config.hash(me.call.key)
      && me.lookedUpAt - s.stores[i].entry.storedAt <= config.ttl
  }

  predicate EntryWasStored(s: System, h: int, config: Config)
    requires h in s.entries
  {
    exists i :: 0 <= i < |s.stores| && s.stores[i].entry == s.entries[h] && config.hash(s.stores[i].key) == h
  }

  /** The outcome is the function of decision and score that the source computes. */
  predicate OutcomeOk(me: CallState, config: Config) {
    me.phase.Done? ==>
      (me.phase.outcome ==
       if me.decision.Some? then Decided(DecisionFor(me.call, me.decision.value, me.score))
       else if config.failClosed then FailedClosed else Decided(Allow))
  }

  ghost predicate CallOk(s: System, c: nat, config: Config)
    requires c < |s.calls|
  {
    var me := s.calls[c];
    && (me.phase.Starting? || me.phase.Asking? || me.phase.Answered? ==> me.decision.None?)
    && (me.phase.Answered? ==> GrantedTo(s, c, me.phase.reply) && Granted(s, me.call.key, me.phase.reply))
    && (me.phase.Holding? ==> me.decision == Some(me.phase.held))
    && (me.decision.Some? ==> GrantedTo(s, c, me.decision.value) || StoredFor(s, me, me.decision.value, config))
    && OutcomeOk(me, config)
  }

  ghost predicate Ok(s: System, config: Config) {
    && (forall c :: 0 <= c < |s.calls| ==> CallOk(s, c, config))
    && (forall h :: h in s.entries ==> EntryWasStored(s, h, config))
    && (forall i :: 0 <= i < |s.stores| ==> Granted(s, s.stores[i].key, s.stores[i].entry.decision))
    && (forall i :: 0 <= i < |s.replies| ==> s.replies[i].caller < |s.calls| && s.replies[i].key == s.calls[s.replies[i].caller].call.key)
  }

  /** The logs only grow, the calls stay the same calls. */
  predicate Extends(s: System, s': System) {
    && s.replies <= s'.replies && s.stores <= s'.stores && |s.calls| == |s'.calls|
    && forall c :: 0 <= c < |s.calls| ==> s'.calls[c].call == s.calls[c].call
  }

  lemma GrantsLast(s: System, s': System, c: nat, key: CacheKey, d: PolicyDecision)
    requires Extends(s, s')
    ensures Granted(s, key, d) ==> Granted(s', key, d)
    ensures GrantedTo(s, c, d) ==> GrantedTo(s', c, d)
  {
    if Granted(s, key, d) {
      var i :| 0 <= i < |s.replies| && s.replies[i].key == key && s.replies[i].decision == d;
      assert s'.replies[i] == s.replies[i];
    }
    if GrantedTo(s, c, d) {
      var i :| 0 <= i < |s.replies| && s.replies[i].caller == c && s.replies[i].decision == d;
      assert s'.replies[i] == s.replies[i];
    }
  }

  lemma StoresLast(s: System, s': System, me: CallState, d: PolicyDecision, config: Config)
    requires Extends(s, s') && StoredFor(s, me, d, config)
    ensures StoredFor(s', me, d, config)
  {
    var i :| 0 <= i < |s.stores| && s.stores[i].entry.decision == d
      && config.hash(s.stores[i].key) == config.hash(me.call.key)
      && me.lookedUpAt - s.stores[i].entry.storedAt <= config.ttl;
    assert s'.stores[i] == s.stores[i];
  }

  /** A call whose own state did not change stays in order as the logs grow. */
  lemma UntouchedCallOk(s: System, s': System, c: nat, config: Config)
    requires Extends(s, s') && c < |s.calls| && s'.calls[c] == s.calls[c] && CallOk(s, c, config)
    ensures CallOk(s', c, config)
  {
    var me := s.calls[c];
    if me.phase.Answered? { GrantsLast(s, s', c, me.call.key, me.phase.reply); }
    if me.decision.Some? {
      GrantsLast(s, s', c, me.call.key, me.decision.value);
      if StoredFor(s, me, me.decision.value, config) { StoresLast(s, s', me, me.decision.value, config); }
    }
  }

  lemma EntriesLast(s: System, s': System, h: int, config: Config)
    requires Extends(s, s') && h in s.entries && EntryWasStored(s, h, config)
    requires h in s'.entries && s'.entries[h] == s.entries[h]
    ensures EntryWasStored(s', h, config)
  {
    var i :| 0 <= i < |s.stores| && s.stores[i].entry == s.entries[h] && config.hash(s.stores[i].key) == h;
    assert s'.stores[i] == s.stores[i];
  }

  /** What is left to show of a step: the call it moves, and what it logs. */
  lemma StepKeepsOk(s: System, s': System, c: nat, config: Config)
    requires Ok(s, config) && Extends(s, s') && c < |s.calls|
    requires forall d :: 0 <= d < |s.calls| && d != c ==> s'.calls[d] == s.calls[d]
    requires CallOk(s', c, config)
    requires forall h :: h in s'.entries ==> (h in s.entries && s'.entries[h] == s.entries[h]) || EntryWasStored(s', h, config)
    requires forall i :: |s.stores| <= i < |s'.stores| ==> Granted(s', s'.stores[i].key, s'.stores[i].entry.decision)
    requires forall i :: |s.replies| <= i < |s'.replies| ==> s'.replies[i].caller == c && s'.replies[i].key == s.calls[c].call.key
    ensures Ok(s', config)
  {
    forall d | 0 <= d < |s'.calls| ensures CallOk(s', d, config) {
      if d != c { UntouchedCallOk(s, s', d, config); }
    }
    forall h | h in s'.entries ensures EntryWasStored(s', h, config) {
      if h in s.entries && s'.entries[h] == s.entries[h] { EntriesLast(s, s', h, config); }
    }
    forall i | 0 <= i < |s'.stores| ensures Granted(s', s'.stores[i].key, s'.stores[i].entry.decision) {
      if i < |s.stores| {
        assert s'.stores[i] == s.stores[i];
        GrantsLast(s, s', c, s.stores[i].key, s.stores[i].entry.decision);
      }
    }
    forall i | 0 <= i < |s'.replies|
      ensures s'.replies[i].caller < |s'.calls| && s'.replies[i].key == s'.calls[s'.replies[i].caller].call.key
    {
      if i < |s.replies| { assert s'.replies[i] == s.replies[i]; }
    }
  }

  lemma LookupKeepsOk(s: System, c: nat, config: Config)
    requires Ok(s, config) && c < |s.calls| && s.calls[c].phase.Starting?
    ensures Ok(LookedUp(s, c, config), config)
  {
    var s' := LookedUp(s, c, config);
    var me, h := s'.calls[c], config.hash(s.calls[c].call.key);
    assert CallOk(s, c, config);
    if me.decision.Some? {
      assert EntryWasStored(s, h, config);
      var i :| 0 <= i < |s.stores| && s.stores[i].entry == s.entries[h] && config.hash(s.stores[i].key) == h;
      assert s'.stores[i].entry.decision == me.decision.value;
      assert StoredFor(s', me, me.decision.value, config);
    }
    StepKeepsOk(s, s', c, config);
  }

  lemma ReplyKeepsOk(s: System, c: nat, d: PolicyDecision, config: Config)
    requires Ok(s, config) && c < |s.calls| && s.calls[c].phase.Asking?
    ensures Ok(Next(s, PolicyReplies(c, d), config), config)
  {
    var s' := Next(s, PolicyReplies(c, d), config);
    assert CallOk(s, c, config);
    assert s'.replies[|s.replies|] == Reply(c, s.calls[c].call.key, d);
    StepKeepsOk(s, s', c, config);
  }

  lemma FailKeepsOk(s: System, c: nat, config: Config)
    requires Ok(s, config) && c < |s.calls| && s.calls[c].phase.Asking?
    ensures Ok(Next(s, PolicyFails(c), config), config)
  {
    assert CallOk(s, c, config);
    StepKeepsOk(s, Next(s, PolicyFails(c), config), c, config);
  }

  lemma InsertKeepsOk(s: System, c: nat, config: Config)
    requires Ok(s, config) && c < |s.calls| && s.calls[c].phase.Answered?
    ensures Ok(Next(s, Insert(c), config), config)
  {
    var s' := Next(s, Insert(c), config);
    var me := s.calls[c];
    assert CallOk(s, c, config);
    GrantsLast(s, s', c, me.call.key, me.phase.reply);
    assert s'.stores[|s.stores|] == Store(me.call.key, Entry(me.phase.reply, s.now));
    assert EntryWasStored(s', config.hash(me.call.key), config);
    StepKeepsOk(s, s', c, config);
  }

  lemma ConcludeKeepsOk(s: System, c: nat, first: Option<Float>, second: Option<Float>, config: Config)
    requires Ok(s, config) && c < |s.calls| && s.calls[c].phase.Holding?
    ensures Ok(Next(s, Conclude(c, first, second), config), config)
  {
    var s' := Next(s, Conclude(c, first, second), config);
    var me := s.calls[c];
    assert CallOk(s, c, config);
    GrantsLast(s, s', c, me.call.key, me.phase.held);
    if StoredFor(s, me, me.phase.held, config) {
      StoresLast(s, s', me, me.phase.held, config);
      assert StoredFor(s', s'.calls[c], me.phase.held, config);
    }
    StepKeepsOk(s, s', c, config);
  }

  lemma TickKeepsOk(s: System, elapsed: nat, config: Config)
    requires Ok(s, config)
    ensures Ok(Next(s, Tick(elapsed), config), config)
  {
    var s' := Next(s, Tick(elapsed), config);
    forall c | 0 <= c < |s'.calls| ensures CallOk(s', c, config) { UntouchedCallOk(s, s', c, config); }
    forall h | h in s'.entries ensures EntryWasStored(s', h, config) { EntriesLast(s, s', h, config); }
    forall i | 0 <= i < |s'.stores| ensures Granted(s', s'.stores[i].key, s'.stores[i].entry.decision) {
      GrantsLast(s, s', 0, s.stores[i].key, s.stores[i].entry.decision);
    }
  }

  lemma NextKeepsOk(s: System, e: Event, config: Config)
    requires Ok(s, config)
    ensures Ok(Next(s, e, config), config)
  {
    if e.Tick? {
      TickKeepsOk(s, e.elapsed, config);
    } else if e.c < |s.calls| {
      var me := s.calls[e.c];
      match e
      case Lookup(c) => if me.phase.Starting? { LookupKeepsOk(s, c, config); }
      case PolicyReplies(c, d) => if me.phase.Asking? { ReplyKeepsOk(s, c, d, config); }
      case PolicyFails(c) => if me.phase.Asking? { FailKeepsOk(s, c, config); }
      case Insert(c) => if me.phase.Answered? { InsertKeepsOk(s, c, config); }
      case Conclude(c, first, second) => if me.phase.Holding? { ConcludeKeepsOk(s, c, first, second, config); }
    }
  }

  lemma {:induction false} AlwaysOk(calls: seq<Call>, events: seq<Event>, config: Config)
    ensures Ok(After(calls, events, config), config)
    ensures |After(calls, events, config).calls| == |calls|
    ensures forall c :: 0 <= c < |calls| ==> After(calls, events, config).calls[c].call == calls[c]
  {
    if events != [] {
      var before := After(calls, events[..|events| - 1], config);
      AlwaysOk(calls, events[..|events| - 1], config);
      NextKeepsOk(before, events[|events| - 1], config);
    }
  }

  /** The hash keeps the keys of these calls apart. */
  predicate Separates(hash: Hash, calls: seq<Call>) {
    forall i, j :: 0 <= i < |calls| && 0 <= j < |calls| && hash(calls[i].key) == hash(calls[j].key) ==> calls[i].key == calls[j].key
  }

  /** An allowing decision of the policy service for this very key, given to this
      call or stored at most the time-to-live before its lookup; a trace or an
      allowlisted tool; and a verifier that passes it. */
  predicate Justified(s: System, c: nat, config: Config)
    requires c < |s.calls|
  {
    var me := s.calls[c];
    && me.decision.Some?
    && var d := me.decision.value;
      && d.allowed && (me.call.hasTrace || me.call.allowlisted) && VerifierPasses(d, me.score)
      && Granted(s, me.call.key, d)
      && (GrantedTo(s, c, d) || StoredFor(s, me, d, config))
  }

  lemma DecisionIsForKey(calls: seq<Call>, s: System, c: nat, d: PolicyDecision, config: Config)
    requires Ok(s, config) && Separates(config.hash, calls) && |s.calls| == |calls| && c < |calls|
    requires forall i :: 0 <= i < |calls| ==> s.calls[i].call == calls[i]
    requires GrantedTo(s, c, d) || StoredFor(s, s.calls[c], d, config)
    ensures Granted(s, s.calls[c].call.key, d)
  {
    if GrantedTo(s, c, d) {
      var i :| 0 <= i < |s.replies| && s.replies[i].caller == c && s.replies[i].decision == d;
    } else {
      var i :| 0 <= i < |s.stores| && s.stores[i].entry.decision == d
        && config.hash(s.stores[i].key) == config.hash(s.calls[c].call.key)
        && s.calls[c].lookedUpAt - s.stores[i].entry.storedAt <= config.ttl;
      var key := s.stores[i].key;
      assert Granted(s, key, d);
      var j :| 0 <= j < |s.replies| && s.replies[j].key == key && s.replies[j].decision == d;
      var k := s.replies[j].caller;
      assert calls[k].key == key && config.hash(calls[k].key) == config.hash(calls[c].key);
    }
  }

  /** As much without a hash to rely on: the answer may be for another key of the
      same hash. */
  predicate AnsweredByHash(s: System, c: nat, config: Config)
    requires c < |s.calls|
  {
    var me := s.calls[c];
    && me.decision.Some?
    && var d := me.decision.value;
      && d.allowed && (me.call.hasTrace || me.call.allowlisted) && VerifierPasses(d, me.score)
      && (GrantedTo(s, c, d) || StoredFor(s, me, d, config))
  }

  /** Over all interleavings of any calls sharing the cache: an allowed call either
      met a policy error while the proxy fails open, or has an allowing answer for
      its hash; and if the hash keeps the calls' keys apart, for its very key. */
  lemma EveryAllowIsJustified(calls: seq<Call>, events: seq<Event>, config: Config, c: nat)
    requires c < |calls|
    ensures var s := After(calls, events, config);
            && c < |s.calls|
            && (s.calls[c].phase == Done(Decided(Allow)) ==>
                  || (s.calls[c].decision.None? && !config.failClosed)
                  || (AnsweredByHash(s, c, config) && (Separates(config.hash, calls) ==> Justified(s, c, config))))
  {
    AlwaysOk(calls, events, config);
    var s := After(calls, events, config);
    assert CallOk(s, c, config);
    var me := s.calls[c];
    if me.phase == Done(Decided(Allow)) && me.decision.Some? {
      AllowExactly(me.call, me.decision.value, me.score);
      if Separates(config.hash, calls) { DecisionIsForKey(calls, s, c, me.decision.value, config); }
    }
  }

  /** And no call is blocked or queued that this would justify. */
  lemma EveryJustifiedCallIsAllowed(calls: seq<Call>, events: seq<Event>, config: Config, c: nat)
    requires c < |calls|
    ensures var s := After(calls, events, config);
            && c < |s.calls|
            && (s.calls[c].phase.Done? && Justified(s, c, config) ==> s.calls[c].phase.outcome == Decided(Allow))
  {
    AlwaysOk(calls, events, config);
    var s := After(calls, events, config);
    assert CallOk(s, c, config);
    if s.calls[c].decision.Some? { AllowExactly(s.calls[c].call, s.calls[c].decision.value, s.calls[c].score); }
  }

  /** A finished call stays as it is. */
  lemma DoneStays(s: System, e: Event, config: Config, c: nat)
    requires c < |s.calls| && s.calls[c].phase.Done?
    ensures |Next(s, e, config).calls| == |s.calls| && Next(s, e, config).calls[c] == s.calls[c]
  {
  }

  /** A call finishes on a policy error, or on what the verifier said. */
  lemma Finishes(s: System, e: Event, config: Config, c: nat)
    requires c < |s.calls| && CallOk(s, c, config) && !s.calls[c].phase.Done?
    requires Next(s, e, config).calls[c].phase.Done?
    ensures var me := Next(s, e, config).calls[c];
            if e.Conclude? then e.c == c && ConcludedBy(me, e.first, e.second) else e == PolicyFails(c) && FailedBy(me, config)
  {
    if e.Conclude? { DecisionIsAnswer(s.calls[c].call, s.calls[c].phase.held, Concluded(s.calls[c], e.first, e.second).score); }
  }

  /** The call has finished under a decision, its score and its outcome as these
      two attempts at the verifier require. */
  predicate ConcludedBy(me: CallState, first: Option<Float>, second: Option<Float>) {
    && me.decision.Some? && IsScore(me.decision.value, first, second, me.score)
    && me.phase.Done? && me.phase.outcome.Decided?
    && IsAnswer(me.call, me.decision.value, me.score, me.phase.outcome.decision)
  }

  predicate FailedBy(me: CallState, config: Config) {
    me.decision.None? && me.phase == Done(if config.failClosed then FailedClosed else Decided(Allow))
  }

  /** Over all interleavings: a finished call was finished by one event, and its
      outcome is the answer to it. */
  lemma {:induction false} EveryOutcomeIsTheAnswer(calls: seq<Call>, events: seq<Event>, config: Config, c: nat) returns (i: nat)
    requires c < |calls| && |After(calls, events, config).calls| == |calls| && After(calls, events, config).calls[c].phase.Done?
    ensures i < |events|
    ensures var me := After(calls, events, config).calls[c];
            && me.call == calls[c]
            && if events[i].Conclude? then events[i].c == c && ConcludedBy(me, events[i].first, events[i].second)
               else events[i] == PolicyFails(c) && FailedBy(me, config)
  {
    AlwaysOk(calls, events, config);
    i := |events| - 1;
    var before := After(calls, events[..i], config);
    AlwaysOk(calls, events[..i], config);
    assert CallOk(before, c, config);
    if before.calls[c].phase.Done? {
      DoneStays(before, events[i], config, c);
      i := EveryOutcomeIsTheAnswer(calls, events[..i], config, c);
    } else {
      Finishes(before, events[i], config, c);
    }
  }

  /** The condition on the hash is needed: when two keys share a hash, one call
      can be allowed on the answer given for the other, with none for its own. */
  lemma CollidingKeysMislead(one: CacheKey, other: CacheKey, config: Config)
    requires one != other && config.hash(one) == config.hash(other)
    ensures var calls := [Call(one, true, false), Call(other, true, false)];
            var granted := PolicyDecision(true, "", Finite(1.0), 0, false);
            var events := [Lookup(0), PolicyReplies(0, granted), Insert(0), Lookup(1), Conclude(1, Some(Finite(0.0)), None)];
            var s := After(calls, events, config);
            && |s.calls| == 2 && s.calls[1].phase == Done(Decided(Allow))
            && forall d :: !Granted(s, other, d)
  {
    var calls := [Call(one, true, false), Call(other, true, false)];
    var granted := PolicyDecision(true, "", Finite(1.0), 0, false);
    var e0, e1, e2, e3, e4 := Lookup(0), PolicyReplies(0, granted), Insert(0), Lookup(1), Conclude(1, Some(Finite(0.0)), None);
    assert [e0][..0] == [] && [e0, e1][..1] == [e0] && [e0, e1, e2][..2] == [e0, e1];
    assert [e0, e1, e2, e3][..3] == [e0, e1, e2] && [e0, e1, e2, e3, e4][..4] == [e0, e1, e2, e3];
    var s1 := Next(Begin(calls), e0, config);
    var s2 := Next(s1, e1, config);
    var s3 := Next(s2, e2, config);
    var s4 := Next(s3, e3, config);
    var s5 := Next(s4, e4, config);
    assert s1.calls[0].phase == Asking;
    assert s2.replies == [Reply(0, one, granted)];
    assert s3.entries == map[config.hash(one) := Entry(granted, 0)];
    assert s4.calls[1].phase == Holding(granted);
    assert After(calls, [e0], config) == s1;
    assert After(calls, [e0, e1], config) == s2;
    assert After(calls, [e0, e1, e2], config) == s3;
    assert After(calls, [e0, e1, e2, e3], config) == s4;
  }
}
