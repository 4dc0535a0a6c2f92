/** Policy decisions kept for a while under a 64-bit hash of the call: proxy/src/policy_cache.rs. */
module PolicyCache {
  import opened Options
  import opened Floats

  datatype PolicyDecision = PolicyDecision(allowed: bool, ruleId: string, threshold: Float, fallback: int, requireConfirmation: bool)

  datatype CacheKey = CacheKey(agentId: string, toolName: string, argsJson: string)

  /** The standard library's hasher is not modelled: any function of the key. */
  type Hash = CacheKey -> int

  datatype Entry = Entry(decision: PolicyDecision, storedAt: nat)

  type Entries = map<int, Entry>

  predicate Live(entry: Entry, ttl: nat, now: nat) {
    now - entry.storedAt <= ttl
  }

  function Found(entries: Entries, h: int, ttl: nat, now: nat): Option<PolicyDecision> {
    if h in entries && Live(entries[h], ttl, now) then Some(entries[h].decision) else None
  }

  /** A lookup drops the entry it finds expired. */
  function Looked(entries: Entries, h: int, ttl: nat, now: nat): Entries {
    if h in entries && !Live(entries[h], ttl, now) then entries - {h} else entries
  }

  class PolicyCache {
    const ttl: nat
    const hash: Hash
    var entries: Entries

    constructor (ttl: nat, hash: Hash)
      ensures this.ttl == ttl && this.hash == hash && entries == map[]
    {
      this.ttl, this.hash, entries := ttl, hash, map[];
    }

    method Get(key: CacheKey, now: nat) returns (decision: Option<PolicyDecision>)
      modifies this
      ensures decision == Found(old(entries), hash(key), ttl, now)
      ensures forall d :: decision == Some(d) <==>
                hash(key) in old(entries) && old(entries)[hash(key)].decision == d && now - old(entries)[hash(key)].storedAt <= ttl
      ensures entries == Looked(old(entries), hash(key), ttl, now)
    {
      var h := hash(key);
      if h !in entries { return None; }
      if now - entries[h].storedAt <= ttl { return Some(entries[h].decision); }
      entries := entries - {h};
      decision := None;
    }

    method Insert(key: CacheKey, decision: PolicyDecision, now: nat)
      modifies this
      ensures entries == old(entries)[hash(key) := Entry(decision, now)]
    {
      entries := entries[hash(key) := Entry(decision, now)];
    }
  }

  // ----- Lookups against the history of the cache -----

  datatype Use = Get(h: int, now: nat) | Put(h: int, decision: PolicyDecision, now: nat)

  function AfterUses(uses: seq<Use>, ttl: nat): Entries {
    if uses == [] then map[]
    else
      var before := AfterUses(uses[..|uses| - 1], ttl);
      match uses[|uses| - 1]
      case Get(h, now) => Looked(before, h, ttl, now)
      case Put(h, decision, now) => before[h := Entry(decision, now)]
  }

  /** The latest insert under a hash. */
  function LatestPut(uses: seq<Use>, h: int): Option<Entry> {
    if uses == [] then None
    else match uses[|uses| - 1]
      case Put(g, decision, now) => if g == h then Some(Entry(decision, now)) else LatestPut(uses[..|uses| - 1], h)
      case Get(_, _) => LatestPut(uses[..|uses| - 1], h)
  }

  /** The clock never goes back. */
  predicate InOrder(uses: seq<Use>, now: nat) {
    uses != [] ==> uses[|uses| - 1].now <= now && InOrder(uses[..|uses| - 1], uses[|uses| - 1].now)
  }

  /** After any uses under a clock that never goes back, a lookup returns exactly
      the latest insert under that hash, if it is at most the time-to-live old. */
  lemma GetIsLatestLivePut(uses: seq<Use>, ttl: nat, h: int, now: nat)
    requires InOrder(uses, now)
    ensures Found(AfterUses(uses, ttl), h, ttl, now) ==
              match LatestPut(uses, h)
              case Some(entry) => if now - entry.storedAt <= ttl then Some(entry.decision) else None
              case None => None
  {
    EntryIsLatest(uses, ttl, h, now);
  }

  /** The entry held is the latest insert; if none is held the latest has expired. */
  lemma {:induction false} EntryIsLatest(uses: seq<Use>, ttl: nat, h: int, now: nat)
    requires InOrder(uses, now)
    ensures var entries := AfterUses(uses, ttl);
            if h in entries then LatestPut(uses, h) == Some(entries[h])
            else LatestPut(uses, h).Some? ==> now - LatestPut(uses, h).value.storedAt > ttl
  {
    if uses != [] {
      var last := uses[|uses| - 1];
      EntryIsLatest(uses[..|uses| - 1], ttl, h, last.now);
    }
  }
}
