/**
 * What each operation of the persistent cache does to each single entry, told without the reverse
 * index and without an order of traversal.
 */
module L2Effects {
  import opened Wrappers
  import opened AgentTypes
  import opened Cascade
  import opened L2Model
  import opened L2Runs

  function At(es: Entries, k: string): Option<CacheEntry> {
    if k in es then Some(es[k]) else None
  }

  /** Up to and including the millisecond at which the time to live ends. */
  predicate InTime(e: CacheEntry, now: int) {
    now <= e.createdAtMs + 1000 * e.baseTtlSeconds
  }

  predicate Servable(e: CacheEntry, now: int) {
    e.status != INVALIDATED && InTime(e, now)
  }

  /** A hard invalidation reaches the root, and with the cascade what depends on it through live entries. */
  ghost function InvalidatedEntry(es: Entries, root: string, cascade: bool, k: string): CacheEntry
    requires k in es
  {
    var e := es[k];
    if root !in es then e
    else if k == root then e.(status := INVALIDATED, confidence := 0.0)
    else if cascade && DependsOnRoot(es, root, k) then
      e.(status := STALE, confidence := Damped(e.confidence, |HitDependencies(es, root, k)|))
    else e
  }

  function AgedConfidence(pow: Power, e: CacheEntry, now: int): real {
    e.confidence * pow(1.0 - e.confidenceDecay, (now - e.createdAtMs) as real / 86400000.0)
  }

  function AgedEntry(pow: Power, e: CacheEntry, now: int): CacheEntry {
    var c := AgedConfidence(pow, e, now);
    if e.status == INVALIDATED then e
    else if c < 0.3 then e.(status := STALE, confidence := c)
    else e.(confidence := c)
  }

  /** What an operation leaves under k. */
  ghost function EntryAfter(pow: Power, es: Entries, op: Op, k: string): Option<CacheEntry> {
    match op
    case Set(key, e) => if k == key then Some(e) else At(es, k)
    case Remove(key) => if k == key then None else At(es, k)
    case Get(key, now) =>
      if k == key && k in es && Servable(es[k], now) then Some(es[k].(accessCount := es[k].accessCount + 1)) else At(es, k)
    case SoftInvalidate(key) =>
      if k == key && k in es then Some(es[k].(status := STALE, confidence := 0.3 * es[k].confidence)) else At(es, k)
    case HardInvalidate(key, cascade) => if k in es then Some(InvalidatedEntry(es, key, cascade, k)) else None
    case Decay(now) => if k in es then Some(AgedEntry(pow, es[k], now)) else None
    case Purge(now) =>
      if k in es && es[k].status == INVALIDATED && now > es[k].createdAtMs + 2000 * es[k].baseTtlSeconds then None
      else At(es, k)
  }

  /**
   * The effect of a hard invalidation with and without the cascade: nothing for an unknown root;
   * otherwise the root is voided, and without the cascade nothing else changes.
   */
  lemma InvalidationExact(st: L2State, root: string, cascade: bool, k: string)
    requires Consistent(st) && k in st.entries
    ensures var after := HardInvalidated(st, root, cascade);
            && after.rev == st.rev && after.entries.Keys == st.entries.Keys
            && after.entries[k] == InvalidatedEntry(st.entries, root, cascade, k)
  {
    if root in st.entries && cascade {
      CascadeExact(st, root, k);
    }
  }

  /** Every operation does to every entry exactly that. */
  lemma StepExact(pow: Power, st: L2State, op: Op, k: string)
    requires Consistent(st)
    ensures At(Next(pow, st, op).entries, k) == EntryAfter(pow, st.entries, op, k)
  {
    match op
    case HardInvalidate(key, cascade) =>
      if k in st.entries {
        InvalidationExact(st, key, cascade, k);
      }
    case Decay(now) =>
      if k in st.entries {
        AgedExact(pow, st.entries[k], now);
      }
    case Get(key, now) =>
    case Set(key, e) =>
    case Remove(key) =>
    case SoftInvalidate(key) =>
    case Purge(now) =>
  }

  lemma DaysExact(e: CacheEntry, now: int)
    ensures DaysOld(e, now) == (now - e.createdAtMs) as real / 86400000.0
  {
    assert 1000.0 * 86400.0 == 86400000.0;
  }

  lemma AgedConfidenceExact(pow: Power, e: CacheEntry, now: int)
    ensures DecayedConfidence(pow, e, now) == AgedConfidence(pow, e, now)
  {
    DaysExact(e, now);
  }

  lemma AgedExact(pow: Power, e: CacheEntry, now: int)
    ensures Decayed(pow, e, now) == AgedEntry(pow, e, now)
  {
    AgedConfidenceExact(pow, e, now);
  }

  /** A read serves exactly what is present, in time and not INVALIDATED, with one more access counted. */
  lemma ReadExact(st: L2State, k: string, now: int)
    ensures ReadResult(st, k, now) ==
            if k in st.entries && Servable(st.entries[k], now)
            then Some(st.entries[k].(accessCount := st.entries[k].accessCount + 1)) else None
  {
  }

  /** So does the last operation of every run from the empty cache, whose index is in agreement. */
  lemma {:induction false} RunStepExact(pow: Power, ops: seq<Op>, k: string)
    requires ops != []
    ensures var before, after := Run(pow, L2State(map[], map[]), ops[..|ops| - 1]), Run(pow, L2State(map[], map[]), ops);
            At(after.entries, k) == EntryAfter(pow, before.entries, ops[|ops| - 1], k)
  {
    IndexAlwaysAgrees(pow, ops[..|ops| - 1], k, k);
    StepExact(pow, Run(pow, L2State(map[], map[]), ops[..|ops| - 1]), ops[|ops| - 1], k);
  }
}
