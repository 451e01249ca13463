/** What holds of the persistent cache over whole runs of its operations. */
module L2Runs {
  import opened Sequences
  import opened ReverseIndex
  import opened AgentTypes
  import opened Cascade
  import opened L2Model

  datatype Op =
    | Get(key: string, now: int)
    | Set(key: string, entry: CacheEntry)
    | Remove(key: string)
    | SoftInvalidate(key: string)
    | HardInvalidate(key: string, cascade: bool)
    | Decay(now: int)
    | Purge(now: int)

  ghost function Next(pow: Power, st: L2State, op: Op): L2State {
    match op
    case Get(key, now) => Read(st, key, now)
    case Set(key, e) => Stored(st, key, e)
    case Remove(key) => Removed(st, key)
    case SoftInvalidate(key) => SoftInvalidated(st, key)
    case HardInvalidate(key, cascade) => HardInvalidated(st, key, cascade)
    case Decay(now) => AllDecayed(pow, st, now)
    case Purge(now) => Purged(st, now)
  }

  ghost function Run(pow: Power, st: L2State, ops: seq<Op>): L2State {
    if ops == [] then st else Next(pow, Run(pow, st, ops[..|ops| - 1]), ops[|ops| - 1])
  }

  // ---- the reverse index ----

  lemma StepConsistent(pow: Power, st: L2State, op: Op)
    requires Consistent(st)
    ensures Consistent(Next(pow, st, op))
  {
    match op
    case Get(key, now) => ReadConsistent(st, key, now);
    case Set(key, e) => StoredConsistent(st, key, e);
    case Remove(key) => RemovedConsistent(st, key);
    case SoftInvalidate(key) =>
      assert Dependencies(SoftInvalidated(st, key).entries) == Dependencies(st.entries);
    case HardInvalidate(key, cascade) => HardInvalidatedConsistent(st, key, cascade);
    case Decay(now) => DecayConsistent(pow, st, now);
    case Purge(now) => RemovedAllConsistent(st, PurgeableKeys(st.entries, now));
  }

  /**
   * After any run from the empty cache, k is in the list of d exactly when k is an entry that
   * depends on d, and it is there once.
   */
  lemma {:induction false} IndexAlwaysAgrees(pow: Power, ops: seq<Op>, d: string, k: string)
    ensures var st := Run(pow, L2State(map[], map[]), ops);
            && Consistent(st)
            && (k in ListAt(st.rev, d) <==> k in st.entries && d in st.entries[k].dependsOn)
            && NoDup(ListAt(st.rev, d))
  {
    var st := Run(pow, L2State(map[], map[]), ops);
    if ops != [] {
      IndexAlwaysAgrees(pow, ops[..|ops| - 1], d, k);
      StepConsistent(pow, Run(pow, L2State(map[], map[]), ops[..|ops| - 1]), ops[|ops| - 1]);
    }
    assert Lists(st.rev, d, k) <==> Points(Dependencies(st.entries), k, d);
  }

  // ---- confidence and status only go down ----

  function Rank(s: CacheStatus): nat {
    match s case FRESH => 0 case STALE => 1 case INVALIDATED => 2
  }

  /** later is a possible future of earlier: the same entry, no more trusted and no fresher. */
  ghost predicate NoFresher(earlier: CacheEntry, later: CacheEntry) {
    && Rank(earlier.status) <= Rank(later.status)
    && 0.0 <= later.confidence <= earlier.confidence
    && later == earlier.(status := later.status, confidence := later.confidence, accessCount := later.accessCount)
  }

  /** A power function with a base and an exponent that make it a damping factor. */
  ghost predicate Damping(pow: Power) {
    forall b: real, d: real :: 0.0 <= b <= 1.0 && d >= 0.0 ==> 0.0 <= pow(b, d) <= 1.0
  }

  lemma DecayedNoFresher(pow: Power, e: CacheEntry, now: int)
    requires Damping(pow) && e.confidence >= 0.0 && 0.0 <= e.confidenceDecay <= 1.0 && e.createdAtMs <= now
    ensures NoFresher(e, Decayed(pow, e, now))
  {
    DecayedConfidenceBounds(pow, e, now);
  }

  lemma DecayedConfidenceBounds(pow: Power, e: CacheEntry, now: int)
    requires Damping(pow) && e.confidence >= 0.0 && 0.0 <= e.confidenceDecay <= 1.0 && e.createdAtMs <= now
    ensures 0.0 <= DecayedConfidence(pow, e, now) <= e.confidence
  {
    AgeIsNotNegative(e, now);
    ScaledDown(e.confidence, pow(1.0 - e.confidenceDecay, DaysOld(e, now)));
  }

  lemma AgeIsNotNegative(e: CacheEntry, now: int)
    requires e.createdAtMs <= now
    ensures DaysOld(e, now) >= 0.0
  {
  }

  lemma ScaledDown(c: real, f: real)
    requires c >= 0.0 && 0.0 <= f <= 1.0
    ensures 0.0 <= c * f <= c
  {
    assert c * f >= 0.0;
    assert c * (1.0 - f) >= 0.0;
  }

  predicate Lowering(op: Op) {
    !op.Set? && !op.SoftInvalidate?
  }

  lemma StepNoFresher(pow: Power, st: L2State, op: Op, k: string)
    requires Damping(pow) && Lowering(op)
    requires k in st.entries && k in Next(pow, st, op).entries
    requires st.entries[k].confidence >= 0.0 && 0.0 <= st.entries[k].confidenceDecay <= 1.0
    requires op.Decay? ==> st.entries[k].createdAtMs <= op.now
    ensures NoFresher(st.entries[k], Next(pow, st, op).entries[k])
  {
    var e := st.entries[k];
    if op.Decay? {
      DecayedNoFresher(pow, e, op.now);
    } else if op.HardInvalidate? && op.key in st.entries && op.cascade {
      var es := st.entries[op.key := Voided(st.entries[op.key])];
      DampedBounds(es[k].confidence, |EdgesInto(st.rev, CascadeSet(es, st.rev, op.key), k)|);
    }
  }

  lemma StepAddsNothing(pow: Power, st: L2State, op: Op, k: string)
    requires Lowering(op) && k !in st.entries
    ensures k !in Next(pow, st, op).entries
  {
  }

  /**
   * Over a run that neither stores nor soft-invalidates, an entry's confidence in [0,1] never
   * rises, its status only moves from FRESH through STALE to INVALIDATED, and all else it
   * carries but the access counter is unchanged.
   */
  lemma {:induction false} RunNoFresher(pow: Power, st: L2State, ops: seq<Op>, k: string)
    requires Damping(pow)
    requires forall i :: 0 <= i < |ops| ==> Lowering(ops[i])
    requires k in st.entries && k in Run(pow, st, ops).entries
    requires 0.0 <= st.entries[k].confidence <= 1.0 && 0.0 <= st.entries[k].confidenceDecay <= 1.0
    requires forall i :: 0 <= i < |ops| && ops[i].Decay? ==> st.entries[k].createdAtMs <= ops[i].now
    ensures NoFresher(st.entries[k], Run(pow, st, ops).entries[k])
  {
    if ops != [] {
      var n := |ops| - 1;
      var mid := Run(pow, st, ops[..n]);
      if k !in mid.entries {
        StepAddsNothing(pow, mid, ops[n], k);
      }
      RunNoFresher(pow, st, ops[..n], k);
      StepNoFresher(pow, mid, ops[n], k);
    }
  }

  /**
   * The one operation that goes back: soft invalidation keeps the order exactly when the
   * entry was not already INVALIDATED.
   */
  lemma SoftInvalidationOrder(st: L2State, k: string)
    requires k in st.entries && st.entries[k].confidence >= 0.0
    ensures NoFresher(st.entries[k], SoftInvalidated(st, k).entries[k]) <==> !st.entries[k].status.INVALIDATED?
  {
    var c := st.entries[k].confidence;
    assert 0.0 <= c * 0.3 <= c;
  }

  // ---- FRESH keeps meaning something ----

  /** Every FRESH entry is at or above the stale threshold. */
  ghost predicate FreshIsTrusted(es: Entries) {
    forall k :: k in es && es[k].status.FRESH? ==> es[k].confidence >= CONFIDENCE_STALE
  }

  /**
   * If no entry is stored FRESH with less confidence than the stale threshold, no run, whatever
   * its decay, ever leaves one that is.
   */
  lemma {:induction false} FreshStaysTrusted(pow: Power, ops: seq<Op>)
    requires forall i :: 0 <= i < |ops| && ops[i].Set? && ops[i].entry.status.FRESH? ==>
               ops[i].entry.confidence >= CONFIDENCE_STALE
    ensures FreshIsTrusted(Run(pow, L2State(map[], map[]), ops).entries)
  {
    if ops != [] {
      FreshStaysTrusted(pow, ops[..|ops| - 1]);
      StepKeepsFreshTrusted(pow, Run(pow, L2State(map[], map[]), ops[..|ops| - 1]), ops[|ops| - 1]);
    }
  }

  lemma StepKeepsFreshTrusted(pow: Power, st: L2State, op: Op)
    requires FreshIsTrusted(st.entries)
    requires op.Set? && op.entry.status.FRESH? ==> op.entry.confidence >= CONFIDENCE_STALE
    ensures FreshIsTrusted(Next(pow, st, op).entries)
  {
    match op
    case Get(key, now) =>
    case Set(key, e) =>
    case Remove(key) =>
    case SoftInvalidate(key) =>
    case HardInvalidate(key, cascade) => InvalidationKeepsFreshTrusted(st, key, cascade);
    case Decay(now) =>
    case Purge(now) =>
  }

  lemma InvalidationKeepsFreshTrusted(st: L2State, key: string, cascade: bool)
    requires FreshIsTrusted(st.entries)
    ensures FreshIsTrusted(HardInvalidated(st, key, cascade).entries)
  {
    var after := HardInvalidated(st, key, cascade).entries;
    forall k | k in after && after[k].status.FRESH? ensures k in st.entries && after[k] == st.entries[k] {
    }
  }
}
