/** The guarantees of the coordinator over whole runs, starting from empty caches. */
module CoordinatorRuns {
  import opened Wrappers
  import opened AgentTypes
  import opened Cascade
  import opened L2Model
  import L2Disk
  import opened Lru
  import opened L1Cache
  import opened CoordinatorModel

  // ---- invalidated stays gone ----

  predicate Writes(step: Step, k: string) {
    step.Write? && step.entry.key == k
  }

  /** No level can serve k. */
  ghost predicate Gone(st: State, k: string) {
    Lookup(st.l1, k) == None && (k in st.l2.entries ==> st.l2.entries[k].status.INVALIDATED?)
  }

  lemma StepKeepsGone(pow: Power, st: State, step: Step, k: string)
    requires st.l1Max > 0 && WellKeyed(st) && Gone(st, k) && !Writes(step, k)
    ensures Gone(Next(pow, st, step), k)
  {
    match step
    case Query(q) =>
      var key := KeyOf(q);
      ItemsAfterGet(st.l1, key, q.steadyNow, k);
      GetKeepsProper(L1_POLICY, st.l1, key, q.steadyNow, st.l1Max);
      if ReadResult(st.l2, key, q.systemNow).Some? {
        ItemsAfterSet(AfterL1(st, key, q.steadyNow).l1, key, ReadResult(st.l2, key, q.systemNow).value, st.l1Max, k);
      }
    case Write(entry, now, ref) =>
      var e := Stamped(entry, now);
      ItemsAfterSet(st.l1, e.key, e, st.l1Max, k);
    case Invalidate(key, cascade) => LookupWithout(st.l1, key, k);
    case Append(session, turn) =>
    case CloseSession(session) =>
    case Decay(now) =>
    case Purge(now) =>
    case Restart(lines) => RestartKeepsL2(st, lines);
  }

  lemma {:induction false} RunKeepsGone(pow: Power, st: State, steps: seq<Step>, k: string)
    requires st.l1Max > 0 && WellKeyed(st) && Gone(st, k)
    requires forall i :: 0 <= i < |steps| ==> !Writes(steps[i], k)
    ensures Gone(Run(pow, st, steps), k)
  {
    if steps != [] {
      var n := |steps| - 1;
      RunKeepsGone(pow, st, steps[..n], k);
      RunKeepsWellKeyed(pow, st, steps[..n]);
      StepKeepsGone(pow, Run(pow, st, steps[..n]), steps[n], k);
    }
  }

  lemma GoneIsNotServed(st: State, q: Request, k: string)
    requires st.l1Max > 0 && WellKeyed(st) && Gone(st, k)
    ensures ResultOf(st, q).Hit? ==> ResultOf(st, q).entry.key != k
  {
    OwnKeysByLookup(st.l1);
  }

  /**
   * Once k is invalidated, with or without cascade, no later query returns an entry with key k,
   * from the first level, from the session path or from the second level, until k is written.
   */
  lemma InvalidatedStaysGone(pow: Power, l1Max: nat, before: seq<Step>, k: string, cascade: bool,
                             after: seq<Step>, q: Request)
    requires l1Max > 0
    requires forall i :: 0 <= i < |after| ==> !Writes(after[i], k)
    ensures var st := Run(pow, Initial(l1Max), before + [Invalidate(k, cascade)] + after);
            ResultOf(st, q).Hit? ==> ResultOf(st, q).entry.key != k
  {
    var st0 := Run(pow, Initial(l1Max), before);
    RunKeepsWellKeyed(pow, Initial(l1Max), before);
    var st1 := Next(pow, st0, Invalidate(k, cascade));
    StepKeepsWellKeyed(pow, st0, Invalidate(k, cascade));
    LookupWithout(st0.l1, k, k);
    assert Gone(st1, k) by {
      InvalidateVoids(st0.l2, k, cascade);
    }
    assert (before + [Invalidate(k, cascade)])[..|before|] == before;
    RunSplits(pow, Initial(l1Max), before + [Invalidate(k, cascade)], after);
    RunKeepsGone(pow, st1, after, k);
    RunKeepsWellKeyed(pow, st1, after);
    GoneIsNotServed(Run(pow, st1, after), q, k);
  }

  lemma InvalidateVoids(st: L2State, k: string, cascade: bool)
    ensures k in HardInvalidated(st, k, cascade).entries ==>
              HardInvalidated(st, k, cascade).entries[k].status.INVALIDATED?
  {
  }

  // ---- reads see the latest write ----

  /** The index of the last write under k. */
  function LatestWrite(steps: seq<Step>, k: string): (r: Option<nat>)
    ensures r.Some? ==> r.value < |steps| && Writes(steps[r.value], k)
    ensures forall i :: (if r.Some? then r.value else -1) < i < |steps| ==> !Writes(steps[i], k)
  {
    if steps == [] then None
    else if Writes(steps[|steps| - 1], k) then Some(|steps| - 1)
    else LatestWrite(steps[..|steps| - 1], k)
  }

  /** What a write has for the two levels: the stamped entry, and the form the second level keeps of it. */
  datatype Written = Written(whole: CacheEntry, summary: CacheEntry)

  function Content(step: Step): Written
    requires step.Write?
  {
    var e := Stamped(step.entry, step.now);
    Written(e, Summarised(e, step.archiveRef))
  }

  function LatestContent(steps: seq<Step>, k: string): Option<Written> {
    var i := LatestWrite(steps, k);
    if i.Some? then Some(Content(steps[i.value])) else None
  }

  /** a is b, payload included, up to what aging and accesses may change. */
  ghost predicate Carries(a: CacheEntry, b: CacheEntry) {
    a == b.(status := a.status, confidence := a.confidence, accessCount := a.accessCount)
  }

  /** The second level holds nothing under k but the given write, in its summarised form. */
  ghost predicate CurrentAtL2(st: State, k: string, latest: Option<Written>) {
    k in st.l2.entries ==> latest.Some? && Carries(st.l2.entries[k], latest.value.summary)
  }

  /** The first level holds nothing under k but the given write, whole or as promoted from the second level. */
  ghost predicate CurrentAtL1(st: State, k: string, latest: Option<Written>) {
    Lookup(st.l1, k).Some? ==> latest.Some? && IsCopy(Lookup(st.l1, k).value, latest.value)
  }

  ghost predicate IsCopy(e: CacheEntry, w: Written) {
    Carries(e, w.whole) || Carries(e, w.summary)
  }

  lemma QueryCarries(st: State, q: Request, k: string)
    requires st.l1Max > 0 && k in AfterQuery(st, q).l2.entries
    ensures k in st.l2.entries && Carries(AfterQuery(st, q).l2.entries[k], st.l2.entries[k])
  {
    var after := AfterQuery(st, q).l2;
    assert || after == st.l2 || after == Read(st.l2, KeyOf(q), q.systemNow)
           || exists ref :: after == Read(st.l2, ref, q.systemNow);
  }

  lemma InvalidationCarries(st: L2State, key: string, cascade: bool, k: string)
    requires k in HardInvalidated(st, key, cascade).entries
    ensures k in st.entries && Carries(HardInvalidated(st, key, cascade).entries[k], st.entries[k])
  {
  }

  /** No step but a write of k brings anything new under k to the second level. */
  lemma L2StepCarries(pow: Power, st: State, step: Step, k: string)
    requires st.l1Max > 0 && WellKeyed(st) && !Writes(step, k) && k in Next(pow, st, step).l2.entries
    ensures k in st.l2.entries && Carries(Next(pow, st, step).l2.entries[k], st.l2.entries[k])
  {
    match step
    case Query(q) => QueryCarries(st, q, k);
    case Write(entry, now, ref) =>
      assert Next(pow, st, step).l2.entries[k] == st.l2.entries[k];
    case Invalidate(key, cascade) => InvalidationCarries(st.l2, key, cascade, k);
    case Append(session, turn) =>
    case CloseSession(session) =>
    case Decay(now) =>
    case Purge(now) =>
    case Restart(lines) => RestartKeepsL2(st, lines);
  }

  lemma L1QueryCarries(st: State, q: Request, k: string)
    requires st.l1Max > 0 && WellKeyed(st) && Lookup(AfterQuery(st, q).l1, k).Some?
    ensures var e := Lookup(AfterQuery(st, q).l1, k).value;
            || (Lookup(st.l1, k).Some? && Carries(e, Lookup(st.l1, k).value))
            || (k in st.l2.entries && Carries(e, st.l2.entries[k]))
  {
    var key := KeyOf(q);
    ItemsAfterGet(st.l1, key, q.steadyNow, k);
    GetKeepsProper(L1_POLICY, st.l1, key, q.steadyNow, st.l1Max);
    if ReadResult(st.l2, key, q.systemNow).Some? {
      ItemsAfterSet(AfterL1(st, key, q.steadyNow).l1, key, ReadResult(st.l2, key, q.systemNow).value, st.l1Max, k);
    }
  }

  /** Nor to the first level, except a copy of what the second level holds. */
  lemma L1StepCarries(pow: Power, st: State, step: Step, k: string)
    requires st.l1Max > 0 && WellKeyed(st) && !Writes(step, k)
    requires Lookup(Next(pow, st, step).l1, k).Some?
    ensures var e := Lookup(Next(pow, st, step).l1, k).value;
            || (Lookup(st.l1, k).Some? && Carries(e, Lookup(st.l1, k).value))
            || (k in st.l2.entries && Carries(e, st.l2.entries[k]))
  {
    match step
    case Query(q) => L1QueryCarries(st, q, k);
    case Write(entry, now, ref) =>
      var e := Stamped(entry, now);
      ItemsAfterSet(st.l1, e.key, e, st.l1Max, k);
    case Invalidate(key, cascade) => LookupWithout(st.l1, key, k);
    case Append(session, turn) =>
    case CloseSession(session) =>
    case Decay(now) =>
    case Purge(now) =>
    case Restart(lines) => RestartKeepsL2(st, lines);
  }

  lemma StepKeepsCurrent(pow: Power, st: State, step: Step, k: string, latest: Option<Written>)
    requires st.l1Max > 0 && WellKeyed(st) && CurrentAtL2(st, k, latest) && !Writes(step, k)
    ensures CurrentAtL2(Next(pow, st, step), k, latest)
    ensures CurrentAtL1(st, k, latest) ==> CurrentAtL1(Next(pow, st, step), k, latest)
  {
    var after := Next(pow, st, step);
    if k in after.l2.entries {
      L2StepCarries(pow, st, step, k);
    }
    if Lookup(after.l1, k).Some? {
      L1StepCarries(pow, st, step, k);
    }
  }

  // ---- the size limits, and which writes reach the first level ----

  /** The first level holds no output of 4096 or more, the second none of more than 2048. */
  ghost predicate Small(st: State) {
    && (forall k :: Lookup(st.l1, k).Some? ==> |Lookup(st.l1, k).value.output| < 4096)
    && (forall k :: k in st.l2.entries ==> |st.l2.entries[k].output| <= 2048)
  }

  lemma StepKeepsSmall(pow: Power, st: State, step: Step)
    requires st.l1Max > 0 && WellKeyed(st) && Small(st)
    ensures Small(Next(pow, st, step))
  {
    var after := Next(pow, st, step);
    forall k | Lookup(after.l1, k).Some? ensures |Lookup(after.l1, k).value.output| < 4096 {
      if Writes(step, k) {
        ItemsAfterSet(st.l1, k, Content(step).whole, st.l1Max, k);
      } else {
        L1StepCarries(pow, st, step, k);
      }
    }
    forall k | k in after.l2.entries ensures |after.l2.entries[k].output| <= 2048 {
      if !Writes(step, k) {
        L2StepCarries(pow, st, step, k);
      }
    }
  }

  lemma {:induction false} RunKeepsSmall(pow: Power, l1Max: nat, steps: seq<Step>)
    requires l1Max > 0
    ensures Small(Run(pow, Initial(l1Max), steps))
  {
    if steps != [] {
      var init := steps[..|steps| - 1];
      RunKeepsSmall(pow, l1Max, init);
      RunKeepsWellKeyed(pow, Initial(l1Max), init);
      StepKeepsSmall(pow, Run(pow, Initial(l1Max), init), steps[|steps| - 1]);
    }
  }

  /** After the write both levels hold nothing else under its key. */
  ghost predicate IsSeen(st: State, entry: CacheEntry, now: int, ref: string)
    requires st.l1Max > 0
  {
    var after, w := AfterWrite(st, entry, now, ref), Content(Write(entry, now, ref));
    CurrentAtL1(after, entry.key, Some(w)) && CurrentAtL2(after, entry.key, Some(w))
  }

  /**
   * At any point of a run, a write displaces every older copy of its key, whatever reference the
   * archive gives it, exactly when its output is short or the first level holds no copy of the key.
   */
  lemma WriteIsSeen(pow: Power, l1Max: nat, before: seq<Step>, entry: CacheEntry, now: int)
    requires l1Max > 0
    ensures var st := Run(pow, Initial(l1Max), before);
            (forall ref :: IsSeen(st, entry, now, ref)) <==>
            (|entry.output| < 4096 || Lookup(st.l1, entry.key).None?)
  {
    var st, e := Run(pow, Initial(l1Max), before), Stamped(entry, now);
    RunKeepsWellKeyed(pow, Initial(l1Max), before);
    RunKeepsSmall(pow, l1Max, before);
    ItemsAfterSet(st.l1, e.key, e, st.l1Max, e.key);
    if |entry.output| >= 4096 && Lookup(st.l1, entry.key).Some? {
      var older := Lookup(st.l1, entry.key).value;
      assert !IsSeen(st, entry, now, older.fullRef + "'");
    }
  }

  /** The write at index i reached the first level, or found no older copy there. */
  ghost predicate LeavesNoOlderCopy(pow: Power, l1Max: nat, steps: seq<Step>, i: nat)
    requires l1Max > 0 && i < |steps| && steps[i].Write?
  {
    || |steps[i].entry.output| < 4096
    || Lookup(Run(pow, Initial(l1Max), steps[..i]).l1, steps[i].entry.key).None?
  }

  /**
   * Over any run the second level holds nothing but the latest write of each key; the first level
   * does too if that write left no older copy behind.
   */
  lemma {:induction false} RunKeepsCurrent(pow: Power, l1Max: nat, steps: seq<Step>, k: string)
    requires l1Max > 0
    ensures var st, i := Run(pow, Initial(l1Max), steps), LatestWrite(steps, k);
            && CurrentAtL2(st, k, LatestContent(steps, k))
            && (i.None? || LeavesNoOlderCopy(pow, l1Max, steps, i.value) ==> CurrentAtL1(st, k, LatestContent(steps, k)))
  {
    if steps != [] {
      var init, step := steps[..|steps| - 1], steps[|steps| - 1];
      var st := Run(pow, Initial(l1Max), init);
      RunKeepsWellKeyed(pow, Initial(l1Max), init);
      if Writes(step, k) {
        ItemsAfterSet(st.l1, k, Content(step).whole, st.l1Max, k);
      } else {
        RunKeepsCurrent(pow, l1Max, init, k);
        StepKeepsCurrent(pow, st, step, k, LatestContent(init, k));
        assert LatestWrite(init, k).Some? ==> init[..LatestWrite(init, k).value] == steps[..LatestWrite(init, k).value];
      }
    }
  }

  /**
   * Every hit is under a key that was written. One from the second level is the latest write under
   * the key of the entry it returns, in the form kept there; one from the first level is that
   * write, whole or in that form, if the write left no older first-level copy behind. This holds
   * across eviction, promotion, decay and restarts. A first-level hit, and any hit without a
   * usable session turn, is an entry under the queried key.
   */
  lemma ReadsSeeLatestWrite(pow: Power, l1Max: nat, steps: seq<Step>, q: Request)
    requires l1Max > 0
    ensures var st := Run(pow, Initial(l1Max), steps);
            var r := ResultOf(st, q);
            r.Hit? ==>
              var i := LatestWrite(steps, r.entry.key);
              && i.Some?
              && (r.layer.L2? ==> Carries(r.entry, Content(steps[i.value]).summary))
              && (r.layer.L1? && LeavesNoOlderCopy(pow, l1Max, steps, i.value) ==>
                    IsCopy(r.entry, Content(steps[i.value])))
              && (r.layer.L1? || SessionHit(st, q.session, q.capability, q.systemNow).None? ==>
                    r.entry.key == KeyOf(q))
  {
    var st := Run(pow, Initial(l1Max), steps);
    var r := ResultOf(st, q);
    RunKeepsWellKeyed(pow, Initial(l1Max), steps);
    OwnKeysByLookup(st.l1);
    if r.Hit? {
      RunKeepsCurrent(pow, l1Max, steps, r.entry.key);
    }
  }

  /**
   * The other case: a long write behind a short one leaves the older copy in the first level,
   * which then answers, at any point of any run.
   */
  lemma LongWriteIsMasked(pow: Power, l1Max: nat, before: seq<Step>, older: Step, newer: Step, q: Request)
    requires l1Max > 0 && Writes(older, KeyOf(q)) && Writes(newer, KeyOf(q))
    requires |older.entry.output| < 4096 <= |newer.entry.output|
    requires !Expired(Content(older).whole, q.steadyNow)
    ensures ResultOf(Run(pow, Initial(l1Max), before + [older, newer]), q) == Hit(Touched(Content(older).whole), L1, false)
  {
    var st := Run(pow, Initial(l1Max), before);
    RunKeepsWellKeyed(pow, Initial(l1Max), before);
    ItemsAfterSet(st.l1, KeyOf(q), Content(older).whole, st.l1Max, KeyOf(q));
    RunOfTwo(pow, Initial(l1Max), before, older, newer);
    OlderCopyAnswers(Next(pow, Next(pow, st, older), newer), Content(older).whole, q);
  }

  lemma RunOfTwo(pow: Power, st: State, before: seq<Step>, a: Step, b: Step)
    requires st.l1Max > 0
    ensures Run(pow, st, before + [a, b]) == Next(pow, Next(pow, Run(pow, st, before), a), b)
  {
    assert (before + [a, b])[..|before| + 1] == before + [a];
    assert (before + [a])[..|before|] == before;
  }

  lemma OlderCopyAnswers(st: State, e: CacheEntry, q: Request)
    requires Lookup(st.l1, KeyOf(q)) == Some(e) && !Expired(e, q.steadyNow)
    ensures ResultOf(st, q) == Hit(Touched(e), L1, false)
  {
  }

  // ---- cascaded entries are reported stale ----

  ghost predicate NotFresh(st: State, k: string) {
    k in st.l2.entries ==> !st.l2.entries[k].status.FRESH?
  }

  lemma StepKeepsNotFresh(pow: Power, st: State, step: Step, k: string)
    requires st.l1Max > 0 && WellKeyed(st) && NotFresh(st, k) && !Writes(step, k)
    ensures NotFresh(Next(pow, st, step), k)
  {
    if step.Restart? {
      RestartKeepsL2(st, step.lines);
    }
  }

  lemma {:induction false} RunKeepsNotFresh(pow: Power, st: State, steps: seq<Step>, k: string)
    requires st.l1Max > 0 && WellKeyed(st) && NotFresh(st, k)
    requires forall i :: 0 <= i < |steps| ==> !Writes(steps[i], k)
    ensures NotFresh(Run(pow, st, steps), k)
  {
    if steps != [] {
      RunKeepsWellKeyed(pow, st, steps[..|steps| - 1]);
      RunKeepsNotFresh(pow, st, steps[..|steps| - 1], k);
      StepKeepsNotFresh(pow, Run(pow, st, steps[..|steps| - 1]), steps[|steps| - 1], k);
    }
  }

  lemma StepKeepsIndex(pow: Power, st: State, step: Step)
    requires st.l1Max > 0 && WellKeyed(st) && Consistent(st.l2)
    ensures Consistent(Next(pow, st, step).l2)
  {
    match step
    case Query(q) =>
      ReadConsistent(st.l2, KeyOf(q), q.systemNow);
      var ref := SessionHit(st, q.session, q.capability, q.systemNow);
      if ref.Some? {
        ReadConsistent(st.l2, ref.value, q.systemNow);
      }
    case Write(entry, now, ref) =>
      var e := Stamped(entry, now);
      StoredConsistent(st.l2, e.key, Summarised(e, ref));
    case Invalidate(key, cascade) => HardInvalidatedConsistent(st.l2, key, cascade);
    case Append(session, turn) =>
    case CloseSession(session) =>
    case Decay(now) => DecayConsistent(pow, st.l2, now);
    case Purge(now) => RemovedAllConsistent(st.l2, PurgeableKeys(st.l2.entries, now));
    case Restart(lines) => RestartKeepsL2(st, lines);
  }

  lemma {:induction false} RunKeepsIndex(pow: Power, l1Max: nat, steps: seq<Step>)
    requires l1Max > 0
    ensures Consistent(Run(pow, Initial(l1Max), steps).l2)
  {
    if steps != [] {
      var init := steps[..|steps| - 1];
      RunKeepsIndex(pow, l1Max, init);
      RunKeepsWellKeyed(pow, Initial(l1Max), init);
      StepKeepsIndex(pow, Run(pow, Initial(l1Max), init), steps[|steps| - 1]);
    }
  }

  /** A cascading invalidation of root reaches k. */
  ghost predicate CascadesTo(es: Entries, root: string, k: string) {
    root in es && k in es && k != root && DependsOnRoot(es, root, k)
  }

  lemma CascadeLeavesNotFresh(st: State, root: string, k: string)
    requires Consistent(st.l2) && CascadesTo(st.l2.entries, root, k)
    ensures NotFresh(AfterInvalidate(st, root, true), k)
  {
    CascadeExact(st.l2, root, k);
  }

  lemma NotFreshIsReported(st: State, q: Request, k: string)
    requires st.l1Max > 0 && WellKeyed(st) && NotFresh(st, k)
    ensures var r := ResultOf(st, q);
            r.Hit? && r.layer.L2? && r.entry.key == k ==> r.stale
  {
  }

  lemma CascadedStaysNotFresh(pow: Power, l1Max: nat, before: seq<Step>, root: string, k: string, after: seq<Step>)
    requires l1Max > 0 && CascadesTo(Run(pow, Initial(l1Max), before).l2.entries, root, k)
    requires forall i :: 0 <= i < |after| ==> !Writes(after[i], k)
    ensures var st := Run(pow, Initial(l1Max), before + [Invalidate(root, true)] + after);
            WellKeyed(st) && NotFresh(st, k)
  {
    var upTo := before + [Invalidate(root, true)];
    RunKeepsIndex(pow, l1Max, before);
    CascadeLeavesNotFresh(Run(pow, Initial(l1Max), before), root, k);
    RunOfOne(pow, Initial(l1Max), before, Invalidate(root, true));
    RunKeepsWellKeyed(pow, Initial(l1Max), upTo);
    RunSplits(pow, Initial(l1Max), upTo, after);
    RunKeepsNotFresh(pow, Run(pow, Initial(l1Max), upTo), after, k);
    RunKeepsWellKeyed(pow, Initial(l1Max), upTo + after);
  }

  /**
   * After an invalidation cascades from root to k, every second-level result for k is reported
   * stale until k is written again.
   */
  lemma CascadedIsReportedStale(pow: Power, l1Max: nat, before: seq<Step>, root: string, k: string,
                                after: seq<Step>, q: Request)
    requires l1Max > 0
    requires forall i :: 0 <= i < |after| ==> !Writes(after[i], k)
    ensures var r := ResultOf(Run(pow, Initial(l1Max), before + [Invalidate(root, true)] + after), q);
            var reached := CascadesTo(Run(pow, Initial(l1Max), before).l2.entries, root, k);
            reached && r.Hit? && r.layer.L2? && r.entry.key == k ==> r.stale
  {
    if CascadesTo(Run(pow, Initial(l1Max), before).l2.entries, root, k) {
      CascadedStaysNotFresh(pow, l1Max, before, root, k, after);
      NotFreshIsReported(Run(pow, Initial(l1Max), before + [Invalidate(root, true)] + after), q, k);
    }
  }

  /** Whether an answer is the entry under k without a warning that it is stale. */
  predicate IsUnflagged(r: QueryResult, k: string) {
    r.Hit? && r.entry.key == k && !r.stale
  }

  lemma UnflaggedIsFirstLevel(st: State, q: Request)
    requires WellKeyed(st) && NotFresh(st, KeyOf(q))
    ensures IsUnflagged(ResultOf(st, q), KeyOf(q)) <==> GetResult(L1_POLICY, st.l1, KeyOf(q), q.steadyNow).Some?
  {
    OwnKeysByLookup(st.l1);
  }

  /**
   * The first level is where the warning is missing: after a cascade reached an entry, and until it
   * is written again, a query for it is answered without one exactly when the first level has it.
   */
  lemma CascadedIsUnflaggedInFirstLevel(pow: Power, l1Max: nat, before: seq<Step>, root: string, after: seq<Step>, q: Request)
    requires l1Max > 0
    requires forall i :: 0 <= i < |after| ==> !Writes(after[i], KeyOf(q))
    ensures var st := Run(pow, Initial(l1Max), before + [Invalidate(root, true)] + after);
            CascadesTo(Run(pow, Initial(l1Max), before).l2.entries, root, KeyOf(q)) ==>
              (IsUnflagged(ResultOf(st, q), KeyOf(q)) <==>
               GetResult(L1_POLICY, st.l1, KeyOf(q), q.steadyNow).Some?)
  {
    if CascadesTo(Run(pow, Initial(l1Max), before).l2.entries, root, KeyOf(q)) {
      CascadedStaysNotFresh(pow, l1Max, before, root, KeyOf(q), after);
      UnflaggedIsFirstLevel(Run(pow, Initial(l1Max), before + [Invalidate(root, true)] + after), q);
    }
  }

  /** Even a warning once given is lost: the exact hit that carried it promoted the entry. */
  lemma FlagIsLostByPromotion(st: State, q: Request)
    requires st.l1Max > 0 && WellKeyed(st) && SessionHit(st, q.session, q.capability, q.systemNow).None?
    requires ResultOf(st, q).Hit? && ResultOf(st, q).layer.L2? && !Expired(ResultOf(st, q).entry, q.steadyNow)
    ensures ResultOf(AfterQuery(st, q), q) == Hit(Touched(ResultOf(st, q).entry), L1, false)
  {
    GetKeepsProper(L1_POLICY, st.l1, KeyOf(q), q.steadyNow, st.l1Max);
    ItemsAfterSet(AfterL1(st, KeyOf(q), q.steadyNow).l1, KeyOf(q), ResultOf(st, q).entry, st.l1Max, KeyOf(q));
  }

  // ---- restarts ----

  /** After any run, a shutdown and a new start restore the second level exactly and lose all else. */
  lemma RestartAfterRun(pow: Power, l1Max: nat, steps: seq<Step>, lines: seq<L2Disk.Line>)
    requires l1Max > 0
    ensures var st := Run(pow, Initial(l1Max), steps);
            L2Disk.SavedAs(lines, st.l2.entries) ==>
              Run(pow, Initial(l1Max), steps + [Restart(lines)]) == Initial(l1Max).(l2 := st.l2)
  {
    var st := Run(pow, Initial(l1Max), steps);
    RunKeepsWellKeyed(pow, Initial(l1Max), steps);
    RestartKeepsL2(st, lines);
    RunOfOne(pow, Initial(l1Max), steps, Restart(lines));
  }

  lemma RunOfOne(pow: Power, st: State, before: seq<Step>, a: Step)
    requires st.l1Max > 0
    ensures Run(pow, st, before + [a]) == Next(pow, Run(pow, st, before), a)
  {
    assert (before + [a])[..|before|] == before;
  }

  // ---- purging is invisible ----

  /** A purge changes the answer of no query, at any time: what it removes could not be served. */
  lemma PurgeChangesNoAnswer(st: State, purgeNow: int, q: Request)
    ensures ResultOf(st.(l2 := Purged(st.l2, purgeNow)), q) == ResultOf(st, q)
  {
    var after := Purged(st.l2, purgeNow).entries;
    forall k, now ensures Readable(after, k, now) <==> Readable(st.l2.entries, k, now) {
    }
  }
}
