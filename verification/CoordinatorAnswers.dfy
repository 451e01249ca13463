/**
 * What queries answer, told about keys, clocks and contents: every answer is in time and marked as it
 * should be, comes from a write for that very request, and a written result goes on being answered.
 */
module CoordinatorAnswers {
  import opened Wrappers
  import opened AgentTypes
  import opened Cascade
  import opened L2Model
  import opened L2Effects
  import opened Lru
  import opened L1Cache
  import opened Sessions
  import opened CoordinatorModel
  import opened CoordinatorRuns
  import CacheKeys
  import L2Disk

  // ---- every answer ----

  /** The key of a request, written out. */
  function RequestKey(q: Request): string {
    "agent:" + q.agentId + ":" + q.capability + ":" + q.inputHash
  }

  function Counted(e: CacheEntry): CacheEntry {
    e.(accessCount := e.accessCount + 1)
  }

  /** What the first level serves: its copy, until its time to live has passed on the steady clock. */
  function FirstLevelServes(st: State, q: Request): Option<CacheEntry> {
    var copy := Lookup(st.l1, RequestKey(q));
    if copy.Some? && InTime(copy.value, q.steadyNow) then copy else None
  }

  /** What the second level serves under k: an entry in time that is not INVALIDATED. */
  function SecondLevelServes(st: State, k: string, now: int): Option<CacheEntry> {
    if k in st.l2.entries && Servable(st.l2.entries[k], now) then Some(st.l2.entries[k]) else None
  }

  /** The entry behind the session's latest turn of the capability, if it is served. */
  function SessionServes(st: State, q: Request): Option<CacheEntry> {
    var ref := SessionReference(st, q.session, q.capability);
    if ref.Some? then SecondLevelServes(st, ref.value, q.systemNow) else None
  }

  /**
   * The answer to every query: the first level's copy, never marked; else the session's entry,
   * marked when STALE; else the exact entry, marked when STALE or below 0.7; else nothing. Each is
   * returned with one more access counted.
   */
  lemma AnswerExact(st: State, q: Request)
    ensures ResultOf(st, q) ==
            if FirstLevelServes(st, q).Some? then Hit(Counted(FirstLevelServes(st, q).value), L1, false)
            else if SessionServes(st, q).Some? then
              var e := SessionServes(st, q).value; Hit(Counted(e), L2, e.status == STALE)
            else if SecondLevelServes(st, RequestKey(q), q.systemNow).Some? then
              var e := SecondLevelServes(st, RequestKey(q), q.systemNow).value;
              Hit(Counted(e), L2, e.status == STALE || e.confidence < 0.7)
            else Miss
  {
    assert KeyOf(q) == RequestKey(q);
    if FirstLevelServes(st, q).None? {
      var st1 := AfterL1(st, KeyOf(q), q.steadyNow);
      assert st1.l2 == st.l2 && st1.sessions == st.sessions;
    }
  }

  /** The turn a session answers from is its latest one of that capability. */
  lemma SessionReferenceIsLatest(st: State, session: string, capability: string)
    ensures var turns := BufferOf(st, session);
            var ref := SessionReference(st, session, capability);
            && (ref.None? <==> forall i :: 0 <= i < |turns| ==> turns[i].capability != capability)
            && (ref.Some? ==> exists i :: IsLatestTurn(turns, capability, i) && turns[i].cacheKey == ref.value)
  {
    var turns := BufferOf(st, session);
    MatchingHeadIsLatest(turns, capability);
    if Matching(turns, capability) != [] {
      var i :| 0 <= i < |turns| && turns[i] == Matching(turns, capability)[0] && turns[i].capability == capability
               && forall j :: i < j < |turns| ==> turns[j].capability != capability;
      assert IsLatestTurn(turns, capability, i);
    }
  }

  predicate IsLatestTurn(turns: seq<SessionTurn>, capability: string, i: int) {
    0 <= i < |turns| && turns[i].capability == capability && forall j :: i < j < |turns| ==> turns[j].capability != capability
  }

  /**
   * What a query changes: at the second level nothing but the access count of the entry it returns
   * from there; at the first level nothing under other keys unless an exact hit is promoted.
   */
  lemma QueryChanges(st: State, q: Request)
    requires st.l1Max > 0 && WellKeyed(st)
    ensures var r, after := ResultOf(st, q), AfterQuery(st, q);
            && after.sessions == st.sessions && after.l2.rev == st.l2.rev
            && after.l2.entries == (if r.Hit? && r.layer.L2? then st.l2.entries[r.entry.key := r.entry] else st.l2.entries)
            && (r.Hit? && r.layer.L1? ==> Lookup(after.l1, RequestKey(q)) == Some(r.entry))
            && (SessionServes(st, q).Some? || !(r.Hit? && r.layer.L2?) ==>
                  forall k :: k != RequestKey(q) ==> Lookup(after.l1, k) == Lookup(st.l1, k))
            && (SessionServes(st, q).None? && r.Hit? && r.layer.L2? ==> Lookup(after.l1, RequestKey(q)) == Some(r.entry))
  {
    assert KeyOf(q) == RequestKey(q);
    AnswerExact(st, q);
    var s1 := AfterL1(st, KeyOf(q), q.steadyNow).l1;
    GetKeepsProper(L1_POLICY, st.l1, KeyOf(q), q.steadyNow, st.l1Max);
    forall k | k != KeyOf(q) ensures Lookup(s1, k) == Lookup(st.l1, k) {
      LookupWithout(st.l1, KeyOf(q), k);
    }
    if ReadResult(st.l2, KeyOf(q), q.systemNow).Some? {
      SetKeepsProper(s1, KeyOf(q), ReadResult(st.l2, KeyOf(q), q.systemNow).value, st.l1Max);
    }
  }

  // ---- what was written reads back ----

  /** A short output is answered from the first level as it was written, while in time. */
  lemma ShortWriteReadsBack(st: State, entry: CacheEntry, now: int, ref: string, q: Request)
    requires st.l1Max > 0 && WellKeyed(st) && entry.key == RequestKey(q) && |entry.output| < 4096
    ensures var created := if entry.createdAtMs == 0 then now else entry.createdAtMs;
            q.steadyNow <= created + 1000 * entry.baseTtlSeconds ==>
              ResultOf(AfterWrite(st, entry, now, ref), q)
              == Hit(entry.(createdAtMs := created, accessCount := entry.accessCount + 1), L1, false)
  {
    var e := Stamped(entry, now);
    ItemsAfterSet(st.l1, e.key, e, st.l1Max, e.key);
    AnswerExact(AfterWrite(st, entry, now, ref), q);
  }

  /**
   * Where the first level does not answer, the second does: an output of up to 2048 as it was
   * written, a longer one as a reference into the archive.
   */
  lemma WriteReadsBackFromSecondLevel(st: State, entry: CacheEntry, now: int, ref: string, q: Request)
    requires st.l1Max > 0 && entry.key == RequestKey(q) && entry.status != INVALIDATED
    ensures var created := if entry.createdAtMs == 0 then now else entry.createdAtMs;
            var e := entry.(createdAtMs := created, accessCount := entry.accessCount + 1);
            var st' := AfterWrite(st, entry, now, ref);
            q.systemNow <= created + 1000 * entry.baseTtlSeconds
            && FirstLevelServes(st', q).None? && SessionServes(st', q).None? ==>
              ResultOf(st', q) == Hit(if |entry.output| <= 2048 then e else e.(output := "", fullRef := ref), L2,
                                      entry.status == STALE || entry.confidence < 0.7)
  {
    AnswerExact(AfterWrite(st, entry, now, ref), q);
  }

  // ---- a written result goes on being answered ----

  /** The second level holds k, not INVALIDATED, with this creation time and time to live. */
  ghost predicate StillThere(st: State, k: string, created: int, ttl: int) {
    && k in st.l2.entries && st.l2.entries[k].status != INVALIDATED
    && st.l2.entries[k].createdAtMs == created && st.l2.entries[k].baseTtlSeconds == ttl
  }

  predicate Spares(step: Step, k: string) {
    !Writes(step, k) && !(step.Invalidate? && step.key == k)
  }

  lemma StepKeepsIt(pow: Power, st: State, step: Step, k: string, created: int, ttl: int)
    requires st.l1Max > 0 && WellKeyed(st) && StillThere(st, k, created, ttl) && Spares(step, k)
    ensures StillThere(Next(pow, st, step), k, created, ttl)
  {
    match step
    case Query(q) =>
    case Write(entry, now, ref) =>
    case Invalidate(key, cascade) =>
    case Append(session, turn) =>
    case CloseSession(session) =>
    case Decay(now) =>
    case Purge(now) =>
    case Restart(lines) => RestartKeepsL2(st, lines);
  }

  lemma {:induction false} RunKeepsIt(pow: Power, st: State, steps: seq<Step>, k: string, created: int, ttl: int)
    requires st.l1Max > 0 && WellKeyed(st) && StillThere(st, k, created, ttl)
    requires forall i :: 0 <= i < |steps| ==> Spares(steps[i], k)
    ensures StillThere(Run(pow, st, steps), k, created, ttl)
  {
    if steps != [] {
      var n := |steps| - 1;
      RunKeepsIt(pow, st, steps[..n], k, created, ttl);
      RunKeepsWellKeyed(pow, st, steps[..n]);
      StepKeepsIt(pow, Run(pow, st, steps[..n]), steps[n], k, created, ttl);
    }
  }

  function Created(w: Step): int
    requires w.Write?
  {
    if w.entry.createdAtMs == 0 then w.now else w.entry.createdAtMs
  }

  lemma WritePutsItThere(pow: Power, st: State, w: Step)
    requires st.l1Max > 0 && w.Write? && w.entry.status != INVALIDATED
    ensures StillThere(Next(pow, st, w), w.entry.key, Created(w), w.entry.baseTtlSeconds)
  {
  }

  lemma StillThereIsAnswered(st: State, q: Request, created: int, ttl: int)
    requires StillThere(st, RequestKey(q), created, ttl) && q.systemNow <= created + 1000 * ttl
    ensures ResultOf(st, q).Hit?
  {
    AnswerExact(st, q);
  }

  /**
   * A result that was written, not as INVALIDATED, is answered with something until its time to live
   * has passed, whatever else is queried, written, invalidated, aged, purged or restarted meanwhile,
   * unless it is itself written again or invalidated.
   */
  lemma WrittenIsAnswered(pow: Power, l1Max: nat, before: seq<Step>, w: Step, after: seq<Step>, q: Request)
    requires l1Max > 0 && w.Write? && w.entry.key == RequestKey(q) && w.entry.status != INVALIDATED
    requires forall i :: 0 <= i < |after| ==> Spares(after[i], w.entry.key)
    ensures var created := if w.entry.createdAtMs == 0 then w.now else w.entry.createdAtMs;
            q.systemNow <= created + 1000 * w.entry.baseTtlSeconds ==>
              ResultOf(Run(pow, Initial(l1Max), before + [w] + after), q).Hit?
  {
    var st := Run(pow, Initial(l1Max), before + [w]);
    RunOfOne(pow, Initial(l1Max), before, w);
    WritePutsItThere(pow, Run(pow, Initial(l1Max), before), w);
    RunKeepsWellKeyed(pow, Initial(l1Max), before + [w]);
    RunKeepsIt(pow, st, after, w.entry.key, Created(w), w.entry.baseTtlSeconds);
    RunSplits(pow, Initial(l1Max), before + [w], after);
    if q.systemNow <= Created(w) + 1000 * w.entry.baseTtlSeconds {
      StillThereIsAnswered(Run(pow, st, after), q, Created(w), w.entry.baseTtlSeconds);
    }
  }

  // ---- an answer comes from a write for that very request ----

  /** Some write of the run under k brought this entry, whole or in the second level's form. */
  ghost predicate HasSource(steps: seq<Step>, k: string, e: CacheEntry) {
    exists i :: IsSource(steps, k, e, i)
  }

  ghost predicate IsSource(steps: seq<Step>, k: string, e: CacheEntry, i: int) {
    0 <= i < |steps| && Writes(steps[i], k) && IsCopy(e, Content(steps[i]))
  }

  ghost predicate AllHaveSources(st: State, steps: seq<Step>, k: string) {
    && (Lookup(st.l1, k).Some? ==> HasSource(steps, k, Lookup(st.l1, k).value))
    && (k in st.l2.entries ==> HasSource(steps, k, st.l2.entries[k]))
  }

  lemma SourceStays(steps: seq<Step>, k: string, e: CacheEntry, later: CacheEntry)
    requires steps != [] && HasSource(steps[..|steps| - 1], k, e) && Carries(later, e)
    ensures HasSource(steps, k, later)
  {
    var i :| IsSource(steps[..|steps| - 1], k, e, i);
    assert IsSource(steps, k, later, i);
  }

  lemma {:induction false} RunHasSources(pow: Power, l1Max: nat, steps: seq<Step>, k: string)
    requires l1Max > 0
    ensures AllHaveSources(Run(pow, Initial(l1Max), steps), steps, k)
  {
    if steps != [] {
      var init, step := steps[..|steps| - 1], steps[|steps| - 1];
      var st, after := Run(pow, Initial(l1Max), init), Run(pow, Initial(l1Max), steps);
      RunHasSources(pow, l1Max, init, k);
      RunKeepsWellKeyed(pow, Initial(l1Max), init);
      if Writes(step, k) {
        WriteIsASource(pow, st, steps, k);
      } else {
        if k in after.l2.entries {
          L2StepCarries(pow, st, step, k);
          SourceStays(steps, k, st.l2.entries[k], after.l2.entries[k]);
        }
        if Lookup(after.l1, k).Some? {
          L1StepCarries(pow, st, step, k);
          var e := Lookup(after.l1, k).value;
          if Lookup(st.l1, k).Some? && Carries(e, Lookup(st.l1, k).value) {
            SourceStays(steps, k, Lookup(st.l1, k).value, e);
          } else {
            SourceStays(steps, k, st.l2.entries[k], e);
          }
        }
      }
    }
  }

  lemma WriteIsASource(pow: Power, st: State, steps: seq<Step>, k: string)
    requires steps != [] && st.l1Max > 0 && WellKeyed(st) && Writes(steps[|steps| - 1], k)
    requires AllHaveSources(st, steps[..|steps| - 1], k)
    ensures AllHaveSources(Next(pow, st, steps[|steps| - 1]), steps, k)
  {
    var n := |steps| - 1;
    var after := Next(pow, st, steps[n]);
    ItemsAfterSet(st.l1, k, Content(steps[n]).whole, st.l1Max, k);
    assert IsSource(steps, k, Content(steps[n]).whole, n) && IsSource(steps, k, Content(steps[n]).summary, n);
    if Lookup(after.l1, k) == Lookup(st.l1, k) && Lookup(st.l1, k).Some? {
      SourceStays(steps, k, Lookup(st.l1, k).value, Lookup(after.l1, k).value);
    }
  }

  /** Which agent, capability and input a write is for: its key is theirs. */
  datatype Subject = Subject(agentId: string, capability: string, inputHash: string)

  function Service(s: Subject): CacheKeys.Service {
    (s.agentId, s.capability)
  }

  ghost predicate FiledUnder(steps: seq<Step>, subjects: seq<Subject>, services: set<CacheKeys.Service>) {
    && |subjects| == |steps|
    && forall i :: 0 <= i < |steps| && steps[i].Write? ==>
         && Service(subjects[i]) in services
         && steps[i].entry.key
         == "agent:" + subjects[i].agentId + ":" + subjects[i].capability + ":" + subjects[i].inputHash
  }

  /** The entry was answered for the key of the request, not for its session. */
  predicate IsExact(st: State, q: Request) {
    var r := ResultOf(st, q);
    r.Hit? && (r.layer.L1? || SessionServes(st, q).None?)
  }

  lemma ExactHitHasSource(pow: Power, l1Max: nat, steps: seq<Step>, q: Request) returns (i: nat)
    requires l1Max > 0 && IsExact(Run(pow, Initial(l1Max), steps), q)
    ensures IsSource(steps, RequestKey(q), ResultOf(Run(pow, Initial(l1Max), steps), q).entry, i)
  {
    var st := Run(pow, Initial(l1Max), steps);
    RunHasSources(pow, l1Max, steps, RequestKey(q));
    AnswerExact(st, q);
    var e := if FirstLevelServes(st, q).Some? then FirstLevelServes(st, q).value else st.l2.entries[RequestKey(q)];
    i :| IsSource(steps, RequestKey(q), e, i);
  }

  lemma SourceIsForTheRequest(steps: seq<Step>, subjects: seq<Subject>, services: set<CacheKeys.Service>, q: Request, i: nat)
    requires FiledUnder(steps, subjects, services) && CacheKeys.Separate(services) && (q.agentId, q.capability) in services
    requires i < |steps| && Writes(steps[i], RequestKey(q))
    ensures subjects[i] == Subject(q.agentId, q.capability, q.inputHash)
  {
    var s := subjects[i];
    assert CacheKey(s.agentId, s.capability, s.inputHash) == CacheKey(q.agentId, q.capability, q.inputHash);
    CacheKeys.SeparateIdentifies(Service(s), s.inputHash, (q.agentId, q.capability), q.inputHash);
  }

  /**
   * A first-level hit, and any hit without a usable session turn, is the content of some write for
   * that very agent, capability and input, if the services in use are separate; without colons in
   * agent ids and capabilities they are.
   */
  lemma ExactHitIsForTheRequest(pow: Power, l1Max: nat, steps: seq<Step>, subjects: seq<Subject>,
                                services: set<CacheKeys.Service>, q: Request) returns (i: nat)
    requires l1Max > 0 && FiledUnder(steps, subjects, services) && CacheKeys.Separate(services)
    requires (q.agentId, q.capability) in services && IsExact(Run(pow, Initial(l1Max), steps), q)
    ensures i < |steps| && steps[i].Write? && IsCopy(ResultOf(Run(pow, Initial(l1Max), steps), q).entry, Content(steps[i]))
    ensures subjects[i] == Subject(q.agentId, q.capability, q.inputHash)
  {
    i := ExactHitHasSource(pow, l1Max, steps, q);
    SourceIsForTheRequest(steps, subjects, services, q, i);
  }

  // ---- invalidation is local ----

  lemma ServedAfterInvalidation(st: State, root: string, cascade: bool, k: string, now: int)
    requires Consistent(st.l2)
    ensures var before := SecondLevelServes(st, k, now);
            var after := SecondLevelServes(AfterInvalidate(st, root, cascade), k, now);
            && (k == root ==> after.None?)
            && (k != root ==> (after.Some? <==> before.Some?))
            && (k != root && (!cascade || !DependsOnRoot(st.l2.entries, root, k)) ==> after == before)
  {
    if k in st.l2.entries {
      InvalidationExact(st.l2, root, cascade, k);
      if k != root && DependsOnRoot(st.l2.entries, root, k) {
        DependentIsLive(st.l2.entries, root, k);
      }
    }
  }

  lemma DependentIsLive(es: Entries, root: string, k: string)
    requires DependsOnRoot(es, root, k)
    ensures k in es && es[k].status != INVALIDATED
  {
    var p :| IsDependencyChain(es, root, p) && p[|p| - 1] == k;
  }

  lemma FirstLevelAfterInvalidation(st: State, root: string, cascade: bool, q: Request)
    ensures FirstLevelServes(AfterInvalidate(st, root, cascade), q)
         == if RequestKey(q) == root then None else FirstLevelServes(st, q)
  {
    LookupWithout(st.l1, root, RequestKey(q));
  }

  lemma ServedIsUnderOwnKey(st: State, q: Request)
    requires WellKeyed(st)
    ensures FirstLevelServes(st, q).Some? ==> FirstLevelServes(st, q).value.key == RequestKey(q)
    ensures SessionServes(st, q).Some? ==>
              SessionReference(st, q.session, q.capability) == Some(SessionServes(st, q).value.key)
    ensures SecondLevelServes(st, RequestKey(q), q.systemNow).Some? ==>
              SecondLevelServes(st, RequestKey(q), q.systemNow).value.key == RequestKey(q)
  {
    OwnKeysByLookup(st.l1);
  }

  /**
   * An invalidation changes no answer but those with the root's own entry and, with the cascade,
   * those from the second level with an entry that depends on the root.
   */
  lemma InvalidationIsLocal(st: State, root: string, cascade: bool, q: Request)
    requires WellKeyed(st) && Consistent(st.l2)
    ensures var r := ResultOf(st, q);
            r.Miss? || (r.entry.key != root
                        && (r.layer.L1? || !cascade || !DependsOnRoot(st.l2.entries, root, r.entry.key))) ==>
              ResultOf(AfterInvalidate(st, root, cascade), q) == r
  {
    AnswerExact(st, q);
    AnswerExact(AfterInvalidate(st, root, cascade), q);
    ServedIsUnderOwnKey(st, q);
    FirstLevelAfterInvalidation(st, root, cascade, q);
    ServedAfterInvalidation(st, root, cascade, RequestKey(q), q.systemNow);
    var ref := SessionReference(st, q.session, q.capability);
    if ref.Some? {
      ServedAfterInvalidation(st, root, cascade, ref.value, q.systemNow);
    }
  }

  /** Without the cascade every answer but the root's own entry stays as it was, at any point of a run. */
  lemma PlainInvalidationIsLocal(pow: Power, l1Max: nat, steps: seq<Step>, root: string, q: Request)
    requires l1Max > 0
    ensures var st := Run(pow, Initial(l1Max), steps);
            var r := ResultOf(st, q);
            r.Miss? || r.entry.key != root ==>
              ResultOf(Run(pow, Initial(l1Max), steps + [Invalidate(root, false)]), q) == r
  {
    RunKeepsWellKeyed(pow, Initial(l1Max), steps);
    RunKeepsIndex(pow, l1Max, steps);
    RunOfOne(pow, Initial(l1Max), steps, Invalidate(root, false));
    InvalidationIsLocal(Run(pow, Initial(l1Max), steps), root, false, q);
  }

  // ---- sessions ----

  /** The turns appended to a session since it was last closed or the process restarted. */
  ghost function History(pow: Power, l1Max: nat, steps: seq<Step>, session: string): seq<SessionTurn>
    requires l1Max > 0
  {
    if steps == [] then []
    else
      var init, step := steps[..|steps| - 1], steps[|steps| - 1];
      var before := History(pow, l1Max, init, session);
      if step.Append? && step.session == session then before + [step.turn]
      else if step.CloseSession? && step.session == session then []
      else if step.Restart? && L2Disk.SavedAs(step.lines, Run(pow, Initial(l1Max), init).l2.entries) then []
      else before
  }

  lemma BufferAfterStep(pow: Power, st: State, step: Step, session: string)
    requires st.l1Max > 0
    ensures BufferOf(Next(pow, st, step), session) ==
            if step.Append? && step.session == session then Kept(BufferOf(st, session) + [step.turn])
            else if step.CloseSession? && step.session == session then []
            else if step.Restart? && L2Disk.SavedAs(step.lines, st.l2.entries) then []
            else BufferOf(st, session)
  {
    match step
    case Query(q) =>
    case Write(entry, now, ref) =>
    case Invalidate(key, cascade) =>
    case Append(s, turn) =>
    case CloseSession(s) =>
    case Decay(now) =>
    case Purge(now) =>
    case Restart(lines) =>
  }

  /** Over any run a session's buffer is the one-shot pruning of its own turns, whatever other sessions do. */
  lemma {:induction false} SessionIsItsHistory(pow: Power, l1Max: nat, steps: seq<Step>, session: string)
    requires l1Max > 0
    ensures BufferOf(Run(pow, Initial(l1Max), steps), session) == Kept(History(pow, l1Max, steps, session))
  {
    if steps != [] {
      var init, step := steps[..|steps| - 1], steps[|steps| - 1];
      SessionIsItsHistory(pow, l1Max, init, session);
      BufferAfterStep(pow, Run(pow, Initial(l1Max), init), step, session);
      if step.Append? && step.session == session {
        KeptAppend(History(pow, l1Max, init, session), step.turn);
      }
    }
  }

  /** Which steps can touch which level. */
  lemma StepFootprint(pow: Power, st: State, step: Step)
    requires st.l1Max > 0
    ensures var after := Next(pow, st, step);
            && (step.Append? || step.CloseSession? ==> after.l1 == st.l1 && after.l2 == st.l2)
            && (step.Decay? || step.Purge? ==> after.l1 == st.l1 && after.sessions == st.sessions)
            && (step.Query? || step.Write? || step.Invalidate? ==> after.sessions == st.sessions)
  {
  }
}
