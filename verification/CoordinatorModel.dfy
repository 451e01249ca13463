/**
 * The three-level coordinator as atomic steps over the first-level list, the session buffers
 * and the persistent cache, and what holds over whole runs of those steps.
 */
module CoordinatorModel {
  import opened Wrappers
  import opened AgentTypes
  import opened L2Model
  import L2Disk
  import opened Lru
  import opened L1Cache
  import opened Sessions

  datatype State = State(
    l1: seq<Item<CacheEntry>>,
    l1Max: nat,
    l2: L2State,
    sessions: map<string, seq<SessionTurn>>)

  datatype QueryResult = Miss | Hit(entry: CacheEntry, layer: CacheLayer, stale: bool)

  function CacheKey(agentId: string, capability: string, inputHash: string): string {
    "agent:" + agentId + ":" + capability + ":" + inputHash
  }

  // ---- query: L1, then the session's latest turn, then L2 by key ----

  function AfterL1(st: State, key: string, steadyNow: int): State {
    st.(l1 := AfterGet(L1_POLICY, st.l1, key, steadyNow))
  }

  /** The cache key of the session's latest turn with this capability. */
  function SessionReference(st: State, session: string, capability: string): Option<string> {
    if session !in st.sessions then None
    else
      var m := Matching(st.sessions[session], capability);
      if m == [] then None else Some(m[0].cacheKey)
  }

  function SessionHit(st: State, session: string, capability: string, now: int): Option<string> {
    match SessionReference(st, session, capability)
    case None => None
    case Some(key) => if Readable(st.l2.entries, key, now) then Some(key) else None
  }

  datatype Request = Request(agentId: string, capability: string, inputHash: string, session: string,
                             steadyNow: int, systemNow: int)

  function KeyOf(q: Request): string {
    CacheKey(q.agentId, q.capability, q.inputHash)
  }

  /** An exact second-level hit is promoted to the first level. */
  function AfterExact(st: State, q: Request): State
    requires st.l1Max > 0
  {
    var r := ReadResult(st.l2, KeyOf(q), q.systemNow);
    if r.None? then st
    else st.(l2 := Read(st.l2, KeyOf(q), q.systemNow), l1 := AfterSet(st.l1, KeyOf(q), r.value, st.l1Max))
  }

  function ExactResult(st: State, q: Request): QueryResult {
    match ReadResult(st.l2, KeyOf(q), q.systemNow)
    case None => Miss
    case Some(e) => Hit(e, L2, e.status.STALE? || e.confidence < CONFIDENCE_FRESH)
  }

  /** Past a first-level miss: the session's entry if it is readable, otherwise the exact one. */
  function AfterMiss(st: State, q: Request): State
    requires st.l1Max > 0
  {
    match SessionHit(st, q.session, q.capability, q.systemNow)
    case Some(ref) => st.(l2 := Read(st.l2, ref, q.systemNow))
    case None => AfterExact(st, q)
  }

  function MissResult(st: State, q: Request): QueryResult {
    match SessionHit(st, q.session, q.capability, q.systemNow)
    case Some(ref) =>
      var e := Touched(st.l2.entries[ref]);
      Hit(e, L2, e.status.STALE?)
    case None => ExactResult(st, q)
  }

  function AfterQuery(st: State, q: Request): State
    requires st.l1Max > 0
  {
    var st1 := AfterL1(st, KeyOf(q), q.steadyNow);
    if GetResult(L1_POLICY, st.l1, KeyOf(q), q.steadyNow).Some? then st1 else AfterMiss(st1, q)
  }

  function ResultOf(st: State, q: Request): QueryResult {
    match GetResult(L1_POLICY, st.l1, KeyOf(q), q.steadyNow)
    case Some(e) => Hit(e, L1, false)
    case None => MissResult(AfterL1(st, KeyOf(q), q.steadyNow), q)
  }

  // ---- the other steps ----

  const L1_OUTPUT_LIMIT := 4096
  const L2_OUTPUT_LIMIT := 2048

  function Stamped(e: CacheEntry, now: int): CacheEntry {
    if e.createdAtMs == 0 then e.(createdAtMs := now) else e
  }

  /** The second level keeps a long output only as a reference into the archive. */
  function Summarised(e: CacheEntry, archiveRef: string): CacheEntry {
    if |e.output| > L2_OUTPUT_LIMIT then e.(output := "", fullRef := archiveRef) else e
  }

  function AfterWrite(st: State, entry: CacheEntry, now: int, archiveRef: string): State
    requires st.l1Max > 0
  {
    var e := Stamped(entry, now);
    st.(l1 := if |e.output| < L1_OUTPUT_LIMIT then AfterSet(st.l1, e.key, e, st.l1Max) else st.l1,
        l2 := Stored(st.l2, e.key, Summarised(e, archiveRef)))
  }

  ghost function AfterInvalidate(st: State, key: string, cascade: bool): State {
    st.(l1 := WithoutKey(st.l1, key), l2 := HardInvalidated(st.l2, key, cascade))
  }

  function BufferOf(st: State, session: string): seq<SessionTurn> {
    if session in st.sessions then st.sessions[session] else []
  }

  function AfterAppend(st: State, session: string, turn: SessionTurn): State {
    st.(sessions := st.sessions[session := Kept(BufferOf(st, session) + [turn])])
  }

  /**
   * A clean shutdown and a new process: the sessions and the first level are gone, and the second
   * level is what the lines written at the shutdown and the index hold. Nothing happens for lines
   * that the shutdown cannot have written.
   */
  ghost function AfterRestart(st: State, lines: seq<L2Disk.Line>): State {
    if L2Disk.SavedAs(lines, st.l2.entries)
    then Initial(st.l1Max).(l2 := L2Disk.Reloaded(lines, st.l2.rev))
    else st
  }

  datatype Step =
    | Query(request: Request)
    | Write(entry: CacheEntry, now: int, archiveRef: string)
    | Invalidate(key: string, cascade: bool)
    | Append(session: string, turn: SessionTurn)
    | CloseSession(session: string)
    | Decay(now: int)
    | Purge(now: int)
    | Restart(lines: seq<L2Disk.Line>)

  ghost function Next(pow: Power, st: State, step: Step): State
    requires st.l1Max > 0
  {
    match step
    case Query(q) => AfterQuery(st, q)
    case Write(e, now, ref) => AfterWrite(st, e, now, ref)
    case Invalidate(key, cascade) => AfterInvalidate(st, key, cascade)
    case Append(session, turn) => AfterAppend(st, session, turn)
    case CloseSession(session) => st.(sessions := st.sessions - {session})
    case Decay(now) => st.(l2 := AllDecayed(pow, st.l2, now))
    case Purge(now) => st.(l2 := Purged(st.l2, now))
    case Restart(lines) => AfterRestart(st, lines)
  }

  ghost function Run(pow: Power, st: State, steps: seq<Step>): (r: State)
    requires st.l1Max > 0
    ensures r.l1Max == st.l1Max
  {
    if steps == [] then st else Next(pow, Run(pow, st, steps[..|steps| - 1]), steps[|steps| - 1])
  }

  function Initial(l1Max: nat): State {
    State([], l1Max, L2State(map[], map[]), map[])
  }

  // ---- entries are filed under their own keys ----

  ghost predicate WellKeyed(st: State) {
    && Proper(st.l1, st.l1Max)
    && (forall i :: 0 <= i < |st.l1| ==> st.l1[i].value.key == st.l1[i].key)
    && (forall k :: k in st.l2.entries ==> st.l2.entries[k].key == k)
  }

  /** What a first-level read or store leaves of the items: old ones, and at most one new value. */
  lemma ItemsAfterGet(s: seq<Item<CacheEntry>>, key: string, now: int, k: string)
    requires DistinctKeys(s)
    ensures var v := Lookup(AfterGet(L1_POLICY, s, key, now), k);
            v == Lookup(s, k) || (k == key && v == None)
            || (k == key && Lookup(s, k).Some? && v == Some(Touched(Lookup(s, k).value)))
  {
    LookupWithout(s, key, k);
  }

  lemma ItemsAfterSet(s: seq<Item<CacheEntry>>, key: string, e: CacheEntry, max: nat, k: string)
    requires DistinctKeys(s) && max > 0
    ensures var v := Lookup(AfterSet(s, key, e, max), k);
            if k == key then v == Some(e) else v == Lookup(s, k) || v == None
  {
    LookupWithout(s, key, k);
    if |s| > max - 1 && Lookup(s[..max - 1], k).Some? {
      LookupPrefix(s, max - 1, k);
    }
  }

  /** In a proper list, an invariant of the items is an invariant of what lookups find. */
  ghost predicate FoundUnderOwnKey(s: seq<Item<CacheEntry>>) {
    forall k :: Lookup(s, k).Some? ==> Lookup(s, k).value.key == k
  }

  lemma OwnKeysByLookup(s: seq<Item<CacheEntry>>)
    requires DistinctKeys(s)
    ensures FoundUnderOwnKey(s) <==> forall i :: 0 <= i < |s| ==> s[i].value.key == s[i].key
  {
    forall i | 0 <= i < |s| ensures Lookup(s, s[i].key) == Some(s[i].value) {
      LookupAt(s, i);
    }
    forall k | Lookup(s, k).Some? ensures exists i :: 0 <= i < |s| && s[i] == Item(k, Lookup(s, k).value) {
      LookupIsKey(s, k);
    }
  }

  lemma QueryKeepsWellKeyed(st: State, q: Request)
    requires st.l1Max > 0 && WellKeyed(st)
    ensures WellKeyed(AfterQuery(st, q))
  {
    var key, after := KeyOf(q), AfterQuery(st, q);
    var s1 := AfterL1(st, key, q.steadyNow).l1;
    GetKeepsProper(L1_POLICY, st.l1, key, q.steadyNow, st.l1Max);
    OwnKeysByLookup(st.l1);
    forall k | Lookup(s1, k).Some? ensures Lookup(s1, k).value.key == k {
      ItemsAfterGet(st.l1, key, q.steadyNow, k);
    }
    if after.l1 == s1 {
      OwnKeysByLookup(s1);
    } else {
      var e := ReadResult(st.l2, key, q.systemNow).value;
      SetKeepsOwnKeys(s1, key, e, st.l1Max);
    }
  }

  lemma SetKeepsOwnKeys(s: seq<Item<CacheEntry>>, key: string, e: CacheEntry, max: nat)
    requires Proper(s, max) && max > 0 && FoundUnderOwnKey(s) && e.key == key
    ensures var after := AfterSet(s, key, e, max);
            Proper(after, max) && forall i :: 0 <= i < |after| ==> after[i].value.key == after[i].key
  {
    var after := AfterSet(s, key, e, max);
    SetKeepsProper(s, key, e, max);
    forall k | Lookup(after, k).Some? ensures Lookup(after, k).value.key == k {
      ItemsAfterSet(s, key, e, max, k);
    }
    OwnKeysByLookup(after);
  }

  /** With every entry under its own key, a restart loses the first level and the sessions only. */
  lemma RestartKeepsL2(st: State, lines: seq<L2Disk.Line>)
    requires WellKeyed(st)
    ensures AfterRestart(st, lines) == if L2Disk.SavedAs(lines, st.l2.entries) then Initial(st.l1Max).(l2 := st.l2) else st
  {
    if L2Disk.SavedAs(lines, st.l2.entries) {
      L2Disk.RestartRestores(st.l2, lines);
    }
  }

  lemma StepKeepsWellKeyed(pow: Power, st: State, step: Step)
    requires st.l1Max > 0 && WellKeyed(st)
    ensures WellKeyed(Next(pow, st, step))
  {
    OwnKeysByLookup(st.l1);
    match step
    case Query(q) => QueryKeepsWellKeyed(st, q);
    case Write(entry, now, ref) =>
      var e := Stamped(entry, now);
      SetKeepsOwnKeys(st.l1, e.key, e, st.l1Max);
    case Invalidate(key, cascade) =>
      var after := WithoutKey(st.l1, key);
      WithoutKeyFacts(st.l1, key);
      forall k | Lookup(after, k).Some? ensures Lookup(after, k).value.key == k {
        LookupWithout(st.l1, key, k);
      }
      OwnKeysByLookup(after);
    case Append(session, turn) =>
    case CloseSession(session) =>
    case Decay(now) =>
    case Purge(now) =>
    case Restart(lines) => RestartKeepsL2(st, lines);
  }

  lemma {:induction false} RunKeepsWellKeyed(pow: Power, st: State, steps: seq<Step>)
    requires st.l1Max > 0 && WellKeyed(st)
    ensures WellKeyed(Run(pow, st, steps))
  {
    if steps != [] {
      RunKeepsWellKeyed(pow, st, steps[..|steps| - 1]);
      StepKeepsWellKeyed(pow, Run(pow, st, steps[..|steps| - 1]), steps[|steps| - 1]);
    }
  }

  lemma {:induction false} RunSplits(pow: Power, st: State, a: seq<Step>, b: seq<Step>)
    requires st.l1Max > 0
    ensures Run(pow, st, a + b) == Run(pow, Run(pow, st, a), b)
  {
    if b == [] {
      assert a + b == a;
    } else {
      assert (a + b)[..|a + b| - 1] == a + b[..|b| - 1];
      RunSplits(pow, st, a, b[..|b| - 1]);
    }
  }
}
