/** How the cache is used by calls between agents: looked up before a call, filled by its result. */
module AgentCalls {
  import opened Wrappers
  import opened AgentTypes
  import opened Sessions
  import opened CoordinatorModel
  import opened CoordinatorAnswers
  import opened Coordinator

  /** The agent that answers: its session and its name, when the connection has a context. */
  datatype Callee = Callee(session: string, name: string)

  const AGENT_CALL := "agent_call"

  function Preview(text: string): string {
    if |text| <= 200 then text else text[..200]
  }

  function ResultKey(callee: Option<Callee>, outputHash: string): string {
    CacheKey(if callee.Some? then callee.value.name else "unknown", AGENT_CALL, outputHash)
  }

  /** The entry in which a result is cached. */
  function ResultEntry(callee: Option<Callee>, callId: string, output: string, outputHash: string, confidence: real): CacheEntry {
    CacheEntry(ResultKey(callee, outputHash), if callee.Some? then callee.value.session else "", AGENT_CALL, callId,
               "", output, Preview(output), "", confidence, 0.02, 0, 600, if confidence > 0.3 then FRESH else STALE,
               [], [], 0, 1.0)
  }

  /** The turn it adds to the caller's session. */
  function ResultTurn(callee: Option<Callee>, callId: string, output: string, outputHash: string, confidence: real,
                      now: int): SessionTurn {
    SessionTurn(callId, if callee.Some? then callee.value.name else "", AGENT_CALL, "", Preview(output),
                ResultKey(callee, outputHash), now, confidence)
  }

  /** The turn that a call answered from the cache adds. */
  function HitTurn(callId: string, capability: string, input: string, e: CacheEntry, now: int): SessionTurn {
    SessionTurn(callId, e.agentId, capability, Preview(input), e.outputSummary, e.key, now, e.confidence)
  }

  function CallRequest(target: string, capability: string, inputHash: string, session: string,
                       steadyNow: int, systemNow: int): Request {
    Request(if target == "" then "any" else target, capability, inputHash, session, steadyNow, systemNow)
  }

  /** Look a call up before it is made; a hit is remembered in the caller's session. */
  method AnswerFromCache(c: CacheCoordinator, callId: string, target: string, capability: string, input: string,
                         inputHash: string, session: string, steadyNow: int, systemNow: int, turnNow: int)
    returns (result: QueryResult)
    requires c.Valid()
    modifies c`sessions, c.sessions.Values, c.l1.list, c.l1.list.Nodes(), c.l2
    ensures c.Valid()
    ensures fresh(c.l1.list.Nodes() - old(c.l1.list.Nodes())) && fresh(c.sessions.Values - old(c.sessions.Values))
    ensures var q := CallRequest(target, capability, inputHash, session, steadyNow, systemNow);
            && result == ResultOf(old(c.Now()), q)
            && c.Now() == if result.Hit?
                          then AfterAppend(AfterQuery(old(c.Now()), q), session,
                                           HitTurn(callId, capability, input, result.entry, turnNow))
                          else AfterQuery(old(c.Now()), q)
  {
    result := c.Query(if target == "" then "any" else target, capability, inputHash, session, steadyNow, systemNow);
    if result.Hit? {
      c.AppendTurn(session, HitTurn(callId, capability, input, result.entry, turnNow));
    }
  }

  /** Cache a result that is on its way to its caller, and remember it in the caller's session if it has one. */
  method StoreResult(c: CacheCoordinator, callee: Option<Callee>, callId: string, output: string, outputHash: string,
                     confidence: real, caller: Option<string>, now: int, turnNow: int, archiveRef: string)
    requires c.Valid()
    modifies c`sessions, c.sessions.Values, c.l1.list, c.l1.list.Nodes(), c.l2
    ensures c.Valid()
    ensures fresh(c.l1.list.Nodes() - old(c.l1.list.Nodes())) && fresh(c.sessions.Values - old(c.sessions.Values))
    ensures var e := ResultEntry(callee, callId, output, outputHash, confidence);
            var written := AfterWrite(old(c.Now()), e, now, archiveRef);
            c.Now() == if caller.None? then written
                       else AfterAppend(written, caller.value,
                                        ResultTurn(callee, callId, output, outputHash, confidence, turnNow))
  {
    var e := ResultEntry(callee, callId, output, outputHash, confidence);
    c.Write(e, now, archiveRef);
    if caller.Some? {
      c.AppendTurn(caller.value, ResultTurn(callee, callId, output, outputHash, confidence, turnNow));
    }
  }

  /** Pruning never drops the turn just appended. */
  lemma {:induction false} KeptEndsWith(h: seq<SessionTurn>, t: SessionTurn)
    ensures Kept(h + [t]) != [] && Kept(h + [t])[|Kept(h + [t])| - 1] == t
  {
    if !Fits(h + [t]) {
      assert (h + [t])[1..] == h[1..] + [t];
      KeptEndsWith(h[1..], t);
    }
  }

  /** The turn just appended is the one the session answers from for its capability. */
  lemma AppendedIsReferred(st: State, session: string, turn: SessionTurn)
    ensures SessionReference(AfterAppend(st, session, turn), session, turn.capability) == Some(turn.cacheKey)
  {
    var h := BufferOf(st, session);
    KeptEndsWith(h, turn);
    assert Matching(Kept(h + [turn]), turn.capability)[0] == turn;
  }

  /** The stored form of a result, every field written out. */
  lemma StoredResult(callee: Option<Callee>, callId: string, output: string, outputHash: string, confidence: real,
                     now: int, archiveRef: string)
    requires now != 0
    ensures var name, session := if callee.Some? then callee.value.name else "unknown",
                                 if callee.Some? then callee.value.session else "";
            var long := |output| > 2048;
            Summarised(Stamped(ResultEntry(callee, callId, output, outputHash, confidence), now), archiveRef)
            == CacheEntry("agent:" + name + ":agent_call:" + outputHash, session, "agent_call", callId, "",
                          if long then "" else output, if |output| <= 200 then output else output[..200],
                          if long then archiveRef else "", confidence, 0.02, now, 600,
                          if confidence > 0.3 then FRESH else STALE, [], [], 0, 1.0)
  {
    var name := if callee.Some? then callee.value.name else "unknown";
    assert "agent:" + name + ":" + AGENT_CALL + ":" + outputHash == "agent:" + name + ":agent_call:" + outputHash;
  }

  /** The turn of a result names the entry stored for it, in the caller's session. */
  lemma ResultIsRemembered(st: State, callee: Option<Callee>, callId: string, output: string, outputHash: string,
                           confidence: real, session: string, turnNow: int)
    ensures var e := ResultEntry(callee, callId, output, outputHash, confidence);
            var st' := AfterAppend(st, session, ResultTurn(callee, callId, output, outputHash, confidence, turnNow));
            var turns := BufferOf(st', session);
            && SessionReference(st', session, "agent_call") == Some(e.key)
            && turns != []
            && turns[|turns| - 1] == SessionTurn(callId, if callee.Some? then callee.value.name else "", "agent_call", "",
                                                 if |output| <= 200 then output else output[..200],
                                                 e.key, turnNow, confidence)
  {
    var turn := ResultTurn(callee, callId, output, outputHash, confidence, turnNow);
    AppendedIsReferred(st, session, turn);
    KeptEndsWith(BufferOf(st, session), turn);
  }

  lemma ReferredIsAnswered(st: State, q: Request, k: string)
    requires SessionReference(st, q.session, q.capability) == Some(k)
    requires FirstLevelServes(st, q).None? && SecondLevelServes(st, k, q.systemNow).Some?
    ensures ResultOf(st, q) == Hit(Counted(st.l2.entries[k]), L2, st.l2.entries[k].status == STALE)
  {
    AnswerExact(st, q);
  }

  /**
   * A result just stored for a session answers that session's next agent call, whichever agent and
   * input it names, unless the first level has that very call: the latest turn decides, not the key.
   * What StoredResult spells out is returned with one access counted.
   */
  lemma NextCallGetsLatestResult(st: State, callee: Option<Callee>, callId: string, output: string, outputHash: string,
                                 confidence: real, session: string, now: int, turnNow: int, archiveRef: string, q: Request)
    requires st.l1Max > 0 && q.session == session && q.capability == "agent_call"
    requires now != 0 && q.systemNow <= now + 600 * 1000
    ensures var e := ResultEntry(callee, callId, output, outputHash, confidence);
            var st' := AfterAppend(AfterWrite(st, e, now, archiveRef), session,
                                   ResultTurn(callee, callId, output, outputHash, confidence, turnNow));
            FirstLevelServes(st', q).None? ==>
              ResultOf(st', q) == Hit(Counted(Summarised(Stamped(e, now), archiveRef)), L2, confidence <= 0.3)
  {
    var e := ResultEntry(callee, callId, output, outputHash, confidence);
    var turn := ResultTurn(callee, callId, output, outputHash, confidence, turnNow);
    var st' := AfterAppend(AfterWrite(st, e, now, archiveRef), session, turn);
    AppendedIsReferred(AfterWrite(st, e, now, archiveRef), session, turn);
    assert st'.l2.entries[e.key] == Summarised(Stamped(e, now), archiveRef);
    if FirstLevelServes(st', q).None? {
      ReferredIsAnswered(st', q, e.key);
    }
  }

  /**
   * A call answered from the cache is remembered: the session's latest turn names the entry served,
   * and that entry is what the session refers to next for the capability.
   */
  lemma HitIsRemembered(st: State, callId: string, target: string, capability: string, input: string, inputHash: string,
                        session: string, steadyNow: int, systemNow: int, turnNow: int)
    requires st.l1Max > 0
    ensures var q := Request(if target == "" then "any" else target, capability, inputHash, session, steadyNow, systemNow);
            var r := ResultOf(st, q);
            r.Hit? ==>
              var st' := AfterAppend(AfterQuery(st, q), session, HitTurn(callId, capability, input, r.entry, turnNow));
              var turns := BufferOf(st', session);
              && SessionReference(st', session, capability) == Some(r.entry.key)
              && turns != []
              && turns[|turns| - 1] == SessionTurn(callId, r.entry.agentId, capability,
                                                   if |input| <= 200 then input else input[..200],
                                                   r.entry.outputSummary, r.entry.key, turnNow, r.entry.confidence)
  {
    var q := CallRequest(target, capability, inputHash, session, steadyNow, systemNow);
    var r := ResultOf(st, q);
    if r.Hit? {
      var turn := HitTurn(callId, capability, input, r.entry, turnNow);
      AppendedIsReferred(AfterQuery(st, q), session, turn);
      KeptEndsWith(BufferOf(AfterQuery(st, q), session), turn);
    }
  }
}
