/** The coordinator object: one first-level store, one persistent cache, one buffer per session. */
module Coordinator {
  import opened Wrappers
  import opened AgentTypes
  import opened L2Model
  import L2Cache
  import L2Disk
  import opened L1Cache
  import opened Sessions
  import opened CoordinatorModel

  class CacheCoordinator {
    const l1: L1CacheStore
    const l2: L2Cache.L2PersistentCache
    var sessions: map<string, SessionBuffer>

    /** Each session owns its buffer. */
    ghost predicate OwnBuffers()
      reads this
    {
      forall a, b :: a in sessions && b in sessions && a != b ==> sessions[a] != sessions[b]
    }

    ghost predicate Valid()
      reads this, l1, l1.list, l1.list.lru
    {
      l1.Valid() && l1.maxSize > 0 && OwnBuffers()
    }

    ghost function Turns(): map<string, seq<SessionTurn>>
      reads this, sessions.Values
    {
      map s | s in sessions :: sessions[s].turns
    }

    ghost function Now(): State
      reads this, l1, l1.list, l2, sessions.Values
    {
      State(l1.Contents(), l1.maxSize, l2.State(), Turns())
    }

    constructor (pow: Power)
      ensures Valid() && Now() == Initial(4096) && l2.pow == pow
      ensures fresh(l1) && fresh(l1.list) && fresh(l1.list.Nodes()) && fresh(l2) && sessions == map[]
    {
      l1 := new L1CacheStore();
      l2 := new L2Cache.L2PersistentCache(pow);
      sessions := map[];
    }

    method Query(agentId: string, capability: string, inputHash: string, session: string,
                 steadyNow: int, systemNow: int) returns (result: QueryResult)
      requires Valid()
      modifies l1.list, l1.list.Nodes(), l2
      ensures Valid()
      ensures fresh(l1.list.Nodes() - old(l1.list.Nodes()))
      ensures var q := Request(agentId, capability, inputHash, session, steadyNow, systemNow);
              Now() == AfterQuery(old(Now()), q) && result == ResultOf(old(Now()), q)
    {
      var key := CacheKey(agentId, capability, inputHash);
      var first := l1.Get(key, steadyNow);
      assert Now() == AfterL1(old(Now()), key, steadyNow);
      if first.Some? {
        return Hit(first.value, L1, false);
      }
      result := PastL1(Request(agentId, capability, inputHash, session, steadyNow, systemNow));
    }

    method PastL1(q: Request) returns (result: QueryResult)
      requires Valid()
      modifies l1.list, l1.list.Nodes(), l2
      ensures Valid()
      ensures fresh(l1.list.Nodes() - old(l1.list.Nodes()))
      ensures Now() == AfterMiss(old(Now()), q) && result == MissResult(old(Now()), q)
    {
      var related := FromSession(q.session, q.capability, q.systemNow);
      if related.Some? {
        return Hit(related.value, L2, related.value.status == STALE);
      }
      result := FromL2(q);
    }

    /** The exact path: the second-level entry under the queried key, promoted on a hit. */
    method FromL2(q: Request) returns (result: QueryResult)
      requires Valid()
      modifies l1.list, l1.list.Nodes(), l2
      ensures Valid()
      ensures fresh(l1.list.Nodes() - old(l1.list.Nodes()))
      ensures Now() == AfterExact(old(Now()), q) && result == ExactResult(old(Now()), q)
    {
      var key := KeyOf(q);
      var second := l2.Get(key, q.systemNow);
      assert Now() == old(Now()).(l2 := Read(old(Now()).l2, key, q.systemNow));
      if second.Some? {
        var e := second.value;
        l1.Set(key, e);
        return Hit(e, L2, e.status == STALE || e.confidence < CONFIDENCE_FRESH);
      }
      return Miss;
    }

    /** The session path: the second-level entry behind the session's latest turn with the capability. */
    method FromSession(session: string, capability: string, now: int) returns (r: Option<CacheEntry>)
      modifies l2
      ensures var ref := SessionHit(old(Now()), session, capability, now);
              if ref.None? then r == None && l2.State() == old(l2.State())
              else r == ReadResult(old(l2.State()), ref.value, now) && l2.State() == Read(old(l2.State()), ref.value, now)
    {
      r := None;
      if session in sessions {
        var recent := sessions[session].Recent(capability, 3);
        if recent != [] {
          var last := recent[0];
          r := l2.Get(last.cacheKey, now);
        }
      }
    }

    method Write(entry: CacheEntry, now: int, archiveRef: string)
      requires Valid()
      modifies l1.list, l1.list.Nodes(), l2
      ensures Valid()
      ensures fresh(l1.list.Nodes() - old(l1.list.Nodes()))
      ensures Now() == AfterWrite(old(Now()), entry, now, archiveRef)
    {
      var e := entry;
      if e.createdAtMs == 0 {
        e := e.(createdAtMs := now);
      }
      if |e.output| < L1_OUTPUT_LIMIT {
        l1.Set(e.key, e);
      }
      ghost var mid := Now();
      assert e == Stamped(entry, now);
      assert mid.l2 == old(Now()).l2 && mid.sessions == old(Now()).sessions;
      var l2Entry := e;
      if |e.output| > L2_OUTPUT_LIMIT {
        l2Entry := l2Entry.(output := "", fullRef := archiveRef);
      }
      l2.Set(e.key, l2Entry);
    }

    method Invalidate(key: string, cascade: bool)
      requires Valid()
      modifies l1.list, l2
      ensures Valid() && l1.list.Nodes() <= old(l1.list.Nodes())
      ensures Now() == AfterInvalidate(old(Now()), key, cascade)
    {
      l1.Invalidate(key);
      l2.HardInvalidate(key, cascade);
    }

    /** Hand out the session's buffer, making an empty one for a new session. */
    method BufferFor(session: string) returns (buffer: SessionBuffer)
      requires Valid()
      modifies this`sessions
      ensures Valid() && session in sessions && sessions[session] == buffer
      ensures sessions == old(sessions)[session := buffer]
      ensures if session in old(sessions) then buffer == old(sessions)[session] else fresh(buffer)
      ensures Now() == old(Now()).(sessions := old(Turns())[session := BufferOf(old(Now()), session)])
    {
      if session !in sessions {
        buffer := new SessionBuffer();
        sessions := sessions[session := buffer];
      } else {
        buffer := sessions[session];
      }
    }

    method AppendTurn(session: string, turn: SessionTurn)
      requires Valid()
      modifies this`sessions, sessions.Values
      ensures Valid() && fresh(sessions.Values - old(sessions.Values))
      ensures Now() == AfterAppend(old(Now()), session, turn)
    {
      var buffer := BufferFor(session);
      Extend(session, turn);
      assert Turns() == old(Turns())[session := Kept(BufferOf(old(Now()), session) + [turn])];
    }

    /** Append to the buffer of a session that has one. */
    method Extend(session: string, turn: SessionTurn)
      requires Valid() && session in sessions
      modifies sessions[session]
      ensures Valid()
      ensures Now() == old(Now()).(sessions := old(Turns())[session := Kept(old(Turns())[session] + [turn])])
    {
      ghost var before := Turns();
      assert forall s | s in sessions && s != session :: sessions[s] != sessions[session];
      sessions[session].Append(turn);
      assert Turns() == before[session := Kept(before[session] + [turn])];
    }

    /** Closing and archiving a session both end with its buffer gone. */
    method CloseSession(session: string)
      requires Valid()
      modifies this`sessions
      ensures Valid() && sessions == old(sessions) - {session}
      ensures Now() == old(Now()).(sessions := old(Now()).sessions - {session})
    {
      sessions := sessions - {session};
    }

    /** Take in the files of the second level. */
    method Init(lines: seq<L2Disk.Line>, index: map<string, seq<string>>)
      requires Valid() && l2.State() == L2State(map[], map[])
      modifies l2
      ensures Valid()
      ensures Now() == old(Now()).(l2 := L2Disk.Reloaded(lines, index))
    {
      ghost var order := l2.Init(Some(lines), L2Disk.Whole(index));
    }

    /** Every session is closed, then the second level goes to its files. */
    method Shutdown() returns (lines: seq<L2Disk.Line>, index: map<string, seq<string>>)
      requires Valid()
      modifies this`sessions, l2
      ensures Valid() && sessions == map[]
      ensures L2Disk.SavedAs(lines, old(Now()).l2.entries) && index == old(Now()).l2.rev
      ensures Now() == old(Now()).(l2 := L2State(map[], map[]), sessions := map[])
    {
      var ids := sessions.Keys;
      while ids != {}
        invariant Valid() && ids == sessions.Keys
        invariant Now() == old(Now()).(sessions := Turns())
      {
        var id :| id in ids;
        ids := ids - {id};
        CloseSession(id);
      }
      ghost var order;
      lines, index, order := l2.Shutdown();
      assert L2Disk.IsSaved(lines, old(Now()).l2.entries, order);
    }

    /** One round of the maintenance loop. */
    method MaintainOnce(decayNow: int, purgeNow: int)
      requires Valid()
      modifies l2
      ensures Valid()
      ensures Now() == Next(l2.pow, Next(l2.pow, old(Now()), Decay(decayNow)), Purge(purgeNow))
    {
      l2.ApplyConfidenceDecay(decayNow);
      l2.PurgeExpired(purgeNow);
    }
  }

  /** A shutdown, and a new coordinator that takes in what it wrote, is one restart. */
  method Restarted(c: CacheCoordinator) returns (next: CacheCoordinator, ghost lines: seq<L2Disk.Line>)
    requires c.Valid() && c.l1.maxSize == 4096
    modifies c`sessions, c.l2
    ensures next.Valid() && L2Disk.SavedAs(lines, old(c.Now()).l2.entries)
    ensures fresh(next) && fresh(next.l1) && fresh(next.l1.list) && fresh(next.l1.list.Nodes()) && fresh(next.l2)
    ensures next.sessions == map[]
    ensures next.Now() == Next(c.l2.pow, old(c.Now()), Restart(lines))
  {
    ghost var st := c.Now();
    var written, index := c.Shutdown();
    lines := written;
    next := new CacheCoordinator(c.l2.pow);
    next.Init(written, index);
    RestartIsReload(c.l2.pow, st, lines);
  }

  lemma RestartIsReload(pow: Power, st: State, lines: seq<L2Disk.Line>)
    requires st.l1Max > 0
    ensures L2Disk.SavedAs(lines, st.l2.entries) ==>
              Next(pow, st, Restart(lines)) == Initial(st.l1Max).(l2 := L2Disk.Reloaded(lines, st.l2.rev))
  {
  }
}
