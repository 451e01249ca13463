/** Agents by session, an index from capability to sessions, and routing to the least busy provider. */
module Registry {
  import opened Wrappers
  import opened Sequences
  import opened ReverseIndex

  datatype AgentRecord = AgentRecord(
    sessionId: string,
    agentName: string,
    capabilities: seq<string>,
    peerAddr: string,
    registeredAtMs: int,
    lastHeartbeatMs: int,
    activeCalls: int,
    healthy: bool)

  datatype Registered = Registered(agents: map<string, AgentRecord>, capIndex: Index)

  function Offers(agents: map<string, AgentRecord>): map<string, seq<string>> {
    map s | s in agents :: agents[s].capabilities
  }

  /** A session is listed under a capability exactly when it is registered with it, once. */
  ghost predicate Consistent(st: Registered) {
    Agrees(st.capIndex, Offers(st.agents))
  }

  function WithAgent(st: Registered, session: string, record: AgentRecord): Registered {
    var dropped := if session in st.agents then Drop(st.capIndex, st.agents[session].capabilities, session)
                   else st.capIndex;
    Registered(st.agents[session := record], Add(dropped, record.capabilities, session))
  }

  function WithoutAgent(st: Registered, session: string): Registered {
    if session !in st.agents then st
    else Registered(st.agents - {session}, DropAndPrune(st.capIndex, st.agents[session].capabilities, session))
  }

  function Beaten(st: Registered, session: string, now: int): Registered {
    if session !in st.agents then st
    else st.(agents := st.agents[session := st.agents[session].(lastHeartbeatMs := now)])
  }

  /** A session that can take a call for the capability. */
  predicate Provides(st: Registered, session: string, capability: string) {
    session in st.agents && st.agents[session].healthy && capability in st.agents[session].capabilities
  }

  class AgentRegistry {
    var agents: map<string, AgentRecord>
    var capIndex: map<string, seq<string>>

    ghost function State(): Registered
      reads this
    {
      Registered(agents, capIndex)
    }

    constructor ()
      ensures State() == Registered(map[], map[])
    {
      agents, capIndex := map[], map[];
    }

    method RegisterAgent(session: string, record: AgentRecord)
      modifies this
      ensures State() == WithAgent(old(State()), session, record)
    {
      if session in agents {
        capIndex := EraseFromLists(capIndex, agents[session].capabilities, session);
      }
      agents := agents[session := record];
      capIndex := AppendToLists(capIndex, record.capabilities, session);
    }

    method UnregisterAgent(session: string)
      modifies this
      ensures State() == WithoutAgent(old(State()), session)
    {
      if session !in agents {
        return;
      }
      capIndex := EraseAndPruneLists(capIndex, agents[session].capabilities, session);
      agents := agents - {session};
    }

    /**
     * With a consistent index, a provider is found whenever there is one, it has the fewest
     * active calls of all providers, and it comes first in the index among equals.
     */
    method Route(capability: string) returns (best: Option<AgentRecord>)
      ensures best == BestListed(agents, ListAt(capIndex, capability), |ListAt(capIndex, capability)|)
      ensures Consistent(State()) ==>
                && (best.None? <==> forall s :: !Provides(State(), s, capability))
                && (best.Some? ==>
                      && (exists s :: Provides(State(), s, capability) && best.value == agents[s])
                      && (forall s :: Provides(State(), s, capability) ==> best.value.activeCalls <= agents[s].activeCalls))
    {
      best := None;
      if Consistent(State()) {
        BestListedIsLeastBusy(State(), capability);
      }
      if capability !in capIndex || capIndex[capability] == [] {
        return;
      }
      var listed := capIndex[capability];
      for i := 0 to |listed|
        invariant best == BestListed(agents, listed, i)
      {
        var sid := listed[i];
        if sid in agents && agents[sid].healthy {
          if best.None? || agents[sid].activeCalls < best.value.activeCalls {
            best := Some(agents[sid]);
          }
        }
      }
    }

    method Find(session: string) returns (r: Option<AgentRecord>)
      ensures r == if session in agents then Some(agents[session]) else None
    {
      r := if session in agents then Some(agents[session]) else None;
    }

    method Heartbeat(session: string, now: int)
      modifies this`agents
      ensures State() == Beaten(old(State()), session, now)
    {
      if session in agents {
        agents := agents[session := agents[session].(lastHeartbeatMs := now)];
      }
    }
  }

  /** The first least busy healthy agent among the first n listed sessions. */
  function BestListed(agents: map<string, AgentRecord>, listed: seq<string>, n: nat): Option<AgentRecord>
    requires n <= |listed|
  {
    if n == 0 then None
    else
      var best, sid := BestListed(agents, listed, n - 1), listed[n - 1];
      if sid !in agents || !agents[sid].healthy then best
      else if best.None? || agents[sid].activeCalls < best.value.activeCalls then Some(agents[sid])
      else best
  }

  predicate Usable(agents: map<string, AgentRecord>, s: string) {
    s in agents && agents[s].healthy
  }

  /** Of the first n listed sessions that are usable, i is the first with the fewest active calls. */
  ghost predicate IsFirstLeastBusy(agents: map<string, AgentRecord>, listed: seq<string>, n: nat, i: int)
    requires n <= |listed|
  {
    && 0 <= i < n && Usable(agents, listed[i])
    && forall j :: 0 <= j < n && Usable(agents, listed[j]) ==>
         if j < i then agents[listed[i]].activeCalls < agents[listed[j]].activeCalls
         else agents[listed[i]].activeCalls <= agents[listed[j]].activeCalls
  }

  lemma {:induction false} BestListedIsMinimal(agents: map<string, AgentRecord>, listed: seq<string>, n: nat)
    requires n <= |listed|
    ensures BestListed(agents, listed, n).None? <==> forall i :: 0 <= i < n ==> !Usable(agents, listed[i])
    ensures BestListed(agents, listed, n).Some? ==>
              var best := BestListed(agents, listed, n).value;
              && (exists i :: IsFirstLeastBusy(agents, listed, n, i) && agents[listed[i]] == best)
              && (forall i :: 0 <= i < n && Usable(agents, listed[i]) ==> best.activeCalls <= agents[listed[i]].activeCalls)
  {
    if n > 0 {
      BestListedIsMinimal(agents, listed, n - 1);
      var sid := listed[n - 1];
      if Usable(agents, sid) {
        var best := BestListed(agents, listed, n - 1);
        if best.None? || agents[sid].activeCalls < best.value.activeCalls {
          assert IsFirstLeastBusy(agents, listed, n, n - 1);
        } else {
          var i :| IsFirstLeastBusy(agents, listed, n - 1, i) && agents[listed[i]] == best.value;
          assert IsFirstLeastBusy(agents, listed, n, i);
        }
      } else if BestListed(agents, listed, n - 1).Some? {
        var i :| IsFirstLeastBusy(agents, listed, n - 1, i) && agents[listed[i]] == BestListed(agents, listed, n - 1).value;
        assert IsFirstLeastBusy(agents, listed, n, i);
      }
      assert Usable(agents, listed[n - 1]) <==> listed[n - 1] in agents && agents[listed[n - 1]].healthy;
    }
  }

  lemma BestListedIsLeastBusy(st: Registered, capability: string)
    requires Consistent(st)
    ensures var listed := ListAt(st.capIndex, capability);
            var best := BestListed(st.agents, listed, |listed|);
            && (best.None? <==> forall s :: !Provides(st, s, capability))
            && (best.Some? ==>
                  && (exists s :: Provides(st, s, capability) && best.value == st.agents[s])
                  && (forall s :: Provides(st, s, capability) ==> best.value.activeCalls <= st.agents[s].activeCalls))
  {
    var listed := ListAt(st.capIndex, capability);
    BestListedIsMinimal(st.agents, listed, |listed|);
    forall s ensures Provides(st, s, capability) <==> s in listed && Usable(st.agents, s) {
      assert Lists(st.capIndex, capability, s) <==> Points(Offers(st.agents), s, capability);
    }
    forall i | 0 <= i < |listed| ensures listed[i] in listed {
    }
  }

  // ---- runs ----

  datatype Op =
    | Register(session: string, record: AgentRecord)
    | Unregister(session: string)
    | Beat(session: string, now: int)

  function Next(st: Registered, op: Op): Registered {
    match op
    case Register(session, record) => WithAgent(st, session, record)
    case Unregister(session) => WithoutAgent(st, session)
    case Beat(session, now) => Beaten(st, session, now)
  }

  function Run(ops: seq<Op>): Registered {
    if ops == [] then Registered(map[], map[]) else Next(Run(ops[..|ops| - 1]), ops[|ops| - 1])
  }

  lemma RegisterConsistent(st: Registered, session: string, record: AgentRecord)
    requires Consistent(st)
    ensures Consistent(WithAgent(st, session, record))
  {
    var owners, after := Offers(st.agents), WithAgent(st, session, record);
    if session in st.agents {
      DropAgrees(st.capIndex, owners, session);
      AddAgrees(Drop(st.capIndex, owners[session], session), owners - {session}, session, record.capabilities);
      assert Offers(after.agents) == (owners - {session})[session := record.capabilities];
    } else {
      AddAgrees(st.capIndex, owners, session, record.capabilities);
      assert Offers(after.agents) == owners[session := record.capabilities];
    }
  }

  lemma UnregisterConsistent(st: Registered, session: string)
    requires Consistent(st)
    ensures Consistent(WithoutAgent(st, session))
  {
    if session in st.agents {
      DropAgrees(st.capIndex, Offers(st.agents), session);
      assert Offers(WithoutAgent(st, session).agents) == Offers(st.agents) - {session};
    }
  }

  lemma StepConsistent(st: Registered, op: Op)
    requires Consistent(st)
    ensures Consistent(Next(st, op))
  {
    match op
    case Register(session, record) => RegisterConsistent(st, session, record);
    case Unregister(session) => UnregisterConsistent(st, session);
    case Beat(session, now) => assert Offers(Beaten(st, session, now).agents) == Offers(st.agents);
  }

  /**
   * Through any registrations, re-registrations and removals, a session is in the list of a
   * capability exactly when it is currently registered with it, and it is there once.
   */
  lemma {:induction false} IndexIsExact(ops: seq<Op>, capability: string, session: string)
    ensures var st := Run(ops);
            && Consistent(st)
            && (session in ListAt(st.capIndex, capability) <==>
                  session in st.agents && capability in st.agents[session].capabilities)
            && NoDup(ListAt(st.capIndex, capability))
  {
    var st := Run(ops);
    if ops != [] {
      IndexIsExact(ops[..|ops| - 1], capability, session);
      StepConsistent(Run(ops[..|ops| - 1]), ops[|ops| - 1]);
    }
    assert Lists(st.capIndex, capability, session) <==> Points(Offers(st.agents), session, capability);
  }

  /** Operation i registered the session with that record, and nothing registered or removed it since. */
  ghost predicate LatestRegistration(ops: seq<Op>, session: string, i: int, record: AgentRecord) {
    && 0 <= i < |ops| && ops[i] == Register(session, record)
    && forall j :: i < j < |ops| && ops[j].session == session ==> ops[j].Beat?
  }

  /** The time of the session's last heartbeat after operation i, or its first value. */
  function LastBeat(ops: seq<Op>, session: string, i: int, first: int): int {
    if |ops| <= i + 1 || ops == [] then first
    else
      var op := ops[|ops| - 1];
      if op.Beat? && op.session == session then op.now else LastBeat(ops[..|ops| - 1], session, i, first)
  }

  /**
   * What is found under a session is the record of its latest registration, kept up to date by
   * heartbeats and nothing else; nothing is found exactly when it was never registered or was removed since.
   */
  lemma {:induction false} FoundIsLatestRegistration(ops: seq<Op>, session: string)
    ensures session in Run(ops).agents <==> exists i, record :: LatestRegistration(ops, session, i, record)
    ensures forall i, record :: LatestRegistration(ops, session, i, record) ==>
              && session in Run(ops).agents
              && Run(ops).agents[session] == record.(lastHeartbeatMs := LastBeat(ops, session, i, record.lastHeartbeatMs))
  {
    if ops != [] {
      var n := |ops| - 1;
      var init, op := ops[..n], ops[n];
      FoundIsLatestRegistration(init, session);
      if op.Register? && op.session == session {
        assert LatestRegistration(ops, session, n, op.record);
      } else if op.session != session || op.Beat? {
        forall i, record ensures LatestRegistration(ops, session, i, record) <==> LatestRegistration(init, session, i, record) {
        }
      }
    }
  }
}
