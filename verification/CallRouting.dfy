/**
 * Correlating calls with their results: who is waiting for which key, which executor gets a tool
 * call, and what becomes of every stored call. Connections are identified by number; which of
 * them are still connected is up to the network and passed to each step.
 */
module CallRouting {
  import opened Wrappers
  import opened Sequences
  import opened ColonKeys

  type Conn = nat

  // ---- one table of waiting callers ----

  datatype Outcome = NoPending | CallerGone | Delivered(to: Conn)

  function OutcomeOf(pending: map<string, Conn>, key: string, connected: set<Conn>): Outcome {
    if key !in pending then NoPending
    else if pending[key] !in connected then CallerGone
    else Delivered(pending[key])
  }

  datatype Step = Store(key: string, caller: Conn) | Resolve(key: string, connected: set<Conn>)

  function Next(pending: map<string, Conn>, step: Step): map<string, Conn> {
    match step
    case Store(key, caller) => pending[key := caller]
    case Resolve(key, connected) => pending - {key}
  }

  function Run(steps: seq<Step>): map<string, Conn> {
    if steps == [] then map[] else Next(Run(steps[..|steps| - 1]), steps[|steps| - 1])
  }

  /** Step i stored the call that key waits for after the steps: nothing later touched the key. */
  ghost predicate LatestStore(steps: seq<Step>, key: string, i: int, caller: Conn) {
    0 <= i < |steps| && steps[i] == Store(key, caller) && forall j :: i < j < |steps| ==> steps[j].key != key
  }

  /** What waits under a key is what was stored there last and not resolved since. */
  lemma {:induction false} PendingIsLatestStore(steps: seq<Step>, key: string, caller: Conn)
    ensures key in Run(steps) && Run(steps)[key] == caller <==> exists i :: LatestStore(steps, key, i, caller)
  {
    if steps != [] {
      var n := |steps| - 1;
      var init := steps[..n];
      PendingIsLatestStore(init, key, caller);
      if steps[n].key == key {
        if steps[n] == Store(key, caller) {
          assert LatestStore(steps, key, n, caller);
        }
        forall i | LatestStore(steps, key, i, caller) ensures steps[n] == Store(key, caller) {
          assert i == n;
        }
      } else {
        forall i ensures LatestStore(steps, key, i, caller) <==> LatestStore(init, key, i, caller) {
        }
      }
    }
  }

  /**
   * Every delivered result goes to the connection that most recently stored that key, and that
   * store has not been answered before.
   */
  lemma DeliveryGoesToLatestCaller(steps: seq<Step>, key: string, connected: set<Conn>, to: Conn)
    ensures OutcomeOf(Run(steps), key, connected) == Delivered(to) <==>
            to in connected && exists i :: LatestStore(steps, key, i, to)
    ensures OutcomeOf(Run(steps), key, connected) == NoPending <==> forall i, c :: !LatestStore(steps, key, i, c)
  {
    PendingIsLatestStore(steps, key, to);
    if key in Run(steps) {
      PendingIsLatestStore(steps, key, Run(steps)[key]);
    }
    forall i, c | LatestStore(steps, key, i, c) ensures key in Run(steps) {
      PendingIsLatestStore(steps, key, c);
    }
  }

  function Stores(steps: seq<Step>): nat {
    if steps == [] then 0 else Stores(steps[..|steps| - 1]) + if steps[|steps| - 1].Store? then 1 else 0
  }

  function Resolutions(steps: seq<Step>, delivered: bool): nat {
    if steps == [] then 0
    else
      var before, step := steps[..|steps| - 1], steps[|steps| - 1];
      var o := if step.Resolve? then OutcomeOf(Run(before), step.key, step.connected) else NoPending;
      Resolutions(before, delivered) + if (if delivered then o.Delivered? else o.CallerGone?) then 1 else 0
  }

  function Overwritten(steps: seq<Step>): nat {
    if steps == [] then 0
    else
      var before, step := steps[..|steps| - 1], steps[|steps| - 1];
      Overwritten(before) + if step.Store? && step.key in Run(before) then 1 else 0
  }

  /** No call is lost from the books: each was delivered, dropped with its caller, replaced, or still waits. */
  lemma {:induction false} CallsAreConserved(steps: seq<Step>)
    ensures Stores(steps) == Resolutions(steps, true) + Resolutions(steps, false) + Overwritten(steps) + |Run(steps)|
  {
    if steps != [] {
      var before, step := Run(steps[..|steps| - 1]), steps[|steps| - 1];
      CallsAreConserved(steps[..|steps| - 1]);
      if step.Store? {
        assert before[step.key := step.caller].Keys == before.Keys + {step.key};
      } else {
        assert (before - {step.key}).Keys == before.Keys - {step.key};
      }
      assert |Run(steps)| == |Run(steps).Keys| && |before| == |before.Keys|;
    }
  }

  // ---- keys of tool calls ----

  function ToolKey(requestId: string, callId: string): string {
    requestId + ":" + callId
  }

  /** Calls of two requests can share a key exactly when one request id continues the other with a colon. */
  lemma ToolKeysCollide(r1: string, r2: string)
    requires r1 != r2
    ensures (exists c1, c2 :: ToolKey(r1, c1) == ToolKey(r2, c2)) <==> Confusable(r1, r2)
  {
    JoinedCollide(r1, r2);
    if c1, c2 :| ToolKey(r1, c1) == ToolKey(r2, c2) {
      assert Joined(r1, c1) == Joined(r2, c2);
    }
    if c1, c2 :| Joined(r1, c1) == Joined(r2, c2) {
      assert ToolKey(r1, c1) == ToolKey(r2, c2);
    }
  }

  /** Otherwise the key determines the call; within one request it always does. */
  lemma ToolKeyDetermines(r1: string, c1: string, r2: string, c2: string)
    requires !Confusable(r1, r2)
    ensures ToolKey(r1, c1) == ToolKey(r2, c2) <==> r1 == r2 && c1 == c2
  {
    JoinedDetermines(r1, c1, r2, c2);
  }

  // ---- tool calls and their answers ----

  datatype ToolStep =
    | Call(requestId: string, callId: string, sender: Conn)
    | Result(requestId: string, callId: string, connected: set<Conn>)

  function Keyed(step: ToolStep): Step {
    match step
    case Call(r, c, sender) => Store(ToolKey(r, c), sender)
    case Result(r, c, connected) => Resolve(ToolKey(r, c), connected)
  }

  function AllKeyed(steps: seq<ToolStep>): (r: seq<Step>)
    ensures |r| == |steps| && forall i :: 0 <= i < |steps| ==> r[i] == Keyed(steps[i])
  {
    seq(|steps|, i requires 0 <= i < |steps| => Keyed(steps[i]))
  }

  predicate Concerns(step: ToolStep, r: string, c: string) {
    step.requestId == r && step.callId == c
  }

  /** Step i made this call, and nothing later concerned it. */
  ghost predicate LatestCall(steps: seq<ToolStep>, r: string, c: string, i: int, sender: Conn) {
    0 <= i < |steps| && steps[i] == Call(r, c, sender) && forall j :: i < j < |steps| ==> !Concerns(steps[j], r, c)
  }

  /** A result for this call goes to a connection exactly when that one made the call and is there. */
  ghost predicate AnswersItsCaller(steps: seq<ToolStep>, r: string, c: string, connected: set<Conn>, to: Conn) {
    OutcomeOf(Run(AllKeyed(steps)), ToolKey(r, c), connected) == Delivered(to) <==>
    to in connected && exists i :: LatestCall(steps, r, c, i, to)
  }

  ghost predicate UsesOnly(steps: seq<ToolStep>, ids: set<string>) {
    forall i :: 0 <= i < |steps| ==> steps[i].requestId in ids
  }

  ghost predicate Unambiguous(ids: set<string>) {
    forall r1, r2 :: r1 in ids && r2 in ids ==> !Confusable(r1, r2)
  }

  /**
   * Results always find the connection that made the call, in every run over the given request
   * ids, exactly when none of these ids continues another one with a colon.
   */
  lemma ResultsFindTheirCallers(ids: set<string>)
    ensures (forall steps, r, c, connected, to :: UsesOnly(steps, ids) && r in ids ==>
               AnswersItsCaller(steps, r, c, connected, to)) <==> Unambiguous(ids)
  {
    if Unambiguous(ids) {
      forall steps, r, c, connected, to | UsesOnly(steps, ids) && r in ids
        ensures AnswersItsCaller(steps, r, c, connected, to)
      {
        UnambiguousIsAnswered(steps, ids, r, c, connected, to);
      }
    } else {
      var r1, r2 :| r1 in ids && r2 in ids && r1 + ":" <= r2;
      Misdelivered(r1, r2);
    }
  }

  lemma UnambiguousIsAnswered(steps: seq<ToolStep>, ids: set<string>, r: string, c: string,
                              connected: set<Conn>, to: Conn)
    requires Unambiguous(ids) && UsesOnly(steps, ids) && r in ids
    ensures AnswersItsCaller(steps, r, c, connected, to)
  {
    DeliveryGoesToLatestCaller(AllKeyed(steps), ToolKey(r, c), connected, to);
    forall j | 0 <= j < |steps| ensures AllKeyed(steps)[j].key == ToolKey(r, c) <==> Concerns(steps[j], r, c) {
      ToolKeyDetermines(steps[j].requestId, steps[j].callId, r, c);
    }
    forall i ensures LatestStore(AllKeyed(steps), ToolKey(r, c), i, to) <==> LatestCall(steps, r, c, i, to) {
    }
  }

  /** Two calls, of which the second takes the place of the first: the first one's result goes astray. */
  lemma Misdelivered(r1: string, r2: string)
    requires r1 + ":" <= r2
    ensures var c1 := r2[|r1| + 1..] + ":";
            !AnswersItsCaller([Call(r1, c1, 0), Call(r2, "", 1)], r1, c1, {1}, 1)
  {
    var c1 := r2[|r1| + 1..] + ":";
    var steps := [Call(r1, c1, 0), Call(r2, "", 1)];
    ContinuedIsShared(r1, r2, "");
    assert c1 + "" == c1;
    assert LatestStore(AllKeyed(steps), ToolKey(r1, c1), 1, 1);
    DeliveryGoesToLatestCaller(AllKeyed(steps), ToolKey(r1, c1), {1}, 1);
  }

  // ---- choosing an executor ----

  function Connected(conns: seq<Conn>, connected: set<Conn>): (r: seq<Conn>)
    ensures forall c :: c in r <==> c in conns && c in connected
  {
    if conns == [] then []
    else
      var init, c := Connected(conns[..|conns| - 1], connected), conns[|conns| - 1];
      if c in connected then init + [c] else init
  }

  /** The executors that announced the tool. */
  function Capable(conns: seq<Conn>, tools: map<Conn, seq<string>>, name: string): (r: seq<Conn>)
    ensures forall c :: c in r <==> c in conns && c in tools && name in tools[c]
  {
    if conns == [] then []
    else
      var init, c := Capable(conns[..|conns| - 1], tools, name), conns[|conns| - 1];
      if c in tools && name in tools[c] then init + [c] else init
  }

  function Pool(executors: seq<Conn>, tools: map<Conn, seq<string>>, name: string): seq<Conn> {
    var capable := Capable(executors, tools, name);
    if capable == [] then executors else capable
  }

  /** The next position in a pool, from wherever the last call left off. */
  function NextTurn(last: nat, size: nat): (r: nat)
    requires size > 0
    ensures r < size
  {
    (last + 1) % size
  }

  /** What a tool call reads and leaves of the executors. */
  datatype Turn = Turn(executors: seq<Conn>, index: nat)

  /** What else decides whom it goes to: who is connected, who announced what, and the tool. */
  datatype Setting = Setting(connected: set<Conn>, tools: map<Conn, seq<string>>, name: string)

  function TurnPool(t: Turn, at: Setting): seq<Conn> {
    Pool(Connected(t.executors, at.connected), at.tools, at.name)
  }

  function AfterTurn(t: Turn, at: Setting): Turn {
    var pool := TurnPool(t, at);
    Turn(Connected(t.executors, at.connected), if pool == [] then t.index else NextTurn(t.index, |pool|))
  }

  function ChosenInTurn(t: Turn, at: Setting): Option<Conn> {
    var pool := TurnPool(t, at);
    if pool == [] then None else Some(pool[NextTurn(t.index, |pool|)])
  }

  class WsChatController {
    var executors: seq<Conn>
    var execRrIdx: nat
    var tools: map<Conn, seq<string>>
    var pendingTools: map<string, Conn>
    var pendingAgents: map<string, Conn>
    var sessions: map<string, Conn>

    constructor ()
      ensures executors == [] && execRrIdx == 0 && tools == map[] && sessions == map[]
      ensures pendingTools == Run([]) && pendingAgents == Run([])
    {
      executors, execRrIdx, tools, pendingTools, pendingAgents, sessions := [], 0, map[], map[], map[], map[];
    }

    method Connect(session: string, conn: Conn)
      modifies this`sessions
      ensures sessions == old(sessions)[session := conn]
    {
      sessions := sessions[session := conn];
    }

    method RegisterExecutor(conn: Conn, names: seq<string>)
      modifies this`tools, this`executors
      ensures executors == old(executors) + [conn]
      ensures tools == old(tools)[conn := (if conn in old(tools) then old(tools)[conn] else []) + names]
    {
      tools := tools[conn := (if conn in tools then tools[conn] else []) + names];
      executors := executors + [conn];
    }

    /** Forget executors that went away. */
    method DropDisconnected(connected: set<Conn>)
      modifies this`executors
      ensures executors == Connected(old(executors), connected)
    {
      var kept := [];
      for i := 0 to |executors|
        invariant kept == Connected(executors[..i], connected)
      {
        assert executors[..i + 1][..i] == executors[..i];
        if executors[i] in connected {
          kept := kept + [executors[i]];
        }
      }
      assert executors[..|executors|] == executors;
      executors := kept;
    }

    method CapableExecutors(name: string) returns (capable: seq<Conn>)
      ensures capable == Capable(executors, tools, name)
    {
      capable := [];
      for i := 0 to |executors|
        invariant capable == Capable(executors[..i], tools, name)
      {
        assert executors[..i + 1][..i] == executors[..i];
        if executors[i] in tools && name in tools[executors[i]] {
          capable := capable + [executors[i]];
        }
      }
      assert executors[..|executors|] == executors;
    }

    /**
     * Hand a tool call to the next executor in turn of those that know the tool, or of all when
     * none does; the sender then waits under the call's key. With no executor left nothing is stored.
     */
    method RouteToolCall(sender: Conn, requestId: string, callId: string, name: string, connected: set<Conn>)
      returns (executor: Option<Conn>)
      modifies this`executors, this`execRrIdx, this`pendingTools
      ensures var t, at := Turn(old(executors), old(execRrIdx)), Setting(connected, tools, name);
              Turn(executors, execRrIdx) == AfterTurn(t, at) && executor == ChosenInTurn(t, at)
      ensures pendingTools == if executor.None? then old(pendingTools)
                              else Next(old(pendingTools), Store(ToolKey(requestId, callId), sender))
    {
      DropDisconnected(connected);
      var capable := CapableExecutors(name);
      var pool := if capable == [] then executors else capable;
      if pool == [] {
        return None;
      }
      execRrIdx := NextTurn(execRrIdx, |pool|);
      executor := Some(pool[execRrIdx]);
      pendingTools := pendingTools[ToolKey(requestId, callId) := sender];
    }

    method RouteToolResult(requestId: string, callId: string, connected: set<Conn>) returns (outcome: Outcome)
      modifies this`pendingTools
      ensures outcome == OutcomeOf(old(pendingTools), ToolKey(requestId, callId), connected)
      ensures pendingTools == Next(old(pendingTools), Resolve(ToolKey(requestId, callId), connected))
    {
      var key := ToolKey(requestId, callId);
      if key !in pendingTools {
        return NoPending;
      }
      var target := pendingTools[key];
      pendingTools := pendingTools - {key};
      if target !in connected {
        return CallerGone;
      }
      outcome := Delivered(target);
    }

    /** Forward an agent call to the target's connection, if the lookup found a target. */
    method RouteAgentCall(caller: Conn, callId: string, target: Option<string>) returns (sentTo: Option<Conn>)
      modifies this`pendingAgents
      ensures if target.None? then sentTo == None && pendingAgents == old(pendingAgents)
              else && pendingAgents == Next(old(pendingAgents), Store(callId, caller))
                   && sentTo == if target.value in sessions then Some(sessions[target.value]) else None
    {
      if target.None? {
        return None;
      }
      pendingAgents := pendingAgents[callId := caller];
      sentTo := if target.value in sessions then Some(sessions[target.value]) else None;
    }

    method RouteAgentResult(callId: string, connected: set<Conn>) returns (outcome: Outcome)
      modifies this`pendingAgents
      ensures outcome == OutcomeOf(old(pendingAgents), callId, connected)
      ensures pendingAgents == Next(old(pendingAgents), Resolve(callId, connected))
    {
      if callId !in pendingAgents {
        return NoPending;
      }
      var caller := pendingAgents[callId];
      pendingAgents := pendingAgents - {callId};
      if caller !in connected {
        return CallerGone;
      }
      outcome := Delivered(caller);
    }

    /** A closed connection leaves the executor pool and the session map; callers stay in the books. */
    method ConnectionClosed(conn: Conn, session: string, isExecutor: bool)
      modifies this`executors, this`sessions
      ensures executors == if isExecutor then Without(old(executors), conn) else old(executors)
      ensures sessions == old(sessions) - {session}
    {
      if isExecutor {
        executors := Without(executors, conn);
      }
      sessions := sessions - {session};
    }
  }

  /**
   * The chosen executor is registered and connected, and knows the tool whenever any connected
   * registered executor does.
   */
  lemma ChosenExecutor(executors: seq<Conn>, connected: set<Conn>, tools: map<Conn, seq<string>>, name: string, i: nat)
    requires i < |Pool(Connected(executors, connected), tools, name)|
    ensures var c := Pool(Connected(executors, connected), tools, name)[i];
            && c in executors && c in connected
            && ((exists e :: e in executors && e in connected && e in tools && name in tools[e]) ==>
                  c in tools && name in tools[c])
  {
    var live := Connected(executors, connected);
    assert Pool(live, tools, name)[i] in Pool(live, tools, name);
    if e :| e in executors && e in connected && e in tools && name in tools[e] {
      assert e in Capable(live, tools, name);
    }
  }

  /** The position after some calls on an unchanging pool. */
  function IndexAfter(start: nat, size: nat, calls: nat): nat
    requires size > 0
  {
    if calls == 0 then start else NextTurn(IndexAfter(start, size, calls - 1), size)
  }

  lemma WrapOne(v: nat, size: nat)
    requires v < size
    ensures NextTurn(v, size) == if v + 1 == size then 0 else v + 1
  {
  }

  /** d calls later the position is d further on, wrapping once around the pool. */
  lemma {:induction false} IndexAdvances(start: nat, size: nat, i: nat, d: nat)
    requires size > 0 && i > 0 && d < size
    ensures IndexAfter(start, size, i) < size
    ensures var x := IndexAfter(start, size, i) + d;
            IndexAfter(start, size, i + d) == if x < size then x else x - size
  {
    if d > 0 {
      IndexAdvances(start, size, i, d - 1);
      var before := IndexAfter(start, size, i + d - 1);
      WrapOne(before, size);
      assert IndexAfter(start, size, i + d) == NextTurn(before, size);
    }
  }

  /**
   * On an unchanging pool of n executors any n consecutive calls reach n different positions, so
   * each executor is chosen exactly once per round.
   */
  lemma RoundVisitsAll(start: nat, size: nat, i: nat, j: nat)
    requires size > 0 && 0 < i < j <= i + size - 1
    ensures IndexAfter(start, size, i) != IndexAfter(start, size, j)
  {
    IndexAdvances(start, size, i, j - i);
  }
}
