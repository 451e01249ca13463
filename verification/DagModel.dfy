/** Workflows of dependent stages, the state of one execution, and what its runs guarantee. */
module DagModel {
  import opened Wrappers
  import opened Sequences

  datatype Stage = Stage(id: string, capability: string, dependsOn: seq<string>)

  datatype Status = PENDING | RUNNING | DONE | FAILED

  datatype DagState = DagState(status: map<string, Status>, completed: set<string>)

  /** The first stage with that id decides. */
  function StageOf(stages: seq<Stage>, id: string): Option<Stage> {
    if stages == [] then None else if stages[0].id == id then Some(stages[0]) else StageOf(stages[1..], id)
  }

  function Deps(stages: seq<Stage>, id: string): seq<string> {
    match StageOf(stages, id) case None => [] case Some(s) => s.dependsOn
  }

  /** a names d among its own dependencies. */
  predicate DependsOn(stages: seq<Stage>, a: string, d: string) {
    d in Deps(stages, a)
  }

  function Ids(stages: seq<Stage>): set<string> {
    set i | 0 <= i < |stages| :: stages[i].id
  }

  predicate DepsMet(stages: seq<Stage>, completed: set<string>, id: string) {
    StageOf(stages, id).Some? && forall d | d in Deps(stages, id) :: d in completed
  }

  function Ready(stages: seq<Stage>, st: DagState): (r: set<string>)
    ensures forall id :: id in r <==> id in st.status && st.status[id].PENDING? && DepsMet(stages, st.completed, id)
  {
    set id | id in st.status && st.status[id].PENDING? && DepsMet(stages, st.completed, id)
  }

  function Started(stages: seq<Stage>): DagState {
    DagState(map id | id in Ids(stages) :: PENDING, {})
  }

  datatype Outcome = Outcome(id: string, success: bool)

  function Recorded(st: DagState, o: Outcome): DagState {
    if o.id !in st.status then st
    else if o.success then DagState(st.status[o.id := DONE], st.completed + {o.id})
    else st.(status := st.status[o.id := FAILED])
  }

  predicate Complete(st: DagState) {
    forall id :: id in st.status ==> !st.status[id].PENDING? && !st.status[id].RUNNING?
  }

  // ---- runs ----

  function After(stages: seq<Stage>, os: seq<Outcome>): DagState {
    if os == [] then Started(stages) else Recorded(After(stages, os[..|os| - 1]), os[|os| - 1])
  }

  /** Each recorded stage was on offer when its outcome was recorded. */
  ghost predicate IsRun(stages: seq<Stage>, os: seq<Outcome>) {
    os == [] || (IsRun(stages, os[..|os| - 1]) && os[|os| - 1].id in Ready(stages, After(stages, os[..|os| - 1])))
  }

  function WithStatus(st: DagState, s: Status): set<string> {
    set id | id in st.status && st.status[id] == s
  }

  ghost predicate MetUnlessPending(stages: seq<Stage>, st: DagState, id: string) {
    id in st.status && !st.status[id].PENDING? ==> DepsMet(stages, st.completed, id)
  }

  /** Statuses and completions agree, and whatever was recorded had its dependencies completed. */
  ghost predicate Sound(stages: seq<Stage>, st: DagState) {
    && st.status.Keys == Ids(stages)
    && WithStatus(st, RUNNING) == {}
    && st.completed == WithStatus(st, DONE)
    && forall id :: MetUnlessPending(stages, st, id)
  }

  lemma {:induction false} RunIsSound(stages: seq<Stage>, os: seq<Outcome>)
    requires IsRun(stages, os)
    ensures Sound(stages, After(stages, os))
    ensures |WithStatus(After(stages, os), PENDING)| + |os| == |Ids(stages)|
  {
    if os == [] {
      assert WithStatus(After(stages, os), PENDING) == Ids(stages);
    } else {
      var before, o := After(stages, os[..|os| - 1]), os[|os| - 1];
      RunIsSound(stages, os[..|os| - 1]);
      RecordKeepsSound(stages, before, o);
    }
  }

  lemma RecordKeepsSound(stages: seq<Stage>, st: DagState, o: Outcome)
    requires Sound(stages, st) && o.id in Ready(stages, st)
    ensures Sound(stages, Recorded(st, o))
    ensures |WithStatus(Recorded(st, o), PENDING)| == |WithStatus(st, PENDING)| - 1
  {
    var after := Recorded(st, o);
    StatusesAfter(st, o);
    forall id ensures MetUnlessPending(stages, after, id) {
      assert MetUnlessPending(stages, st, id);
    }
  }

  /** A result changes the status of its own stage only, and completes it only on success; of an unknown stage, nothing. */
  lemma RecordedExactly(st: DagState, o: Outcome, id: string)
    ensures var after := Recorded(st, o);
            && after.status.Keys == st.status.Keys
            && (id in st.status ==>
                  after.status[id] == if id != o.id then st.status[id] else if o.success then DONE else FAILED)
            && (id in after.completed <==> id in st.completed || (id == o.id && o.id in st.status && o.success))
  {
  }

  /** A workflow counts as complete exactly when every stage is done or failed. */
  lemma CompleteExactly(st: DagState)
    ensures Complete(st) <==> forall id :: id in st.status ==> st.status[id] == DONE || st.status[id] == FAILED
  {
  }

  lemma StatusesAfter(st: DagState, o: Outcome)
    requires o.id in st.status && st.status[o.id].PENDING?
    ensures var after := Recorded(st, o);
            && WithStatus(after, PENDING) == WithStatus(st, PENDING) - {o.id}
            && WithStatus(after, DONE) == WithStatus(st, DONE) + (if o.success then {o.id} else {})
            && WithStatus(after, RUNNING) == WithStatus(st, RUNNING)
  {
  }

  // ---- transitive dependency ----

  ghost predicate IsChain(stages: seq<Stage>, p: seq<string>) {
    forall i :: 0 < i < |p| ==> DependsOn(stages, p[i - 1], p[i])
  }

  ghost predicate ChainBetween(stages: seq<Stage>, p: seq<string>, a: string, b: string) {
    |p| > 1 && p[0] == a && p[|p| - 1] == b && IsChain(stages, p)
  }

  /** a needs b, directly or through other stages. */
  ghost predicate Needs(stages: seq<Stage>, a: string, b: string) {
    exists p :: ChainBetween(stages, p, a, b)
  }

  ghost predicate Acyclic(stages: seq<Stage>) {
    forall a :: !Needs(stages, a, a)
  }

  lemma DirectNeed(stages: seq<Stage>, a: string, b: string)
    requires DependsOn(stages, a, b)
    ensures Needs(stages, a, b)
  {
    assert ChainBetween(stages, [a, b], a, b);
  }

  lemma NeedsTransitive(stages: seq<Stage>, a: string, b: string, c: string)
    requires Needs(stages, a, b) && Needs(stages, b, c)
    ensures Needs(stages, a, c)
  {
    var p :| ChainBetween(stages, p, a, b);
    var q :| ChainBetween(stages, q, b, c);
    var r := p + q[1..];
    forall i | 0 < i < |r| ensures DependsOn(stages, r[i - 1], r[i]) {
      if i >= |p| {
        assert r[i] == q[i - |p| + 1] && r[i - 1] == q[i - |p|];
      }
    }
    assert ChainBetween(stages, r, a, c);
  }

  ghost predicate RankDrops(stages: seq<Stage>, rank: map<string, nat>, a: string, d: string) {
    DependsOn(stages, a, d) ==> a in rank && d in rank && rank[d] < rank[a]
  }

  /** A numbering in which every dependency comes earlier rules cycles out. */
  lemma RankedIsAcyclic(stages: seq<Stage>, rank: map<string, nat>)
    requires forall a, d :: RankDrops(stages, rank, a, d)
    ensures Acyclic(stages)
  {
    forall a ensures !Needs(stages, a, a) {
      if Needs(stages, a, a) {
        var p :| ChainBetween(stages, p, a, a);
        RankFalls(stages, rank, p, |p| - 1);
      }
    }
  }

  lemma {:induction false} RankFalls(stages: seq<Stage>, rank: map<string, nat>, p: seq<string>, i: nat)
    requires forall a, d :: RankDrops(stages, rank, a, d)
    requires IsChain(stages, p) && 0 < i < |p|
    ensures p[0] in rank && p[i] in rank && rank[p[i]] < rank[p[0]]
  {
    assert DependsOn(stages, p[i - 1], p[i]) && RankDrops(stages, rank, p[i - 1], p[i]);
    if i > 1 {
      RankFalls(stages, rank, p, i - 1);
    }
  }

  // ---- safety ----

  lemma {:induction false} ChainIsCompleted(stages: seq<Stage>, st: DagState, p: seq<string>, i: nat)
    requires Sound(stages, st) && IsChain(stages, p) && 0 < i < |p|
    requires DepsMet(stages, st.completed, p[0])
    ensures p[i] in st.completed
  {
    if i > 1 {
      ChainIsCompleted(stages, st, p, i - 1);
      assert MetUnlessPending(stages, st, p[i - 1]) && p[i - 1] in WithStatus(st, DONE);
    }
    assert DependsOn(stages, p[i - 1], p[i]);
  }

  /** A stage is offered only after everything it needs, directly or not, has completed. */
  lemma OfferedAfterAllItNeeds(stages: seq<Stage>, os: seq<Outcome>, id: string, d: string)
    requires IsRun(stages, os) && id in Ready(stages, After(stages, os)) && Needs(stages, id, d)
    ensures d in After(stages, os).completed
  {
    RunIsSound(stages, os);
    var p :| ChainBetween(stages, p, id, d);
    ChainIsCompleted(stages, After(stages, os), p, |p| - 1);
  }

  /** So everything the stage of record i needs had completed before that record. */
  lemma {:induction false} RecordedAfterAllItNeeds(stages: seq<Stage>, os: seq<Outcome>, i: nat, d: string)
    requires IsRun(stages, os) && i < |os| && Needs(stages, os[i].id, d)
    ensures d in After(stages, os[..i]).completed
    decreases |os|
  {
    var init := os[..|os| - 1];
    if i == |os| - 1 {
      OfferedAfterAllItNeeds(stages, init, os[i].id, d);
    } else {
      RecordedAfterAllItNeeds(stages, init, i, d);
      assert init[..i] == os[..i];
    }
  }

  lemma {:induction false} RecordedIsNotPending(stages: seq<Stage>, os: seq<Outcome>, i: nat)
    requires IsRun(stages, os) && i < |os|
    ensures os[i].id in After(stages, os).status && !After(stages, os).status[os[i].id].PENDING?
  {
    if i < |os| - 1 {
      RecordedIsNotPending(stages, os[..|os| - 1], i);
    }
  }

  /** Within a run no stage is recorded twice. */
  lemma RecordedOnce(stages: seq<Stage>, os: seq<Outcome>, i: nat, j: nat)
    requires IsRun(stages, os) && i < j < |os|
    ensures os[i].id != os[j].id
    decreases |os|
  {
    if j < |os| - 1 {
      RecordedOnce(stages, os[..|os| - 1], i, j);
    } else {
      RecordedIsNotPending(stages, os[..|os| - 1], i);
    }
  }

  // ---- recording what was offered earlier ----

  /** The stage of record n was on offer after the first j records and was not recorded since. */
  ghost predicate WasOffered(stages: seq<Stage>, os: seq<Outcome>, n: int, j: int) {
    && 0 <= j <= n < |os| && os[n].id in Ready(stages, After(stages, os[..j]))
    && forall m :: j <= m < n ==> os[m].id != os[n].id
  }

  ghost predicate OfferedBefore(stages: seq<Stage>, os: seq<Outcome>, n: int) {
    exists j :: WasOffered(stages, os, n, j)
  }

  /** Every record is of a stage that some earlier look at the offers returned and that was not recorded yet. */
  ghost predicate FollowsOffers(stages: seq<Stage>, os: seq<Outcome>) {
    forall n :: 0 <= n < |os| ==> OfferedBefore(stages, os, n)
  }

  /** A stage on offer stays on offer until it is itself recorded. */
  lemma {:induction false} OfferStands(stages: seq<Stage>, os: seq<Outcome>, id: string, j: nat)
    requires j <= |os| && id in Ready(stages, After(stages, os[..j]))
    requires forall m :: j <= m < |os| ==> os[m].id != id
    ensures id in Ready(stages, After(stages, os))
    decreases |os|
  {
    if j == |os| {
      assert os[..j] == os;
    } else {
      var init := os[..|os| - 1];
      assert init[..j] == os[..j];
      OfferStands(stages, init, id, j);
    }
  }

  /** What was offered before a record does not depend on the records after it. */
  lemma OfferedInPrefix(stages: seq<Stage>, os: seq<Outcome>, i: nat)
    requires i < |os| - 1
    ensures OfferedBefore(stages, os, i) <==> OfferedBefore(stages, os[..|os| - 1], i)
  {
    var init := os[..|os| - 1];
    forall j ensures WasOffered(stages, os, i, j) <==> WasOffered(stages, init, i, j) {
      if 0 <= j <= i {
        assert init[..j] == os[..j];
      }
    }
  }

  /** The last record is of a stage offered before exactly when the stage is still on offer. */
  lemma OfferedIsReady(stages: seq<Stage>, os: seq<Outcome>)
    requires os != []
    ensures var init := os[..|os| - 1];
            OfferedBefore(stages, os, |os| - 1) <==> os[|os| - 1].id in Ready(stages, After(stages, init))
  {
    var n := |os| - 1;
    var init := os[..n];
    if OfferedBefore(stages, os, n) {
      var j :| WasOffered(stages, os, n, j);
      assert init[..j] == os[..j];
      OfferStands(stages, init, os[n].id, j);
    }
    if os[n].id in Ready(stages, After(stages, init)) {
      assert WasOffered(stages, os, n, n);
    }
  }

  /**
   * A gateway that records stages in any order and any time after they were offered makes exactly
   * the runs in which each stage is on offer when it is recorded.
   */
  lemma {:induction false} RunsFollowOffers(stages: seq<Stage>, os: seq<Outcome>)
    ensures FollowsOffers(stages, os) <==> IsRun(stages, os)
  {
    if os != [] {
      var n := |os| - 1;
      var init := os[..n];
      RunsFollowOffers(stages, init);
      OfferedIsReady(stages, os);
      forall i | 0 <= i < n ensures OfferedBefore(stages, os, i) <==> OfferedBefore(stages, init, i) {
        OfferedInPrefix(stages, os, i);
      }
      if FollowsOffers(stages, os) {
        forall i | 0 <= i < n ensures OfferedBefore(stages, init, i) {
          assert OfferedBefore(stages, os, i);
        }
        assert OfferedBefore(stages, os, n);
      }
    }
  }

  // ---- progress and quiescence ----

  /** d can never complete: it failed, or no stage has that id. */
  predicate Lost(st: DagState, d: string) {
    d !in st.status || st.status[d].FAILED?
  }

  ghost predicate Doomed(stages: seq<Stage>, st: DagState, id: string) {
    exists d :: Needs(stages, id, d) && Lost(st, d)
  }

  ghost function NeededWithin(stages: seq<Stage>, within: set<string>, s: string): set<string> {
    set t | t in within && Needs(stages, s, t)
  }

  ghost predicate WaitsForNone(stages: seq<Stage>, within: set<string>, s: string) {
    s in within && forall d :: DependsOn(stages, s, d) ==> d !in within
  }

  /** In an acyclic workflow every nonempty set of stages has one that waits for none of the others. */
  lemma {:induction false} SomeoneIsFree(stages: seq<Stage>, within: set<string>, s: string)
    requires Acyclic(stages) && s in within
    ensures exists x :: WaitsForNone(stages, within, x)
    decreases |NeededWithin(stages, within, s)|
  {
    if !WaitsForNone(stages, within, s) {
      var d :| DependsOn(stages, s, d) && d in within;
      NeededShrinks(stages, within, s, d);
      SomeoneIsFree(stages, within, d);
    }
  }

  lemma NeededShrinks(stages: seq<Stage>, within: set<string>, s: string, d: string)
    requires Acyclic(stages) && d in within && DependsOn(stages, s, d)
    ensures |NeededWithin(stages, within, d)| < |NeededWithin(stages, within, s)|
  {
    DirectNeed(stages, s, d);
    var ours, theirs := NeededWithin(stages, within, s), NeededWithin(stages, within, d);
    forall t | t in theirs ensures t in ours {
      NeedsTransitive(stages, s, d, t);
    }
    assert d in ours && d !in theirs;
    SubsetCardinality(theirs, ours);
  }

  /** A pending stage that nothing dooms implies some stage on offer. */
  lemma ProgressUnlessDoomed(stages: seq<Stage>, st: DagState, id: string)
    requires Acyclic(stages) && Sound(stages, st)
    requires id in st.status && st.status[id].PENDING? && !Doomed(stages, st, id)
    ensures Ready(stages, st) != {}
  {
    var waiting := set s | s in WithStatus(st, PENDING) && !Doomed(stages, st, s);
    SomeoneIsFree(stages, waiting, id);
    var x :| WaitsForNone(stages, waiting, x);
    StageIsKnown(stages, x);
    forall d | d in Deps(stages, x) ensures d in st.completed {
      assert DependsOn(stages, x, d);
      DirectNeed(stages, x, d);
      assert !Lost(st, d);
      if Doomed(stages, st, d) {
        var lost :| Needs(stages, d, lost) && Lost(st, lost);
        NeedsTransitive(stages, x, d, lost);
      }
      assert d !in WithStatus(st, RUNNING) && d !in waiting;
    }
    assert x in Ready(stages, st);
  }

  lemma {:induction false} StageIsKnown(stages: seq<Stage>, id: string)
    requires id in Ids(stages)
    ensures StageOf(stages, id).Some?
  {
    if stages[0].id != id {
      var i :| 0 <= i < |stages| && stages[i].id == id;
      assert stages[1..][i - 1].id == id;
      StageIsKnown(stages[1..], id);
    }
  }

  /** What needs something lost is never offered and stays pending. */
  lemma DoomedStaysPending(stages: seq<Stage>, st: DagState, id: string)
    requires Sound(stages, st) && id in st.status && Doomed(stages, st, id)
    ensures st.status[id].PENDING? && id !in Ready(stages, st)
  {
    var d :| Needs(stages, id, d) && Lost(st, d);
    var p :| ChainBetween(stages, p, id, d);
    assert MetUnlessPending(stages, st, id);
    if DepsMet(stages, st.completed, id) {
      ChainIsCompleted(stages, st, p, |p| - 1);
    }
  }

  /**
   * When nothing is on offer any more, the stages still pending are exactly those that need a
   * failed stage, or a stage that does not exist.
   */
  lemma Quiescence(stages: seq<Stage>, os: seq<Outcome>, id: string)
    requires Acyclic(stages) && IsRun(stages, os)
    requires Ready(stages, After(stages, os)) == {} && id in Ids(stages)
    ensures var st := After(stages, os);
            id in st.status && (st.status[id].PENDING? <==> Doomed(stages, st, id))
  {
    var st := After(stages, os);
    RunIsSound(stages, os);
    if st.status[id].PENDING? && !Doomed(stages, st, id) {
      ProgressUnlessDoomed(stages, st, id);
    }
    if Doomed(stages, st, id) {
      DoomedStaysPending(stages, st, id);
    }
  }

  /** Every dependency is the id of some stage. */
  ghost predicate Closed(stages: seq<Stage>) {
    forall id, d :: DependsOn(stages, id, d) ==> d in Ids(stages)
  }

  /**
   * Without failures a well-formed acyclic workflow always has a stage on offer until it is
   * complete, and it is complete after exactly as many records as there are stages.
   */
  lemma ProgressToCompletion(stages: seq<Stage>, os: seq<Outcome>)
    requires Acyclic(stages) && Closed(stages) && IsRun(stages, os)
    requires forall i :: 0 <= i < |os| ==> os[i].success
    ensures Ready(stages, After(stages, os)) == {} <==> Complete(After(stages, os))
    ensures Complete(After(stages, os)) <==> |os| == |Ids(stages)|
  {
    var st := After(stages, os);
    RunIsSound(stages, os);
    CompleteIsNothingPending(stages, st);
    if !Complete(st) {
      var id :| id in WithStatus(st, PENDING);
      NothingLost(stages, os);
      NotDoomed(stages, st, id);
      ProgressUnlessDoomed(stages, st, id);
    }
  }

  lemma CompleteIsNothingPending(stages: seq<Stage>, st: DagState)
    requires Sound(stages, st)
    ensures Complete(st) <==> WithStatus(st, PENDING) == {}
  {
    forall id | id in st.status
      ensures !st.status[id].RUNNING? && (st.status[id].PENDING? <==> id in WithStatus(st, PENDING))
    {
      assert id !in WithStatus(st, RUNNING);
    }
    if Complete(st) {
      assert forall id :: id !in WithStatus(st, PENDING);
    }
  }

  lemma NotDoomed(stages: seq<Stage>, st: DagState, id: string)
    requires Closed(stages) && Sound(stages, st) && WithStatus(st, FAILED) == {}
    ensures !Doomed(stages, st, id)
  {
    forall d | Needs(stages, id, d) ensures !Lost(st, d) {
      var p :| ChainBetween(stages, p, id, d);
      assert DependsOn(stages, p[|p| - 2], d);
      assert d !in WithStatus(st, FAILED);
    }
  }

  lemma {:induction false} NothingLost(stages: seq<Stage>, os: seq<Outcome>)
    requires IsRun(stages, os) && forall i :: 0 <= i < |os| ==> os[i].success
    ensures WithStatus(After(stages, os), FAILED) == {}
  {
    if os != [] {
      NothingLost(stages, os[..|os| - 1]);
      var before := After(stages, os[..|os| - 1]);
      assert WithStatus(After(stages, os), FAILED) <= WithStatus(before, FAILED);
    }
  }

  /** With failures, completion is reached exactly when nothing needs a lost stage. */
  lemma CompletionWithFailures(stages: seq<Stage>, os: seq<Outcome>)
    requires Acyclic(stages) && IsRun(stages, os) && Ready(stages, After(stages, os)) == {}
    ensures Complete(After(stages, os)) <==>
            forall id :: id in Ids(stages) ==> !Doomed(stages, After(stages, os), id)
  {
    var st := After(stages, os);
    RunIsSound(stages, os);
    forall id | id in Ids(stages) ensures st.status[id].PENDING? <==> Doomed(stages, st, id) {
      Quiescence(stages, os, id);
      assert id !in WithStatus(st, RUNNING);
    }
  }
}
