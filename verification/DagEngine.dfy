/** One workflow execution as the orchestrator keeps it, updated in place. */
module DagEngine {
  import opened Wrappers
  import opened Sequences
  import opened DagModel

  class DagRun {
    const stages: seq<Stage>
    var pendingStages: map<string, Status>
    var completedStages: set<string>
    var stageResults: map<string, string>

    ghost function State(): DagState
      reads this
    {
      DagState(pendingStages, completedStages)
    }

    constructor (stages: seq<Stage>)
      ensures this.stages == stages && State() == Started(stages) && stageResults == map[]
    {
      this.stages := stages;
      completedStages, stageResults := {}, map[];
      pendingStages := map[];
      new;
      for i := 0 to |stages|
        invariant State() == Started(stages[..i]) && stageResults == map[]
      {
        assert stages[..i + 1] == stages[..i] + [stages[i]];
        IdsOfPush(stages[..i], stages[i]);
        pendingStages := pendingStages[stages[i].id := PENDING];
      }
      assert stages[..|stages|] == stages;
    }

    method DepsSatisfied(stageId: string) returns (ok: bool)
      ensures ok == DepsMet(stages, completedStages, stageId)
    {
      for i := 0 to |stages|
        invariant StageOf(stages, stageId) == StageOf(stages[i..], stageId)
      {
        assert stages[i..][1..] == stages[i + 1..];
        if stages[i].id == stageId {
          var deps := stages[i].dependsOn;
          for j := 0 to |deps|
            invariant forall d :: d in deps[..j] ==> d in completedStages
          {
            if deps[j] !in completedStages {
              return false;
            }
          }
          assert deps[..|deps|] == deps;
          return true;
        }
      }
      return false;
    }

    /** The stages on offer, each once, in whatever order the table is walked. */
    method NextStages() returns (ready: seq<string>)
      ensures NoDup(ready) && Elements(ready) == Ready(stages, State())
    {
      ready := [];
      var todo := pendingStages.Keys;
      while todo != {}
        invariant todo <= pendingStages.Keys && NoDup(ready)
        invariant Elements(ready) == Ready(stages, State()) - todo
      {
        var id :| id in todo;
        todo := todo - {id};
        if pendingStages[id] == PENDING {
          var ok := DepsSatisfied(id);
          if ok {
            assert id !in Elements(ready);
            ready := ready + [id];
          }
        }
      }
    }

    method RecordResult(stageId: string, resultText: string, success: bool)
      modifies this
      ensures State() == Recorded(old(State()), Outcome(stageId, success))
      ensures stageResults == if stageId in old(pendingStages) && success
                              then old(stageResults)[stageId + "_result" := resultText] else old(stageResults)
    {
      if stageId in pendingStages {
        if success {
          pendingStages := pendingStages[stageId := DONE];
          completedStages := completedStages + {stageId};
          stageResults := stageResults[stageId + "_result" := resultText];
        } else {
          pendingStages := pendingStages[stageId := FAILED];
        }
      }
    }

    method IsComplete() returns (done: bool)
      ensures done == Complete(State())
    {
      var todo := pendingStages.Keys;
      while todo != {}
        invariant todo <= pendingStages.Keys
        invariant forall id :: id in pendingStages && id !in todo ==>
                    pendingStages[id] != PENDING && pendingStages[id] != RUNNING
      {
        var id :| id in todo;
        todo := todo - {id};
        if pendingStages[id] == PENDING || pendingStages[id] == RUNNING {
          return false;
        }
      }
      return true;
    }
  }

  lemma IdsOfPush(stages: seq<Stage>, s: Stage)
    ensures Ids(stages + [s]) == Ids(stages) + {s.id}
  {
    var more := stages + [s];
    assert more[|stages|] == s;
    forall id | id in Ids(stages) ensures id in Ids(more) {
      var i :| 0 <= i < |stages| && stages[i].id == id;
      assert more[i].id == id;
    }
  }

  // ---- the workflows the orchestrator ships ----

  const RESEARCH_THEN_SUMMARIZE := [
    Stage("research", "web_research", []),
    Stage("summarize", "summarize", ["research"])]

  const PARALLEL_TRANSLATE := [
    Stage("translate_cn", "translate", []),
    Stage("translate_ja", "translate", []),
    Stage("review", "review_translation", ["translate_cn", "translate_ja"])]

  const ANALYZE_THEN_RECOMMEND := [
    Stage("analyze", "data_analysis", []),
    Stage("recommend", "recommendation", ["analyze"])]

  /** A workflow whose stages only name earlier stages is well formed and acyclic. */
  lemma ForwardWorkflow(stages: seq<Stage>, rank: map<string, nat>)
    requires forall i :: 0 <= i < |stages| ==> EarlierOnly(stages, rank, i)
    ensures Acyclic(stages) && Closed(stages)
  {
    forall a, d ensures RankDrops(stages, rank, a, d) && (DependsOn(stages, a, d) ==> d in Ids(stages)) {
      if DependsOn(stages, a, d) {
        var i := StagePosition(stages, a);
        assert EarlierOnly(stages, rank, i);
      }
    }
    RankedIsAcyclic(stages, rank);
  }

  ghost predicate EarlierOnly(stages: seq<Stage>, rank: map<string, nat>, i: int)
    requires 0 <= i < |stages|
  {
    && stages[i].id in rank
    && forall d :: d in stages[i].dependsOn ==> d in rank && rank[d] < rank[stages[i].id] && d in Ids(stages)
  }

  lemma {:induction false} StagePosition(stages: seq<Stage>, id: string) returns (i: nat)
    requires StageOf(stages, id).Some?
    ensures i < |stages| && stages[i].id == id && StageOf(stages, id) == Some(stages[i])
  {
    if stages[0].id == id {
      i := 0;
    } else {
      i := StagePosition(stages[1..], id);
      i := i + 1;
    }
  }

  lemma ShippedWorkflowsAreWellFormed()
    ensures Acyclic(RESEARCH_THEN_SUMMARIZE) && Closed(RESEARCH_THEN_SUMMARIZE)
    ensures Acyclic(PARALLEL_TRANSLATE) && Closed(PARALLEL_TRANSLATE)
    ensures Acyclic(ANALYZE_THEN_RECOMMEND) && Closed(ANALYZE_THEN_RECOMMEND)
  {
    var w := RESEARCH_THEN_SUMMARIZE;
    assert w[0].id in Ids(w);
    ForwardWorkflow(w, map["research" := 0, "summarize" := 1]);
    w := PARALLEL_TRANSLATE;
    assert w[0].id in Ids(w) && w[1].id in Ids(w);
    ForwardWorkflow(w, map["translate_cn" := 0, "translate_ja" := 0, "review" := 1]);
    w := ANALYZE_THEN_RECOMMEND;
    assert w[0].id in Ids(w);
    ForwardWorkflow(w, map["analyze" := 0, "recommend" := 1]);
  }
}
