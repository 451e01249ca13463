/**
 * Fairness of the balancer's own weight map, with names that nodes may share: what is shared out
 * fairly is one share per name, whichever of its nodes is picked.
 */
module NameFairness {
  import opened Wrappers
  import opened LoadBalancing
  import opened Fairness

  /** What the first n nodes of this name take part with. */
  function ShareOfName(nodes: seq<BackendNode>, name: string, n: nat): int
    requires n <= |nodes|
  {
    if n == 0 then 0
    else ShareOfName(nodes, name, n - 1) + if nodes[n - 1].name == name && nodes[n - 1].healthy then nodes[n - 1].weight else 0
  }

  function NameShare(nodes: seq<BackendNode>, name: string): int {
    ShareOfName(nodes, name, |nodes|)
  }

  /** The node that pick number t of a fresh balancer chooses. */
  function MapPick(nodes: seq<BackendNode>, t: nat): Option<nat> {
    Scanned(nodes, MapAfter(nodes, t), |nodes|)
  }

  predicate PicksName(nodes: seq<BackendNode>, t: nat, name: string) {
    var b := MapPick(nodes, t);
    b.Some? && nodes[b.value].name == name
  }

  /** How many of the first t picks choose a node of this name. */
  function NamePicks(nodes: seq<BackendNode>, t: nat, name: string): nat {
    if t == 0 then 0 else NamePicks(nodes, t - 1, name) + if PicksName(nodes, t - 1, name) then 1 else 0
  }

  // ---- one pick ----

  lemma {:induction false} RaisedByShare(nodes: seq<BackendNode>, cw: map<string, int>, name: string, n: nat)
    requires n <= |nodes|
    ensures Level(RaisedMap(nodes, cw, n), name) == Level(cw, name) + ShareOfName(nodes, name, n)
  {
    if n > 0 {
      RaisedByShare(nodes, cw, name, n - 1);
    }
  }

  lemma PaidByShare(nodes: seq<BackendNode>, cw: map<string, int>, name: string)
    ensures var b := Scanned(nodes, cw, |nodes|);
            Level(PaidMap(nodes, cw), name) == Level(cw, name) + NameShare(nodes, name)
              - if b.Some? && nodes[b.value].name == name then TotalWeight(nodes) else 0
  {
    RaisedByShare(nodes, cw, name, |nodes|);
  }

  /** No healthy node's name stands higher, after the turns of the first n nodes, than the best one's. */
  ghost predicate IsHighest(nodes: seq<BackendNode>, m: map<string, int>, n: nat, b: nat)
    requires n <= |nodes| && b < |nodes|
  {
    forall i :: 0 <= i < n && nodes[i].healthy ==> Level(m, nodes[i].name) <= Level(m, nodes[b].name)
  }

  /**
   * Candidates are compared while the counters are still being raised, and nodes of one name share
   * a counter. Still the chosen name has the highest counter of all in the end.
   */
  lemma {:induction false} ScannedIsHighest(nodes: seq<BackendNode>, cw: map<string, int>, n: nat)
    requires n <= |nodes| && WeightsNotNegative(nodes) && Scanned(nodes, cw, n).Some?
    ensures IsHighest(nodes, RaisedMap(nodes, cw, n), n, Scanned(nodes, cw, n).value)
  {
    if Scanned(nodes, cw, n - 1).Some? {
      ScannedIsHighest(nodes, cw, n - 1);
    } else {
      ScannedHealth(nodes, cw, n - 1);
    }
  }

  lemma {:induction false} NameHasShare(nodes: seq<BackendNode>, name: string, n: nat)
    requires n <= |nodes| && ShareOfName(nodes, name, n) > 0
    ensures exists i :: 0 <= i < n && nodes[i].healthy && nodes[i].name == name
  {
    if nodes[n - 1].name != name || Share(nodes[n - 1]) <= 0 {
      NameHasShare(nodes, name, n - 1);
    }
  }

  lemma {:induction false} ShareNotNegative(nodes: seq<BackendNode>, name: string, n: nat)
    requires n <= |nodes| && WeightsNotNegative(nodes)
    ensures ShareOfName(nodes, name, n) >= 0
  {
    if n > 0 {
      ShareNotNegative(nodes, name, n - 1);
    }
  }

  // ---- every prefix ----

  /** Every counter is t shares of its name minus one total weight per pick of the name. */
  lemma {:induction false} NameLevelIsLag(nodes: seq<BackendNode>, t: nat, name: string)
    ensures Level(MapAfter(nodes, t), name) == t * NameShare(nodes, name) - TotalWeight(nodes) * NamePicks(nodes, t, name)
  {
    if t > 0 {
      var total := TotalWeight(nodes);
      NameLevelIsLag(nodes, t - 1, name);
      PaidByShare(nodes, MapAfter(nodes, t - 1), name);
      LagStep(total, NameShare(nodes, name), t, NamePicks(nodes, t - 1, name), Level(MapAfter(nodes, t - 1), name),
              if PicksName(nodes, t - 1, name) then total else 0, NamePicks(nodes, t, name));
    }
  }

  lemma {:induction false} TotalStaysZero(nodes: seq<BackendNode>, t: nat)
    ensures Total(MapAfter(nodes, t)) == 0
  {
    if t > 0 {
      TotalStaysZero(nodes, t - 1);
      PaidKeepsTotal(nodes, MapAfter(nodes, t - 1));
    }
  }

  lemma {:induction false} PositiveCounter(cw: map<string, int>)
    requires Total(cw) > 0
    ensures exists k :: k in cw && cw[k] > 0
    decreases |cw|
  {
    var k :| k in cw;
    TotalWithout(cw, k);
    if cw[k] <= 0 {
      PositiveCounter(cw - {k});
      var x :| x in cw - {k} && (cw - {k})[x] > 0;
      assert x in cw && cw[x] > 0;
    }
  }

  /** A counter above zero belongs to a name with a healthy node. */
  lemma RaisedIsHealthy(nodes: seq<BackendNode>, t: nat, name: string)
    requires Serving(nodes) && Level(RaisedMap(nodes, MapAfter(nodes, t), |nodes|), name) > 0
    ensures exists i :: 0 <= i < |nodes| && nodes[i].healthy && nodes[i].name == name
  {
    RaisedByShare(nodes, MapAfter(nodes, t), name, |nodes|);
    NameLevelIsLag(nodes, t, name);
    ShareNotNegative(nodes, name, |nodes|);
    if NameShare(nodes, name) == 0 {
      NoShareNoLevel(TotalWeight(nodes), t, NamePicks(nodes, t, name));
    } else {
      NameHasShare(nodes, name, |nodes|);
    }
  }

  lemma NoShareNoLevel(total: int, t: nat, picks: nat)
    requires total >= 1
    ensures t * 0 - total * picks <= 0
  {
  }

  /** Some node is chosen, and its counter is at least 1 before it pays. */
  lemma ChosenCounterIsPositive(nodes: seq<BackendNode>, t: nat)
    requires Serving(nodes)
    ensures var m, b := RaisedMap(nodes, MapAfter(nodes, t), |nodes|), MapPick(nodes, t);
            b.Some? && Level(m, nodes[b.value].name) >= 1
  {
    var cw := MapAfter(nodes, t);
    var m := RaisedMap(nodes, cw, |nodes|);
    TotalStaysZero(nodes, t);
    TotalOfRaised(nodes, cw, |nodes|);
    PositiveCounter(m);
    var k :| k in m && m[k] > 0;
    RaisedIsHealthy(nodes, t, k);
    ScannedHealth(nodes, cw, |nodes|);
    ScannedIsHighest(nodes, cw, |nodes|);
  }

  lemma {:induction false} NameLowerBound(nodes: seq<BackendNode>, t: nat, name: string)
    requires Serving(nodes)
    ensures Level(MapAfter(nodes, t), name) >= 1 - TotalWeight(nodes)
  {
    if t > 0 {
      NameLowerBound(nodes, t - 1, name);
      ShareNotNegative(nodes, name, |nodes|);
      PaidByShare(nodes, MapAfter(nodes, t - 1), name);
      RaisedByShare(nodes, MapAfter(nodes, t - 1), name, |nodes|);
      ChosenCounterIsPositive(nodes, t - 1);
    }
  }

  // ---- the cycle ----

  /** Counters that are nowhere below zero and add up to zero are zero. */
  lemma {:induction false} AllZero(cw: map<string, int>, k: string)
    requires Total(cw) == 0 && forall x :: x in cw ==> cw[x] >= 0
    ensures Level(cw, k) == 0
  {
    if k in cw {
      TotalWithout(cw, k);
      TotalNotNegative(cw - {k});
    }
  }

  lemma {:induction false} TotalNotNegative(cw: map<string, int>)
    requires forall x :: x in cw ==> cw[x] >= 0
    ensures Total(cw) >= 0
    decreases |cw|
  {
    if cw != map[] {
      var k :| k in cw;
      TotalWithout(cw, k);
      TotalNotNegative(cw - {k});
    }
  }

  lemma FactorNotNegative(total: int, w: int, n: int)
    requires total >= 1 && n <= w
    ensures total * w - total * n >= 0
    ensures total * w - total * n == 0 ==> n == w
  {
    assert total * (w - n) == total * w - total * n;
    if n < w {
      MultipleAtLeast(total, w - n);
    }
  }

  lemma MultipleAtLeast(total: int, d: int)
    requires total >= 1 && d >= 1
    ensures total * d >= 1
  {
  }

  /** After W picks every name was chosen exactly its share, and every counter is back at zero. */
  lemma FullCycleByName(nodes: seq<BackendNode>, name: string)
    requires Serving(nodes)
    ensures Level(MapAfter(nodes, TotalWeight(nodes)), name) == 0
    ensures NamePicks(nodes, TotalWeight(nodes), name) == NameShare(nodes, name)
  {
    var total: nat := TotalWeight(nodes);
    var cw := MapAfter(nodes, total);
    forall k ensures Level(cw, k) >= 0 && NamePicks(nodes, total, k) <= NameShare(nodes, k) {
      NameLowerBound(nodes, total, k);
      NameLevelIsLag(nodes, total, k);
      CountAtMostShare(total, NameShare(nodes, k), NamePicks(nodes, total, k));
      FactorNotNegative(total, NameShare(nodes, k), NamePicks(nodes, total, k));
    }
    assert forall x :: x in cw ==> cw[x] == Level(cw, x);
    TotalStaysZero(nodes, total);
    AllZero(cw, name);
    NameLevelIsLag(nodes, total, name);
    FactorNotNegative(total, NameShare(nodes, name), NamePicks(nodes, total, name));
  }

  /** Two maps that no counter tells apart; a counter that is missing is zero. */
  ghost predicate SameLevels(a: map<string, int>, b: map<string, int>) {
    forall k :: Level(a, k) == Level(b, k)
  }

  lemma {:induction false} SameLevelsSameTurns(nodes: seq<BackendNode>, a: map<string, int>, b: map<string, int>, n: nat)
    requires n <= |nodes| && SameLevels(a, b)
    ensures SameLevels(RaisedMap(nodes, a, n), RaisedMap(nodes, b, n)) && Scanned(nodes, a, n) == Scanned(nodes, b, n)
  {
    if n > 0 {
      SameLevelsSameTurns(nodes, a, b, n - 1);
      forall k ensures Level(RaisedMap(nodes, a, n), k) == Level(RaisedMap(nodes, b, n), k) {
        RaisedByShare(nodes, a, k, n);
        RaisedByShare(nodes, b, k, n);
      }
    }
  }

  lemma SameLevelsSamePick(nodes: seq<BackendNode>, a: map<string, int>, b: map<string, int>)
    requires SameLevels(a, b)
    ensures SameLevels(PaidMap(nodes, a), PaidMap(nodes, b))
  {
    SameLevelsSameTurns(nodes, a, b, |nodes|);
    forall k ensures Level(PaidMap(nodes, a), k) == Level(PaidMap(nodes, b), k) {
      PaidByShare(nodes, a, k);
      PaidByShare(nodes, b, k);
    }
  }

  lemma {:induction false} CountersRepeat(nodes: seq<BackendNode>, t: nat)
    requires Serving(nodes)
    ensures SameLevels(MapAfter(nodes, t + TotalWeight(nodes)), MapAfter(nodes, t))
  {
    if t == 0 {
      forall k ensures Level(MapAfter(nodes, TotalWeight(nodes)), k) == Level(MapAfter(nodes, 0), k) {
        FullCycleByName(nodes, k);
      }
    } else {
      CountersRepeat(nodes, t - 1);
      SameLevelsSamePick(nodes, MapAfter(nodes, t - 1 + TotalWeight(nodes)), MapAfter(nodes, t - 1));
    }
  }

  /**
   * Whether or not nodes share names, the picks of a fresh balancer repeat with period W, and any W
   * consecutive ones choose each name exactly as often as its healthy nodes weigh together.
   */
  lemma EveryWindowIsFairByName(nodes: seq<BackendNode>, t: nat, name: string)
    requires Serving(nodes)
    ensures MapPick(nodes, t + TotalWeight(nodes)) == MapPick(nodes, t)
    ensures NamePicks(nodes, t + TotalWeight(nodes), name) - NamePicks(nodes, t, name) == NameShare(nodes, name)
  {
    var total: nat := TotalWeight(nodes);
    CountersRepeat(nodes, t);
    SameLevelsSameTurns(nodes, MapAfter(nodes, t + total), MapAfter(nodes, t), |nodes|);
    NameLevelIsLag(nodes, t, name);
    NameLevelIsLag(nodes, t + total, name);
    assert Level(MapAfter(nodes, t + total), name) == Level(MapAfter(nodes, t), name);
    SameMultiple(total, t, NameShare(nodes, name), NamePicks(nodes, t, name), NamePicks(nodes, t + total, name));
  }

  // ---- distinct names ----

  lemma {:induction false} ShareOfOnlyNode(nodes: seq<BackendNode>, i: nat, n: nat)
    requires DistinctNames(nodes) && i < |nodes| && n <= |nodes|
    ensures ShareOfName(nodes, nodes[i].name, n) == if i < n then Share(nodes[i]) else 0
  {
    if n > 0 {
      ShareOfOnlyNode(nodes, i, n - 1);
    }
  }

  /** When every name has one node, picking the name is picking the node, and their shares are the same. */
  lemma NameIsNode(nodes: seq<BackendNode>, t: nat, i: nat)
    requires DistinctNames(nodes) && i < |nodes|
    ensures PicksName(nodes, t, nodes[i].name) <==> PickAt(nodes, t) == Some(i)
    ensures NameShare(nodes, nodes[i].name) == Share(nodes[i])
  {
    MapRunFollowsLevels(nodes, t);
    ShareOfOnlyNode(nodes, i, |nodes|);
  }
}
