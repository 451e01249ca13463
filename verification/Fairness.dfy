/** How fairly the smooth weighted round robin shares picks, exactly and at every prefix. */
module Fairness {
  import opened Wrappers
  import opened LoadBalancing

  // ---- sums ----

  function SumOf(c: seq<int>, n: nat): int
    requires n <= |c|
  {
    if n == 0 then 0 else SumOf(c, n - 1) + c[n - 1]
  }

  function Sum(c: seq<int>): int {
    SumOf(c, |c|)
  }

  lemma {:induction false} SumOfUpdate(c: seq<int>, i: nat, v: int, n: nat)
    requires i < |c| && n <= |c|
    ensures SumOf(c[i := v], n) == SumOf(c, n) + if i < n then v - c[i] else 0
  {
    if n > 0 {
      SumOfUpdate(c, i, v, n - 1);
    }
  }

  lemma {:induction false} SumOfRaised(nodes: seq<BackendNode>, c: seq<int>, n: nat)
    requires |c| == |nodes| && n <= |c|
    ensures SumOf(Raised(nodes, c), n) == SumOf(c, n) + WeightOf(nodes, n)
  {
    if n > 0 {
      SumOfRaised(nodes, c, n - 1);
    }
  }

  /** A pick hands around weight without creating any, whatever the healths and weights. */
  lemma PickKeepsSum(nodes: seq<BackendNode>, c: seq<int>)
    requires |c| == |nodes|
    ensures Sum(AfterPick(nodes, c)) == Sum(c)
  {
    var up := Raised(nodes, c);
    SumOfRaised(nodes, c, |c|);
    if Choice(nodes, c).None? {
      BestIsFirstMaximum(nodes, up, |nodes|);
      NoHealthyNoWeight(nodes, |nodes|);
    } else {
      var b := Choice(nodes, c).value;
      SumOfUpdate(up, b, up[b] - TotalWeight(nodes), |c|);
    }
  }

  lemma {:induction false} NoHealthyNoWeight(nodes: seq<BackendNode>, n: nat)
    requires n <= |nodes| && forall i :: 0 <= i < |nodes| ==> !nodes[i].healthy
    ensures WeightOf(nodes, n) == 0
  {
    if n > 0 {
      NoHealthyNoWeight(nodes, n - 1);
    }
  }

  lemma PickEffect(nodes: seq<BackendNode>, c: seq<int>, i: nat)
    requires |c| == |nodes| && i < |nodes|
    ensures AfterPick(nodes, c)[i]
         == c[i] + Share(nodes[i]) - if Choice(nodes, c) == Some(i) then TotalWeight(nodes) else 0
  {
  }

  // ---- runs with changing health, and with names that may be shared ----

  /** The sum of all current weights. */
  ghost function Total(cw: map<string, int>): int {
    if cw == map[] then 0
    else
      var k :| k in cw;
      cw[k] + Total(cw - {k})
  }

  lemma {:induction false} TotalWithout(cw: map<string, int>, k: string)
    requires k in cw
    ensures Total(cw) == cw[k] + Total(cw - {k})
    decreases |cw|
  {
    var x :| x in cw && Total(cw) == cw[x] + Total(cw - {x});
    if x != k {
      TotalWithout(cw - {x}, k);
      TotalWithout(cw - {k}, x);
      assert cw - {x} - {k} == cw - {k} - {x};
    }
  }

  lemma TotalOfUpdate(cw: map<string, int>, k: string, v: int)
    ensures Total(cw[k := v]) == Total(cw) + v - Level(cw, k)
  {
    TotalWithout(cw[k := v], k);
    if k in cw {
      TotalWithout(cw, k);
      assert cw[k := v] - {k} == cw - {k};
    } else {
      assert cw[k := v] - {k} == cw;
    }
  }

  lemma {:induction false} TotalOfRaised(nodes: seq<BackendNode>, cw: map<string, int>, n: nat)
    requires n <= |nodes|
    ensures Total(RaisedMap(nodes, cw, n)) == Total(cw) + WeightOf(nodes, n)
  {
    if n > 0 {
      TotalOfRaised(nodes, cw, n - 1);
      var m, node := RaisedMap(nodes, cw, n - 1), nodes[n - 1];
      TotalOfUpdate(m, node.name, Level(m, node.name) + node.weight);
    }
  }

  lemma PaidKeepsTotal(nodes: seq<BackendNode>, cw: map<string, int>)
    ensures Total(PaidMap(nodes, cw)) == Total(cw)
  {
    var m, best := RaisedMap(nodes, cw, |nodes|), Scanned(nodes, cw, |nodes|);
    TotalOfRaised(nodes, cw, |nodes|);
    ScannedHealth(nodes, cw, |nodes|);
    if best.Some? {
      var name := nodes[best.value].name;
      TotalOfUpdate(m, name, Level(m, name) - TotalWeight(nodes));
    }
  }

  datatype Op = Pick | SetHealth(name: string, healthy: bool) | Join(node: BackendNode)

  datatype Balancer = Balancer(nodes: seq<BackendNode>, cw: map<string, int>)

  function Next(b: Balancer, op: Op): Balancer {
    match op
    case Pick => b.(cw := PaidMap(b.nodes, b.cw))
    case SetHealth(name, healthy) => b.(nodes := Marked(b.nodes, name, healthy))
    case Join(node) => b.(nodes := b.nodes + [node])
  }

  function Run(ops: seq<Op>): Balancer {
    if ops == [] then Balancer([], map[]) else Next(Run(ops[..|ops| - 1]), ops[|ops| - 1])
  }

  /**
   * The current weights in the balancer's map sum to zero however picks, health changes and new
   * nodes interleave, whatever the weights are and also when nodes share a name.
   */
  lemma {:induction false} SumStaysZero(ops: seq<Op>)
    ensures Total(Run(ops).cw) == 0
  {
    if ops != [] {
      var b := Run(ops[..|ops| - 1]);
      SumStaysZero(ops[..|ops| - 1]);
      PaidKeepsTotal(b.nodes, b.cw);
    }
  }

  // ---- a fixed set of healthy nodes ----

  /** No healthy node has a negative weight. */
  ghost predicate WeightsNotNegative(nodes: seq<BackendNode>) {
    forall i :: 0 <= i < |nodes| && nodes[i].healthy ==> nodes[i].weight >= 0
  }

  /** The healthy nodes have some weight between them, and none a negative one. */
  ghost predicate Serving(nodes: seq<BackendNode>) {
    TotalWeight(nodes) >= 1 && WeightsNotNegative(nodes)
  }

  function Zeros(n: nat): seq<int> {
    seq(n, i => 0)
  }

  /** The levels of a fresh balancer after t picks. */
  function LevelsAfter(nodes: seq<BackendNode>, t: nat): (r: seq<int>)
    ensures |r| == |nodes|
  {
    if t == 0 then Zeros(|nodes|) else AfterPick(nodes, LevelsAfter(nodes, t - 1))
  }

  /** The node chosen by pick number t, counting from zero. */
  function PickAt(nodes: seq<BackendNode>, t: nat): Option<nat> {
    Choice(nodes, LevelsAfter(nodes, t))
  }

  /** How often each node was chosen by the first t picks. */
  function Counts(nodes: seq<BackendNode>, t: nat): (r: seq<int>)
    ensures |r| == |nodes|
  {
    if t == 0 then Zeros(|nodes|)
    else
      var before := Counts(nodes, t - 1);
      match PickAt(nodes, t - 1)
      case None => before
      case Some(b) => before[b := before[b] + 1]
  }

  function HealthyOf(nodes: seq<BackendNode>, n: nat): nat
    requires n <= |nodes|
  {
    if n == 0 then 0 else HealthyOf(nodes, n - 1) + if nodes[n - 1].healthy then 1 else 0
  }

  function HealthyCount(nodes: seq<BackendNode>): nat {
    HealthyOf(nodes, |nodes|)
  }

  lemma {:induction false} SumOfZeros(c: seq<int>, n: nat)
    requires n <= |c| && forall i :: 0 <= i < |c| ==> c[i] == 0
    ensures SumOf(c, n) == 0
  {
    if n > 0 {
      SumOfZeros(c, n - 1);
    }
  }

  lemma {:induction false} LevelsSumToZero(nodes: seq<BackendNode>, t: nat)
    ensures Sum(LevelsAfter(nodes, t)) == 0
  {
    if t == 0 {
      SumOfZeros(Zeros(|nodes|), |nodes|);
    } else {
      LevelsSumToZero(nodes, t - 1);
      PickKeepsSum(nodes, LevelsAfter(nodes, t - 1));
    }
  }

  lemma ServingChooses(nodes: seq<BackendNode>, c: seq<int>)
    requires Serving(nodes) && |c| == |nodes|
    ensures Choice(nodes, c).Some? && nodes[Choice(nodes, c).value].healthy
    ensures forall i :: 0 <= i < |nodes| && nodes[i].healthy ==>
              Raised(nodes, c)[i] <= Raised(nodes, c)[Choice(nodes, c).value]
  {
    BestIsFirstMaximum(nodes, Raised(nodes, c), |nodes|);
    if Choice(nodes, c).None? {
      NoHealthyNoWeight(nodes, |nodes|);
    }
  }

  lemma LagStep(total: int, w: int, t: int, n: int, x: int, paid: int, n': int)
    requires x == (t - 1) * w - total * n
    requires if n' == n + 1 then paid == total else n' == n && paid == 0
    ensures x + w - paid == t * w - total * n'
  {
    assert (t - 1) * w == t * w - w;
    assert total * (n + 1) == total * n + total;
  }

  lemma LevelStep(nodes: seq<BackendNode>, t: nat, i: nat)
    requires i < |nodes|
    ensures LevelsAfter(nodes, t + 1)[i]
         == LevelsAfter(nodes, t)[i] + Share(nodes[i]) - if PickAt(nodes, t) == Some(i) then TotalWeight(nodes) else 0
  {
    PickEffect(nodes, LevelsAfter(nodes, t), i);
  }

  /** Every level is t shares minus one total weight per pick received. */
  lemma {:induction false} LevelIsLag(nodes: seq<BackendNode>, t: nat, i: nat)
    requires i < |nodes|
    ensures LevelsAfter(nodes, t)[i] == t * Share(nodes[i]) - TotalWeight(nodes) * Counts(nodes, t)[i]
  {
    if t > 0 {
      LevelIsLag(nodes, t - 1, i);
      LevelStep(nodes, t - 1, i);
      CountStep(nodes, t - 1, i);
      var total := TotalWeight(nodes);
      LagStep(total, Share(nodes[i]), t, Counts(nodes, t - 1)[i], LevelsAfter(nodes, t - 1)[i],
              if PickAt(nodes, t - 1) == Some(i) then total else 0, Counts(nodes, t)[i]);
    }
  }

  lemma {:induction false} UnhealthyStaysZero(nodes: seq<BackendNode>, t: nat, i: nat)
    requires Serving(nodes) && i < |nodes| && !nodes[i].healthy
    ensures LevelsAfter(nodes, t)[i] == 0
  {
    if t > 0 {
      UnhealthyStaysZero(nodes, t - 1, i);
      ServingChooses(nodes, LevelsAfter(nodes, t - 1));
      LevelStep(nodes, t - 1, i);
    }
  }

  lemma CountStep(nodes: seq<BackendNode>, t: nat, i: nat)
    requires i < |nodes|
    ensures Counts(nodes, t + 1)[i] == Counts(nodes, t)[i] + if PickAt(nodes, t) == Some(i) then 1 else 0
  {
  }

  /** Numbers with a positive sum are not all below 1. */
  lemma {:induction false} PositiveSomewhere(c: seq<int>, n: nat)
    requires n <= |c| && SumOf(c, n) > 0
    ensures exists i :: 0 <= i < n && c[i] > 0
  {
    if c[n - 1] <= 0 {
      PositiveSomewhere(c, n - 1);
    }
  }

  /** From levels that sum to zero and are zero where unhealthy, the chosen node has at least 1 to pay from. */
  lemma PayerIsPositive(nodes: seq<BackendNode>, c: seq<int>, b: nat)
    requires Serving(nodes) && |c| == |nodes| && Sum(c) == 0
    requires forall j :: 0 <= j < |nodes| && !nodes[j].healthy ==> c[j] == 0
    requires Choice(nodes, c) == Some(b)
    ensures Raised(nodes, c)[b] >= 1
  {
    var up := Raised(nodes, c);
    SumOfRaised(nodes, c, |c|);
    PositiveSomewhere(up, |up|);
    var j :| 0 <= j < |up| && up[j] > 0;
    assert nodes[j].healthy;
    ServingChooses(nodes, c);
  }

  /** A level never drops below 1 - W: the payer was at least 1 before it paid W. */
  lemma {:induction false} LowerBound(nodes: seq<BackendNode>, t: nat, i: nat)
    requires Serving(nodes) && i < |nodes|
    ensures LevelsAfter(nodes, t)[i] >= 1 - TotalWeight(nodes)
  {
    if t > 0 {
      var c := LevelsAfter(nodes, t - 1);
      LowerBound(nodes, t - 1, i);
      PickEffect(nodes, c, i);
      if Choice(nodes, c) == Some(i) {
        LevelsSumToZero(nodes, t - 1);
        forall j | 0 <= j < |nodes| && !nodes[j].healthy ensures c[j] == 0 {
          UnhealthyStaysZero(nodes, t - 1, j);
        }
        PayerIsPositive(nodes, c, i);
      }
    }
  }

  /** If no healthy level is below -L and the others are zero, the rest of the sum is at least -(h-1)L. */
  lemma {:induction false} SumFloor(nodes: seq<BackendNode>, c: seq<int>, floor: int, n: nat)
    requires |c| == |nodes| && n <= |c|
    requires forall j :: 0 <= j < |c| ==> if nodes[j].healthy then c[j] >= -floor else c[j] == 0
    ensures SumOf(c, n) >= -(HealthyOf(nodes, n) * floor)
  {
    if n > 0 {
      SumFloor(nodes, c, floor, n - 1);
      assert (HealthyOf(nodes, n - 1) + 1) * floor == HealthyOf(nodes, n - 1) * floor + floor;
    }
  }

  /**
   * At every prefix of t picks each healthy node's level lies between -(W-1) and (h-1)(W-1),
   * where W is the total weight and h the number of healthy nodes. So a node is never a full
   * pick ahead of its share t*w/W, and the stored integers are bounded whatever t is.
   */
  lemma LevelBounds(nodes: seq<BackendNode>, t: nat, i: nat)
    requires Serving(nodes) && i < |nodes| && nodes[i].healthy
    ensures var total, h := TotalWeight(nodes), HealthyCount(nodes);
            && -(total - 1) <= LevelsAfter(nodes, t)[i] <= (h - 1) * (total - 1)
            && total * (Counts(nodes, t)[i] - 1) < t * nodes[i].weight
            && t * nodes[i].weight - total * Counts(nodes, t)[i] <= (h - 1) * (total - 1)
  {
    UpperBound(nodes, t, i);
    LowerBound(nodes, t, i);
    LevelIsLag(nodes, t, i);
    NeverAFullPickAhead(TotalWeight(nodes), Counts(nodes, t)[i], t * nodes[i].weight, LevelsAfter(nodes, t)[i]);
  }

  lemma NeverAFullPickAhead(total: int, n: int, due: int, level: int)
    requires level == due - total * n && level >= -(total - 1)
    ensures total * (n - 1) < due
  {
    assert total * (n - 1) == total * n - total;
  }

  /** The others can owe at most (h-1)(W-1) between them, and the sum is zero. */
  lemma UpperBound(nodes: seq<BackendNode>, t: nat, i: nat)
    requires Serving(nodes) && i < |nodes| && nodes[i].healthy
    ensures LevelsAfter(nodes, t)[i] <= (HealthyCount(nodes) - 1) * (TotalWeight(nodes) - 1)
  {
    var c, floor, h := LevelsAfter(nodes, t), TotalWeight(nodes) - 1, HealthyCount(nodes);
    LevelsSumToZero(nodes, t);
    forall j | 0 <= j < |nodes|
      ensures if nodes[j].healthy then c[j] >= -floor else c[j] == 0
    {
      LowerBound(nodes, t, j);
      if !nodes[j].healthy {
        UnhealthyStaysZero(nodes, t, j);
      }
    }
    SumOfUpdate(c, i, -floor, |c|);
    SumFloor(nodes, c[i := -floor], floor, |c|);
    assert (h - 1) * floor == h * floor - floor;
  }

  // ---- the map-keeping balancer is this machine ----

  /** The weight map of a fresh balancer after t picks. */
  function MapAfter(nodes: seq<BackendNode>, t: nat): map<string, int> {
    if t == 0 then map[] else PaidMap(nodes, MapAfter(nodes, t - 1))
  }

  /** With distinct names, the balancer's map and its choices are those analysed here. */
  lemma {:induction false} MapRunFollowsLevels(nodes: seq<BackendNode>, t: nat)
    requires DistinctNames(nodes)
    ensures Levels(nodes, MapAfter(nodes, t)) == LevelsAfter(nodes, t)
    ensures Scanned(nodes, MapAfter(nodes, t), |nodes|) == PickAt(nodes, t)
  {
    if t > 0 {
      MapRunFollowsLevels(nodes, t - 1);
      MapFollowsLevels(nodes, MapAfter(nodes, t - 1));
    }
    MapFollowsLevels(nodes, MapAfter(nodes, t));
  }

  // ---- the cycle ----

  lemma {:induction false} CountsSum(nodes: seq<BackendNode>, t: nat)
    requires Serving(nodes)
    ensures Sum(Counts(nodes, t)) == t
  {
    if t == 0 {
      SumOfZeros(Zeros(|nodes|), |nodes|);
    } else {
      var before := Counts(nodes, t - 1);
      CountsSum(nodes, t - 1);
      ServingChooses(nodes, LevelsAfter(nodes, t - 1));
      var b := PickAt(nodes, t - 1).value;
      SumOfUpdate(before, b, before[b] + 1, |before|);
      assert Counts(nodes, t) == before[b := before[b] + 1];
    }
  }

  /** Counts that nowhere exceed the shares and add up to the same are the shares. */
  lemma {:induction false} SharesExhausted(nodes: seq<BackendNode>, counts: seq<int>, n: nat)
    requires |counts| == |nodes| && n <= |nodes|
    requires forall i :: 0 <= i < |nodes| ==> counts[i] <= Share(nodes[i])
    ensures SumOf(counts, n) <= WeightOf(nodes, n)
    ensures SumOf(counts, n) == WeightOf(nodes, n) ==> forall i :: 0 <= i < n ==> counts[i] == Share(nodes[i])
  {
    if n > 0 {
      SharesExhausted(nodes, counts, n - 1);
    }
  }

  lemma {:induction false} MultipleBelow(total: int, k: int)
    requires total >= 1 && total * k < total
    ensures k <= 0
  {
    if k > 0 {
      assert total * (k - 1) == total * k - total;
      MultipleBelow(total, k - 1);
    }
  }

  lemma CountAtMostShare(total: int, w: int, n: int)
    requires total >= 1 && total * w - total * n >= 1 - total
    ensures n <= w
  {
    assert total * (n - w) == total * n - total * w;
    assert total * (n - w) < total;
    MultipleBelow(total, n - w);
  }

  /**
   * The first W picks of a fresh balancer choose every node exactly its weight in times, unhealthy
   * nodes never, and leave every current weight at zero.
   */
  lemma FullCycle(nodes: seq<BackendNode>)
    requires Serving(nodes)
    ensures LevelsAfter(nodes, TotalWeight(nodes)) == Zeros(|nodes|)
    ensures forall i :: 0 <= i < |nodes| ==>
              Counts(nodes, TotalWeight(nodes))[i] == if nodes[i].healthy then nodes[i].weight else 0
  {
    var total: nat := TotalWeight(nodes);
    var counts := Counts(nodes, total);
    forall i | 0 <= i < |nodes| ensures counts[i] <= Share(nodes[i]) {
      LowerBound(nodes, total, i);
      LevelIsLag(nodes, total, i);
      CountAtMostShare(total, Share(nodes[i]), counts[i]);
    }
    CountsSum(nodes, total);
    SharesExhausted(nodes, counts, |nodes|);
    forall i | 0 <= i < |nodes| ensures LevelsAfter(nodes, total)[i] == 0 {
      LevelIsLag(nodes, total, i);
    }
  }

  lemma {:induction false} CountsNotNegative(nodes: seq<BackendNode>, t: nat, i: nat)
    requires i < |nodes|
    ensures Counts(nodes, t)[i] >= 0
  {
    if t > 0 {
      CountsNotNegative(nodes, t - 1, i);
      CountStep(nodes, t - 1, i);
    }
  }

  /** The condition is exact: with a positive total the first cycle is fair only if no weight is negative. */
  lemma FullCycleExactly(nodes: seq<BackendNode>)
    requires TotalWeight(nodes) >= 1
    ensures (forall i :: 0 <= i < |nodes| ==>
               Counts(nodes, TotalWeight(nodes))[i] == if nodes[i].healthy then nodes[i].weight else 0) <==>
            WeightsNotNegative(nodes)
  {
    if WeightsNotNegative(nodes) {
      FullCycle(nodes);
    }
    forall i | 0 <= i < |nodes| ensures Counts(nodes, TotalWeight(nodes))[i] >= 0 {
      CountsNotNegative(nodes, TotalWeight(nodes), i);
    }
  }

  /** A node that contributes nothing, unhealthy or of weight 0, is never chosen. */
  lemma IdleIsNeverChosen(nodes: seq<BackendNode>, t: nat, i: nat)
    requires Serving(nodes) && i < |nodes| && (!nodes[i].healthy || nodes[i].weight == 0)
    ensures PickAt(nodes, t) != Some(i)
  {
    var total := TotalWeight(nodes);
    LowerBound(nodes, t + 1, i);
    LevelIsLag(nodes, t + 1, i);
    CountAtMostShare(total, 0, Counts(nodes, t + 1)[i]);
    CountsNotNegative(nodes, t, i);
    CountStep(nodes, t, i);
  }

  lemma {:induction false} LevelsRepeat(nodes: seq<BackendNode>, t: nat)
    requires Serving(nodes)
    ensures LevelsAfter(nodes, t + TotalWeight(nodes)) == LevelsAfter(nodes, t)
  {
    if t == 0 {
      FullCycle(nodes);
    } else {
      LevelsRepeat(nodes, t - 1);
    }
  }

  /**
   * The pick sequence has period W, and every window of W consecutive picks, wherever it starts,
   * chooses each node exactly its weight in times.
   */
  lemma EveryWindowIsFair(nodes: seq<BackendNode>, t: nat, i: nat)
    requires Serving(nodes) && i < |nodes|
    ensures PickAt(nodes, t + TotalWeight(nodes)) == PickAt(nodes, t)
    ensures Counts(nodes, t + TotalWeight(nodes))[i] - Counts(nodes, t)[i] == if nodes[i].healthy then nodes[i].weight else 0
  {
    FullCycle(nodes);
    LevelsRepeat(nodes, t);
    var total: nat := TotalWeight(nodes);
    LevelIsLag(nodes, t, i);
    LevelIsLag(nodes, t + total, i);
    SameMultiple(total, t, Share(nodes[i]), Counts(nodes, t)[i], Counts(nodes, t + total)[i]);
  }

  lemma SameMultiple(total: int, t: int, w: int, m: int, n: int)
    requires total >= 1 && t * w - total * m == (t + total) * w - total * n
    ensures n - m == w
  {
    assert (t + total) * w == t * w + total * w;
    assert total * (n - m - w) == total * n - total * m - total * w;
    assert total * -(n - m - w) == -(total * (n - m - w));
    MultipleBelow(total, n - m - w);
    MultipleBelow(total, -(n - m - w));
  }
}
