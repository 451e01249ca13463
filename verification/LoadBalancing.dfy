/** Smooth weighted round robin: the balancer and the router in front of it. */
module LoadBalancing {
  import opened Wrappers

  datatype BackendNode = BackendNode(name: string, url: string, apiKey: string, model: string, weight: int, healthy: bool)

  ghost predicate DistinctNames(nodes: seq<BackendNode>) {
    forall i, j :: 0 <= i < j < |nodes| ==> nodes[i].name != nodes[j].name
  }

  function Level(cw: map<string, int>, name: string): int {
    if name in cw then cw[name] else 0
  }

  /** The current weights in node order. */
  function Levels(nodes: seq<BackendNode>, cw: map<string, int>): seq<int> {
    seq(|nodes|, i requires 0 <= i < |nodes| => Level(cw, nodes[i].name))
  }

  /** What a node takes part with: its weight while healthy. */
  function Share(n: BackendNode): int {
    if n.healthy then n.weight else 0
  }

  /** The shares of the first n nodes. */
  function WeightOf(nodes: seq<BackendNode>, n: nat): int
    requires n <= |nodes|
  {
    if n == 0 then 0 else WeightOf(nodes, n - 1) + Share(nodes[n - 1])
  }

  function TotalWeight(nodes: seq<BackendNode>): int {
    WeightOf(nodes, |nodes|)
  }

  function Raised(nodes: seq<BackendNode>, c: seq<int>): seq<int>
    requires |c| == |nodes|
  {
    seq(|nodes|, i requires 0 <= i < |nodes| => c[i] + Share(nodes[i]))
  }

  /** The first healthy node of the first n with the largest level, or none. */
  function BestOf(nodes: seq<BackendNode>, c: seq<int>, n: nat): (b: Option<nat>)
    requires n <= |nodes| == |c|
    ensures b.Some? ==> b.value < n
  {
    if n == 0 then None
    else
      var b := BestOf(nodes, c, n - 1);
      if !nodes[n - 1].healthy then b
      else if b.None? || c[n - 1] > c[b.value] then Some(n - 1) else b
  }

  lemma {:induction false} BestIsFirstMaximum(nodes: seq<BackendNode>, c: seq<int>, n: nat)
    requires n <= |nodes| == |c|
    ensures BestOf(nodes, c, n).None? <==> forall i :: 0 <= i < n ==> !nodes[i].healthy
    ensures BestOf(nodes, c, n).Some? ==>
              var b := BestOf(nodes, c, n).value;
              && nodes[b].healthy
              && (forall i :: 0 <= i < n && nodes[i].healthy ==> c[i] <= c[b])
              && (forall i :: 0 <= i < b && nodes[i].healthy ==> c[i] < c[b])
  {
    if n > 0 {
      BestIsFirstMaximum(nodes, c, n - 1);
    }
  }

  function Choice(nodes: seq<BackendNode>, c: seq<int>): Option<nat>
    requires |c| == |nodes|
  {
    BestOf(nodes, Raised(nodes, c), |nodes|)
  }

  /** Every healthy node gains its weight and the chosen one pays the total. */
  function AfterPick(nodes: seq<BackendNode>, c: seq<int>): (r: seq<int>)
    requires |c| == |nodes|
    ensures |r| == |nodes|
  {
    var up := Raised(nodes, c);
    match Choice(nodes, c)
    case None => up
    case Some(b) => up[b := up[b] - TotalWeight(nodes)]
  }

  /** The position of the first node with that name. */
  function FirstNamed(nodes: seq<BackendNode>, name: string, n: nat): (r: Option<nat>)
    requires n <= |nodes|
    ensures r.None? ==> forall i :: 0 <= i < n ==> nodes[i].name != name
    ensures r.Some? ==> r.value < n && nodes[r.value].name == name && forall i :: 0 <= i < r.value ==> nodes[i].name != name
  {
    if n == 0 then None
    else
      var r := FirstNamed(nodes, name, n - 1);
      if r.Some? then r else if nodes[n - 1].name == name then Some(n - 1) else None
  }

  /** Set the health of the first node with that name. */
  function Marked(nodes: seq<BackendNode>, name: string, healthy: bool): seq<BackendNode> {
    match FirstNamed(nodes, name, |nodes|)
    case None => nodes
    case Some(i) => nodes[i := nodes[i].(healthy := healthy)]
  }

  predicate IsFirstNamed(nodes: seq<BackendNode>, name: string, i: int) {
    0 <= i < |nodes| && nodes[i].name == name && forall j :: 0 <= j < i ==> nodes[j].name != name
  }

  /** Marking sets the health of the first node with that name and changes nothing else. */
  lemma MarkedExactly(nodes: seq<BackendNode>, name: string, healthy: bool)
    ensures var after := Marked(nodes, name, healthy);
            && |after| == |nodes|
            && forall i :: 0 <= i < |nodes| ==>
                 after[i] == if IsFirstNamed(nodes, name, i) then nodes[i].(healthy := healthy) else nodes[i]
  {
  }

  // ---- the loop over the weight map, which is keyed by name ----

  /** The map after the first n nodes had their turn. */
  function RaisedMap(nodes: seq<BackendNode>, cw: map<string, int>, n: nat): map<string, int>
    requires n <= |nodes|
  {
    if n == 0 then cw
    else
      var m, node := RaisedMap(nodes, cw, n - 1), nodes[n - 1];
      if node.healthy then m[node.name := Level(m, node.name) + node.weight] else m
  }

  /** The best node so far, each candidate compared by the levels of its own turn. */
  function Scanned(nodes: seq<BackendNode>, cw: map<string, int>, n: nat): (b: Option<nat>)
    requires n <= |nodes|
    ensures b.Some? ==> b.value < n
  {
    if n == 0 then None
    else
      var b, m := Scanned(nodes, cw, n - 1), RaisedMap(nodes, cw, n);
      if !nodes[n - 1].healthy then b
      else if b.None? || Level(m, nodes[n - 1].name) > Level(m, nodes[b.value].name) then Some(n - 1) else b
  }

  function PaidMap(nodes: seq<BackendNode>, cw: map<string, int>): map<string, int> {
    var m := RaisedMap(nodes, cw, |nodes|);
    match Scanned(nodes, cw, |nodes|)
    case None => m
    case Some(b) => m[nodes[b].name := Level(m, nodes[b].name) - TotalWeight(nodes)]
  }

  /** With distinct names a turn touches its own node's level only. */
  lemma {:induction false} RaisedMapLevel(nodes: seq<BackendNode>, cw: map<string, int>, n: nat, j: nat)
    requires n <= |nodes| && j < |nodes| && DistinctNames(nodes)
    ensures Level(RaisedMap(nodes, cw, n), nodes[j].name)
         == Level(cw, nodes[j].name) + if j < n then Share(nodes[j]) else 0
  {
    if n > 0 {
      RaisedMapLevel(nodes, cw, n - 1, j);
    }
  }

  /** Once node j had its turn its level in the map is up[j]. */
  ghost predicate LevelIs(nodes: seq<BackendNode>, cw: map<string, int>, up: seq<int>, n: int, j: int) {
    0 <= j < n <= |nodes| == |up| ==> Level(RaisedMap(nodes, cw, n), nodes[j].name) == up[j]
  }

  lemma {:induction false} ScannedIsBest(nodes: seq<BackendNode>, cw: map<string, int>, up: seq<int>, n: nat)
    requires n <= |nodes| == |up|
    requires forall m, j :: LevelIs(nodes, cw, up, m, j)
    ensures Scanned(nodes, cw, n) == BestOf(nodes, up, n)
  {
    if n > 0 {
      ScannedIsBest(nodes, cw, up, n - 1);
      assert LevelIs(nodes, cw, up, n, n - 1);
      if Scanned(nodes, cw, n - 1).Some? {
        assert LevelIs(nodes, cw, up, n, Scanned(nodes, cw, n - 1).value);
      }
    }
  }

  /** With distinct names the map moves as the list of levels does. */
  lemma MapFollowsLevels(nodes: seq<BackendNode>, cw: map<string, int>)
    requires DistinctNames(nodes)
    ensures Scanned(nodes, cw, |nodes|) == Choice(nodes, Levels(nodes, cw))
    ensures Levels(nodes, PaidMap(nodes, cw)) == AfterPick(nodes, Levels(nodes, cw))
  {
    var up := Raised(nodes, Levels(nodes, cw));
    forall m, j ensures LevelIs(nodes, cw, up, m, j) {
      if 0 <= j < m <= |nodes| {
        RaisedMapLevel(nodes, cw, m, j);
      }
    }
    ScannedIsBest(nodes, cw, up, |nodes|);
    var after, expected := Levels(nodes, PaidMap(nodes, cw)), AfterPick(nodes, Levels(nodes, cw));
    forall j | 0 <= j < |nodes| ensures after[j] == expected[j] {
      RaisedMapLevel(nodes, cw, |nodes|, j);
    }
  }

  class LoadBalancer {
    var nodes: seq<BackendNode>
    var cw: map<string, int>

    constructor ()
      ensures nodes == [] && cw == map[]
    {
      nodes, cw := [], map[];
    }

    method AddNode(node: BackendNode)
      modifies this`nodes
      ensures nodes == old(nodes) + [node]
    {
      nodes := nodes + [node];
    }

    /** The chosen node's position. MapFollowsLevels says what this means when names are distinct. */
    method Pick() returns (best: Option<nat>)
      modifies this`cw
      ensures best == Scanned(nodes, old(cw), |nodes|) && cw == PaidMap(nodes, old(cw))
    {
      best := None;
      if nodes == [] {
        return;
      }
      var total := 0;
      for i := 0 to |nodes|
        invariant total == WeightOf(nodes, i)
        invariant cw == RaisedMap(nodes, old(cw), i) && best == Scanned(nodes, old(cw), i)
      {
        var n := nodes[i];
        if n.healthy {
          total := total + n.weight;
          cw := cw[n.name := Level(cw, n.name) + n.weight];
          if best.None? || Level(cw, n.name) > Level(cw, nodes[best.value].name) {
            best := Some(i);
          }
        }
      }
      if best.Some? {
        var name := nodes[best.value].name;
        cw := cw[name := Level(cw, name) - total];
      }
    }

    method Mark(name: string, healthy: bool)
      modifies this`nodes
      ensures nodes == Marked(old(nodes), name, healthy)
    {
      for i := 0 to |nodes|
        invariant nodes == old(nodes) && FirstNamed(nodes, name, i).None?
      {
        if nodes[i].name == name {
          nodes := nodes[i := nodes[i].(healthy := healthy)];
          return;
        }
      }
    }
  }

  predicate AnyHealthy(nodes: seq<BackendNode>) {
    exists i :: 0 <= i < |nodes| && nodes[i].healthy
  }

  class Router {
    var groups: map<string, LoadBalancer>

    /** Each route key has its own balancer. */
    ghost predicate Valid()
      reads this
    {
      forall a, b :: a in groups && b in groups && a != b ==> groups[a] != groups[b]
    }

    constructor ()
      ensures Valid() && groups == map[]
    {
      groups := map[];
    }

    /** Add a node to the group of a route key, which is made on first use. */
    method RegisterNode(key: string, node: BackendNode)
      requires Valid()
      modifies this, groups.Values
      ensures Valid() && groups.Keys == old(groups.Keys) + {key}
      ensures forall g :: g in old(groups) ==> groups[g] == old(groups[g])
      ensures key !in old(groups) ==> fresh(groups[key])
      ensures groups[key].nodes == (if key in old(groups) then old(groups[key].nodes) else []) + [node]
      ensures groups[key].cw == if key in old(groups) then old(groups[key].cw) else map[]
      ensures forall g :: g in old(groups) && g != key ==>
                groups[g].nodes == old(groups[g].nodes) && groups[g].cw == old(groups[g].cw)
    {
      if key !in groups {
        var group := new LoadBalancer();
        groups := groups[key := group];
      }
      groups[key].AddNode(node);
    }

    /** Whether a route key has a group that can serve. */
    predicate Serves(key: string)
      reads this, groups.Values
    {
      key in groups && AnyHealthy(groups[key].nodes)
    }

    /**
     * The model's own group serves if it has a healthy node, otherwise the default group "*" if
     * that has one. The answer names the group and the node its balancer chose; no other group's
     * weights move.
     */
    method Route(model: string) returns (r: Option<(string, nat)>)
      requires Valid()
      modifies groups.Values
      ensures Valid() && groups == old(groups)
      ensures forall g :: g in groups ==> groups[g].nodes == old(groups[g].nodes)
      ensures r.None? <==> !old(Serves(model)) && !old(Serves("*"))
      ensures r.Some? ==> r.value.0 == (if old(Serves(model)) then model else "*") && r.value.0 in groups
      ensures r.Some? ==>
                var g := groups[r.value.0];
                && Some(r.value.1) == Scanned(g.nodes, old(g.cw), |g.nodes|) && g.nodes[r.value.1].healthy
                && g.cw == PaidMap(g.nodes, old(g.cw))
      ensures forall g :: g in groups && !(r.Some? && r.value.0 == g) ==> groups[g].cw == old(groups[g].cw)
    {
      r := None;
      if model in groups {
        ScannedHealth(groups[model].nodes, groups[model].cw, |groups[model].nodes|);
        var n := groups[model].Pick();
        if n.Some? {
          return Some((model, n.value));
        }
      }
      if "*" in groups {
        ScannedHealth(groups["*"].nodes, groups["*"].cw, |groups["*"].nodes|);
        var n := groups["*"].Pick();
        if n.Some? {
          r := Some(("*", n.value));
        }
      }
    }
  }

  /** A healthy node is chosen whenever there is one; with none, no weight moves. */
  lemma {:induction false} ScannedHealth(nodes: seq<BackendNode>, cw: map<string, int>, n: nat)
    requires n <= |nodes|
    ensures Scanned(nodes, cw, n).None? <==> forall i :: 0 <= i < n ==> !nodes[i].healthy
    ensures Scanned(nodes, cw, n).Some? ==> nodes[Scanned(nodes, cw, n).value].healthy
    ensures Scanned(nodes, cw, n).None? ==> RaisedMap(nodes, cw, n) == cw
  {
    if n > 0 {
      ScannedHealth(nodes, cw, n - 1);
    }
  }
}
