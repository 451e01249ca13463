/** Whom consecutive tool calls go to, told about executors rather than positions. */
module ExecutorTurns {
  import opened Wrappers
  import opened Sequences
  import opened CallRouting

  // ---- the pool keeps its order ----

  lemma SplitLast(conns: seq<Conn>)
    requires conns != []
    ensures var n := |conns| - 1;
            conns == conns[..n] + [conns[n]] && multiset(conns) == multiset(conns[..n]) + multiset{conns[n]}
  {
    var n := |conns| - 1;
    assert conns == conns[..n] + [conns[n]];
  }

  /** r holds the elements of conns at the given, ascending, positions. */
  ghost predicate InOrder(r: seq<Conn>, conns: seq<Conn>, from: seq<nat>) {
    && |from| == |r|
    && (forall i :: 0 <= i < |from| ==> from[i] < |conns| && r[i] == conns[from[i]])
    && (forall i, j :: 0 <= i < j < |from| ==> from[i] < from[j])
  }

  lemma {:induction false} KeptPositions(conns: seq<Conn>, connected: set<Conn>) returns (from: seq<nat>)
    ensures InOrder(Connected(conns, connected), conns, from)
    ensures forall i :: 0 <= i < |from| ==> from[i] < |conns|
  {
    if conns == [] {
      from := [];
    } else {
      var n := |conns| - 1;
      from := KeptPositions(conns[..n], connected);
      if conns[n] in connected {
        from := from + [n];
      }
    }
  }

  lemma {:induction false} KeptCount(conns: seq<Conn>, connected: set<Conn>, c: Conn)
    ensures multiset(Connected(conns, connected))[c] == if c in connected then multiset(conns)[c] else 0
  {
    if conns != [] {
      KeptCount(conns[..|conns| - 1], connected, c);
      SplitLast(conns);
    }
  }

  lemma {:induction false} AllKept(conns: seq<Conn>, connected: set<Conn>)
    requires forall c :: c in conns ==> c in connected
    ensures Connected(conns, connected) == conns
  {
    if conns != [] {
      AllKept(conns[..|conns| - 1], connected);
      SplitLast(conns);
    }
  }

  /** Forgetting executors keeps the others in their order, each as often as it was registered. */
  lemma ConnectedInOrder(conns: seq<Conn>, connected: set<Conn>) returns (from: seq<nat>)
    ensures InOrder(Connected(conns, connected), conns, from)
    ensures forall c :: multiset(Connected(conns, connected))[c] == if c in connected then multiset(conns)[c] else 0
    ensures (forall c :: c in conns ==> c in connected) ==> Connected(conns, connected) == conns
  {
    from := KeptPositions(conns, connected);
    forall c ensures multiset(Connected(conns, connected))[c] == if c in connected then multiset(conns)[c] else 0 {
      KeptCount(conns, connected, c);
    }
    if forall c :: c in conns ==> c in connected {
      AllKept(conns, connected);
    }
  }

  /** The executors that announced a tool. */
  function Announcing(tools: map<Conn, seq<string>>, name: string): (r: set<Conn>)
    ensures forall c :: c in r <==> c in tools && name in tools[c]
  {
    set c | c in tools && name in tools[c]
  }

  lemma {:induction false} CapableIsAnnouncing(conns: seq<Conn>, tools: map<Conn, seq<string>>, name: string)
    ensures Capable(conns, tools, name) == Connected(conns, Announcing(tools, name))
  {
    if conns != [] {
      CapableIsAnnouncing(conns[..|conns| - 1], tools, name);
    }
  }

  /** So does choosing those that announced a tool. */
  lemma CapableInOrder(conns: seq<Conn>, tools: map<Conn, seq<string>>, name: string) returns (from: seq<nat>)
    ensures InOrder(Capable(conns, tools, name), conns, from)
    ensures forall c :: multiset(Capable(conns, tools, name))[c]
                     == if c in tools && name in tools[c] then multiset(conns)[c] else 0
    ensures (forall c :: c in conns ==> c in tools && name in tools[c]) ==> Capable(conns, tools, name) == conns
  {
    CapableIsAnnouncing(conns, tools, name);
    from := ConnectedInOrder(conns, Announcing(tools, name));
  }

  // ---- going around a pool ----

  /** The position that lies so many places on, counted around a pool. */
  function Around(x: nat, size: nat): (r: nat)
    requires size > 0
    ensures r < size
  {
    x % size
  }

  lemma {:induction false} IndexIsSum(start: nat, size: nat, i: nat)
    requires size > 0 && i > 0
    ensures IndexAfter(start, size, i) == Around(start + i, size)
  {
    if i > 1 {
      IndexIsSum(start, size, i - 1);
      AddOneAfterMod(start + i - 1, size);
    }
  }

  lemma AddOneAfterMod(x: nat, size: nat)
    requires size > 0
    ensures (x % size + 1) % size == (x + 1) % size
  {
    var q, r := x / size, x % size;
    assert x == q * size + r;
    if r + 1 < size {
      ModOf(x + 1, q, r + 1, size);
      ModOf(r + 1, 0, r + 1, size);
    } else {
      assert (q + 1) * size == q * size + size;
      ModOf(x + 1, q + 1, 0, size);
      ModOf(r + 1, 1, 0, size);
    }
  }

  lemma ModOf(x: nat, q: nat, r: nat, size: nat)
    requires size > 0 && x == q * size + r && r < size
    ensures x % size == r
  {
    var d, m := x / size, x % size;
    assert x == d * size + m;
    SameQuotient(d, m, q, r, size);
  }

  lemma SameQuotient(d: int, m: int, q: int, r: int, size: nat)
    requires d * size + m == q * size + r && 0 <= m < size && 0 <= r < size
    ensures m == r
  {
    assert (d - q) * size == r - m && (q - d) * size == m - r;
    if d > q {
      AtLeastOnce(d - q, size);
    } else if d < q {
      AtLeastOnce(q - d, size);
    }
  }

  lemma AtLeastOnce(k: int, size: nat)
    requires k >= 1
    ensures k * size >= size
  {
    assert k * size == size + (k - 1) * size;
  }

  /** Going around from anywhere reaches every position within one round. */
  lemma PositionReached(start: nat, size: nat, p: nat) returns (i: nat)
    requires p < size
    ensures i < size && (start + i) % size == p
  {
    var r, q := start % size, start / size;
    assert start == q * size + r;
    if r <= p {
      i := p - r;
      ModOf(start + i, q, p, size);
    } else {
      i := p + size - r;
      assert (q + 1) * size == q * size + size;
      ModOf(start + i, q + 1, p, size);
    }
  }

  /** Fewer than a round apart, no two calls are at the same position. */
  lemma DifferentInARound(start: nat, size: nat, i: nat, j: nat)
    requires size > 0 && 0 < i < j < i + size
    ensures Around(start + i, size) != Around(start + j, size)
  {
    RoundVisitsAll(start, size, i, j);
    IndexIsSum(start, size, i);
    IndexIsSum(start, size, j);
  }

  // ---- consecutive calls ----

  /** ts[i] is what call number i of a series for one tool finds; nothing else changes in between. */
  ghost predicate Consecutive(ts: seq<Turn>, at: Setting) {
    forall i :: FollowsAt(ts, at, i)
  }

  ghost predicate FollowsAt(ts: seq<Turn>, at: Setting, i: int) {
    0 <= i < |ts| - 1 ==> ts[i + 1] == AfterTurn(ts[i], at)
  }

  lemma TurnKeepsPool(t: Turn, at: Setting)
    ensures TurnPool(AfterTurn(t, at), at) == TurnPool(t, at)
  {
    AllKept(Connected(t.executors, at.connected), at.connected);
  }

  lemma {:induction false} PoolStays(ts: seq<Turn>, at: Setting, i: nat)
    requires Consecutive(ts, at) && i < |ts|
    ensures TurnPool(ts[i], at) == TurnPool(ts[0], at)
  {
    if i > 0 {
      PoolStays(ts, at, i - 1);
      assert FollowsAt(ts, at, i - 1);
      TurnKeepsPool(ts[i - 1], at);
    }
  }

  lemma {:induction false} IndexMoves(ts: seq<Turn>, at: Setting, i: nat)
    requires Consecutive(ts, at) && i < |ts| && TurnPool(ts[0], at) != []
    ensures ts[i].index == IndexAfter(ts[0].index, |TurnPool(ts[0], at)|, i)
  {
    if i > 0 {
      IndexMoves(ts, at, i - 1);
      PoolStays(ts, at, i - 1);
      assert FollowsAt(ts, at, i - 1);
    }
  }

  /** Call number i of the series goes to the executor index + i + 1 places into the pool, counted around it. */
  lemma CallsGoAround(ts: seq<Turn>, at: Setting, i: nat)
    requires Consecutive(ts, at) && i < |ts|
    ensures var pool := TurnPool(ts[0], at);
            ChosenInTurn(ts[i], at) ==
            if pool == [] then None else Some(pool[Around(ts[0].index + i + 1, |pool|)])
  {
    PoolStays(ts, at, i);
    if TurnPool(ts[0], at) != [] {
      IndexMoves(ts, at, i);
      IndexIsSum(ts[0].index, |TurnPool(ts[0], at)|, i + 1);
    }
  }

  lemma EveryExecutorIsReached(ts: seq<Turn>, at: Setting, first: nat, e: Conn) returns (i: nat)
    requires ts != [] && Consecutive(ts, at) && first + |TurnPool(ts[0], at)| <= |ts|
    requires e in TurnPool(ts[0], at)
    ensures first <= i < first + |TurnPool(ts[0], at)| && ChosenInTurn(ts[i], at) == Some(e)
  {
    var pool := TurnPool(ts[0], at);
    var p :| 0 <= p < |pool| && pool[p] == e;
    var d := PositionReached(ts[0].index + first + 1, |pool|, p);
    i := first + d;
    CallsGoAround(ts, at, i);
    assert ts[0].index + i + 1 == ts[0].index + first + 1 + d;
  }

  lemma TwoInARound(ts: seq<Turn>, at: Setting, i: nat, j: nat)
    requires i < j < |ts| && Consecutive(ts, at) && NoDup(TurnPool(ts[0], at)) && j < i + |TurnPool(ts[0], at)|
    ensures ChosenInTurn(ts[i], at) != ChosenInTurn(ts[j], at)
  {
    CallsGoAround(ts, at, i);
    CallsGoAround(ts, at, j);
    DifferentInARound(ts[0].index, |TurnPool(ts[0], at)|, i + 1, j + 1);
  }

  /**
   * While registrations and connections do not change, any n consecutive calls for a tool whose
   * pool has n distinct executors go to each of them, once.
   */
  lemma EachExecutorOncePerRound(ts: seq<Turn>, at: Setting, first: nat, e: Conn)
    requires ts != [] && Consecutive(ts, at) && first + |TurnPool(ts[0], at)| <= |ts|
    requires NoDup(TurnPool(ts[0], at)) && e in TurnPool(ts[0], at)
    ensures var n := |TurnPool(ts[0], at)|;
            && (exists i :: first <= i < first + n && ChosenInTurn(ts[i], at) == Some(e))
            && (forall i, j :: first <= i < j < first + n ==> ChosenInTurn(ts[i], at) != ChosenInTurn(ts[j], at))
  {
    var pool := TurnPool(ts[0], at);
    var i := EveryExecutorIsReached(ts, at, first, e);
    forall i, j | first <= i < j < first + |pool|
      ensures ChosenInTurn(ts[i], at) != ChosenInTurn(ts[j], at)
    {
      TwoInARound(ts, at, i, j);
    }
  }
}
