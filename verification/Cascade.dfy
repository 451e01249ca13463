/**
 * The mathematics of a cascading invalidation: which keys a root reaches through the reverse
 * index, and how many index edges lead to each. Nothing here mentions an order of traversal.
 */
module Cascade {
  import opened Sequences
  import opened ReverseIndex
  import opened AgentTypes

  type Entries = map<string, CacheEntry>

  /** The keys a cascade may still touch: present and not INVALIDATED. */
  function LiveKeys(es: Entries): (r: set<string>)
    ensures forall k :: k in r <==> k in es && !es[k].status.INVALIDATED?
  {
    set k | k in es && !es[k].status.INVALIDATED?
  }

  // ---- the effect on one entry ----

  function Damped(c: real, n: nat): real {
    if n == 0 then c else Damped(c, n - 1) * 0.3
  }

  /** What n incoming edges from cascading keys do to an entry. */
  function Hit(e: CacheEntry, n: nat): CacheEntry {
    if e.status.INVALIDATED? || n == 0 then e
    else e.(status := STALE, confidence := Damped(e.confidence, n))
  }

  lemma {:induction false} HitTwice(e: CacheEntry, m: nat, n: nat)
    ensures Hit(Hit(e, m), n) == Hit(e, m + n)
  {
    DampedTwice(e.confidence, m, n);
  }

  lemma {:induction false} DampedTwice(c: real, m: nat, n: nat)
    ensures Damped(Damped(c, m), n) == Damped(c, m + n)
  {
    if n > 0 {
      DampedTwice(c, m, n - 1);
    }
  }

  /** Each hit leaves three tenths of the confidence. */
  lemma DampedExactly(c: real, n: nat)
    ensures Damped(c, 0) == c && Damped(c, n + 1) == 0.3 * Damped(c, n)
  {
  }

  lemma {:induction false} DampedBounds(c: real, n: nat)
    requires c >= 0.0
    ensures 0.0 <= Damped(c, n) <= c
    ensures n > 0 && c > 0.0 ==> Damped(c, n) < c
  {
    if n > 0 {
      DampedBounds(c, n - 1);
    }
  }

  // ---- reachability ----

  /** Consecutive keys are joined by an index edge, and every key after the first is live. */
  ghost predicate IsPath(live: set<string>, rev: Index, p: seq<string>) {
    forall i :: 0 < i < |p| ==> Lists(rev, p[i - 1], p[i]) && p[i] in live
  }

  ghost predicate Reaches(live: set<string>, rev: Index, root: string, k: string) {
    exists p :: PathBetween(live, rev, p, root, k)
  }

  ghost predicate PathBetween(live: set<string>, rev: Index, p: seq<string>, root: string, k: string) {
    |p| > 1 && p[0] == root && p[|p| - 1] == k && IsPath(live, rev, p)
  }

  /** Every key the root reaches, the root itself only when a cycle leads back to it. */
  ghost function Reached(live: set<string>, rev: Index, root: string): (r: set<string>)
    ensures forall k :: k in r <==> Reaches(live, rev, root, k)
    ensures r <= live
  {
    forall k | Reaches(live, rev, root, k) ensures k in live {
      var p :| PathBetween(live, rev, p, root, k);
      assert p[|p| - 1] in live;
    }
    set k | k in live && Reaches(live, rev, root, k)
  }

  lemma ReachesExtends(live: set<string>, rev: Index, root: string, u: string, k: string)
    requires u == root || Reaches(live, rev, root, u)
    requires Lists(rev, u, k) && k in live
    ensures Reaches(live, rev, root, k)
  {
    var p;
    if u == root {
      p := [root];
    } else {
      p :| PathBetween(live, rev, p, root, u);
    }
    assert PathBetween(live, rev, p + [k], root, k);
  }

  /** A set that holds the root and is closed under live edges holds everything the root reaches. */
  lemma ClosedContainsReached(live: set<string>, rev: Index, root: string, closed: set<string>)
    requires root in closed
    requires forall u, k :: u in closed && Lists(rev, u, k) && k in live ==> k in closed
    ensures Reached(live, rev, root) <= closed
  {
    forall k | Reaches(live, rev, root, k) ensures k in closed {
      var p :| PathBetween(live, rev, p, root, k);
      PathStaysClosed(live, rev, p, closed, |p| - 1);
    }
  }

  lemma {:induction false} PathStaysClosed(live: set<string>, rev: Index, p: seq<string>, closed: set<string>, i: nat)
    requires i < |p| && p[0] in closed && IsPath(live, rev, p)
    requires forall u, k :: u in closed && Lists(rev, u, k) && k in live ==> k in closed
    ensures p[i] in closed
  {
    if i > 0 {
      PathStaysClosed(live, rev, p, closed, i - 1);
      assert Lists(rev, p[i - 1], p[i]);
    }
  }

  // ---- counting edges ----

  /** The index positions that lead from a key of `from` to k. */
  ghost function EdgesInto(rev: Index, from: set<string>, k: string): set<(string, int)> {
    set u, i | u in from && u in rev && 0 <= i < |rev[u]| && rev[u][i] == k :: (u, i)
  }

  /** How many edges the keys of vs, each taken once per occurrence, send into k. */
  function Hits(rev: Index, vs: seq<string>, k: string): nat {
    if vs == [] then 0 else Hits(rev, vs[..|vs| - 1], k) + multiset(ListAt(rev, vs[|vs| - 1]))[k]
  }

  lemma {:induction false} HitsOfConcat(rev: Index, a: seq<string>, b: seq<string>, k: string)
    ensures Hits(rev, a + b, k) == Hits(rev, a, k) + Hits(rev, b, k)
  {
    if b == [] {
      assert a + b == a;
    } else {
      assert (a + b)[..|a + b| - 1] == a + b[..|b| - 1];
      HitsOfConcat(rev, a, b[..|b| - 1], k);
    }
  }

  /** One more key adds its own positions. */
  lemma EdgesOfOneMore(rev: Index, from: set<string>, u: string, k: string)
    requires u !in from
    ensures |EdgesInto(rev, from + {u}, k)| == |EdgesInto(rev, from, k)| + |Positions(u, ListAt(rev, u), k)|
  {
    var before, out, all := EdgesInto(rev, from, k), Positions(u, ListAt(rev, u), k), EdgesInto(rev, from + {u}, k);
    forall e ensures e in all <==> e in before || e in out {
    }
    assert all == before + out;
    forall e | e in out ensures e !in before {
    }
    assert before !! out;
  }

  /** Visiting each key once, in any order, counts exactly the edges out of the visited set. */
  lemma {:induction false} HitsCountEdges(rev: Index, vs: seq<string>, k: string)
    requires NoDup(vs)
    ensures Hits(rev, vs, k) == |EdgesInto(rev, Elements(vs), k)|
  {
    if vs == [] {
      assert EdgesInto(rev, Elements(vs), k) == {};
    } else {
      var init, u := vs[..|vs| - 1], vs[|vs| - 1];
      HitsCountEdges(rev, init, k);
      PositionsCount(u, ListAt(rev, u), k);
      EdgesOfOneMore(rev, Elements(init), u, k);
      assert Elements(vs) == Elements(init) + {u};
    }
  }

  ghost function Positions(u: string, s: seq<string>, k: string): set<(string, int)> {
    set i | 0 <= i < |s| && s[i] == k :: (u, i)
  }

  lemma {:induction false} PositionsCount(u: string, s: seq<string>, k: string)
    ensures |Positions(u, s, k)| == multiset(s)[k]
  {
    if s != [] {
      var init, n := s[..|s| - 1], |s| - 1;
      assert s == init + [s[n]];
      PositionsCount(u, init, k);
      assert Positions(u, s, k) == Positions(u, init, k) + if s[n] == k then {(u, n)} else {};
    }
  }

  /** Without repeated index entries, the edges into k are the distinct keys that list it. */
  lemma EdgesAreKeys(rev: Index, from: set<string>, k: string)
    requires forall u | u in rev :: NoDup(rev[u])
    ensures |EdgesInto(rev, from, k)| == |set u | u in from && Lists(rev, u, k)|
  {
    var keys := set u | u in from && Lists(rev, u, k);
    EdgesAreKeysOver(rev, keys, k);
    assert EdgesInto(rev, from, k) == EdgesInto(rev, keys, k);
  }

  lemma {:induction false} EdgesAreKeysOver(rev: Index, keys: set<string>, k: string)
    requires forall u | u in rev :: NoDup(rev[u])
    requires forall u | u in keys :: Lists(rev, u, k)
    ensures |EdgesInto(rev, keys, k)| == |keys|
  {
    if keys == {} {
      assert EdgesInto(rev, keys, k) == {};
    } else {
      var u :| u in keys;
      var rest := keys - {u};
      EdgesAreKeysOver(rev, rest, k);
      var i :| 0 <= i < |rev[u]| && rev[u][i] == k;
      assert EdgesInto(rev, keys, k) == EdgesInto(rev, rest, k) + {(u, i)};
      assert (u, i) !in EdgesInto(rev, rest, k);
    }
  }

  // ---- the traversal's bookkeeping ----

  /** es is es0 after every key of news sent its hits, and after one further hit per element of extra. */
  ghost predicate HitBy(es0: Entries, es: Entries, rev: Index, news: seq<string>, extra: multiset<string>) {
    es.Keys == es0.Keys && forall k :: HitAt(es0, es, rev, news, extra, k)
  }

  ghost predicate HitAt(es0: Entries, es: Entries, rev: Index, news: seq<string>, extra: multiset<string>, k: string) {
    k in es0 && k in es ==> es[k] == Hit(es0[k], Hits(rev, news, k) + extra[k])
  }

  lemma HitByNothing(es: Entries, rev: Index)
    ensures HitBy(es, es, rev, [], multiset{})
  {
    forall k ensures HitAt(es, es, rev, [], multiset{}, k) {
    }
  }

  lemma HitByKeepsLive(es0: Entries, es: Entries, rev: Index, news: seq<string>, extra: multiset<string>)
    requires HitBy(es0, es, rev, news, extra)
    ensures LiveKeys(es) == LiveKeys(es0)
  {
    forall k ensures k in LiveKeys(es) <==> k in LiveKeys(es0) {
      assert HitAt(es0, es, rev, news, extra, k);
    }
  }

  /** Hitting d once, when it is live; there is nothing to hit otherwise. */
  lemma HitByOne(es: Entries, rev: Index, d: string)
    ensures d in es ==> HitBy(es, es[d := Hit(es[d], 1)], rev, [], multiset{d})
    ensures d !in LiveKeys(es) ==> HitBy(es, es, rev, [], multiset{d})
  {
    if d in es {
      var es1 := es[d := Hit(es[d], 1)];
      forall k ensures HitAt(es, es1, rev, [], multiset{d}, k) {
      }
    }
    if d !in LiveKeys(es) {
      forall k ensures HitAt(es, es, rev, [], multiset{d}, k) {
      }
    }
  }

  lemma HitByThen(es0: Entries, es1: Entries, es2: Entries, rev: Index,
                  news1: seq<string>, extra1: multiset<string>, news2: seq<string>, extra2: multiset<string>)
    requires HitBy(es0, es1, rev, news1, extra1) && HitBy(es1, es2, rev, news2, extra2)
    ensures HitBy(es0, es2, rev, news1 + news2, extra1 + extra2)
  {
    forall k ensures HitAt(es0, es2, rev, news1 + news2, extra1 + extra2, k) {
      assert HitAt(es0, es1, rev, news1, extra1, k) && HitAt(es1, es2, rev, news2, extra2, k);
      HitsOfConcat(rev, news1, news2, k);
      if k in es0 {
        HitTwice(es0[k], Hits(rev, news1, k) + extra1[k], Hits(rev, news2, k) + extra2[k]);
      }
    }
  }

  /** A key has sent its hits once every position of its list has been dealt with. */
  lemma HitByWhole(es0: Entries, es: Entries, rev: Index, key: string, news: seq<string>)
    requires HitBy(es0, es, rev, news, multiset(ListAt(rev, key)))
    ensures HitBy(es0, es, rev, [key] + news, multiset{})
  {
    forall k ensures HitAt(es0, es, rev, [key] + news, multiset{}, k) {
      assert HitAt(es0, es, rev, news, multiset(ListAt(rev, key)), k);
      HitsOfConcat(rev, [key], news, k);
      assert Hits(rev, [key], k) == Hits(rev, [], k) + multiset(ListAt(rev, key))[k];
    }
  }

  /** The visited keys beyond the root are all reached from it. */
  ghost predicate AllReached(live: set<string>, rev: Index, root: string, news: seq<string>) {
    forall u :: u in news ==> u == root || Reaches(live, rev, root, u)
  }

  /** Every live successor of a finished key has been visited. */
  ghost predicate Explored(live: set<string>, rev: Index, news: seq<string>, visited: seq<string>) {
    forall u, k :: u in news && Lists(rev, u, k) && k in live ==> k in visited
  }

  lemma ExploredThen(live: set<string>, rev: Index, root: string, seen: seq<string>, visited: seq<string>, n: nat)
    requires n <= |seen| && seen <= visited
    requires AllReached(live, rev, root, seen[n..]) && AllReached(live, rev, root, visited[|seen|..])
    requires Explored(live, rev, seen[n..], seen) && Explored(live, rev, visited[|seen|..], visited)
    ensures visited[n..] == seen[n..] + visited[|seen|..]
    ensures AllReached(live, rev, root, visited[n..]) && Explored(live, rev, visited[n..], visited)
  {
    assert visited[..|seen|] == seen;
    assert visited[n..] == seen[n..] + visited[|seen|..];
    forall x | x in seen ensures x in visited {
    }
  }

  /** Pushing a key makes the set of keys still unvisited strictly smaller. */
  lemma PushedKey(visited: seq<string>, key: string, visited': seq<string>, all: set<string>)
    requires visited + [key] <= visited' && key in all && key !in visited
    ensures visited <= visited' && key in visited'
    ensures visited'[|visited|..] == [key] + visited'[|visited| + 1..]
    ensures all - Elements(visited') < all - Elements(visited)
  {
    assert visited'[..|visited| + 1] == visited + [key];
    assert visited'[..|visited|] == visited && visited'[|visited|] == key;
    assert key in all - Elements(visited) && key !in all - Elements(visited');
  }
}
