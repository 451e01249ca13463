/**
 * A least-recently-used store as the list of its items, most recent first, and how long a key
 * stays resident over a run. Both in-memory caches of the gateway are stores of this kind.
 */
module Lru {
  import opened Wrappers
  import opened Sequences

  datatype Item<+V> = Item(key: string, value: V)

  /** When a value is too old to be served, and what a hit does to it. */
  datatype Policy<!V> = Policy(expired: (V, int) -> bool, touch: V -> V)

  function Keys<V>(s: seq<Item<V>>): (r: set<string>)
    ensures forall k :: k in r <==> exists i :: 0 <= i < |s| && s[i].key == k
  {
    set i | 0 <= i < |s| :: s[i].key
  }

  ghost predicate DistinctKeys<V>(s: seq<Item<V>>) {
    forall i, j :: 0 <= i < j < |s| ==> s[i].key != s[j].key
  }

  function WithoutKey<V>(s: seq<Item<V>>, k: string): (r: seq<Item<V>>)
    ensures |r| <= |s|
  {
    if s == [] then []
    else if s[0].key == k then WithoutKey(s[1..], k)
    else [s[0]] + WithoutKey(s[1..], k)
  }

  function Lookup<V>(s: seq<Item<V>>, k: string): Option<V> {
    if s == [] then None else if s[0].key == k then Some(s[0].value) else Lookup(s[1..], k)
  }

  // ---- operations ----

  function AfterGet<V>(p: Policy<V>, s: seq<Item<V>>, k: string, now: int): seq<Item<V>> {
    match Lookup(s, k)
    case None => s
    case Some(v) => if p.expired(v, now) then WithoutKey(s, k) else [Item(k, p.touch(v))] + WithoutKey(s, k)
  }

  function GetResult<V>(p: Policy<V>, s: seq<Item<V>>, k: string, now: int): Option<V> {
    match Lookup(s, k)
    case None => None
    case Some(v) => if p.expired(v, now) then None else Some(p.touch(v))
  }

  function Truncated<V>(s: seq<Item<V>>, n: nat): seq<Item<V>> {
    if |s| <= n then s else s[..n]
  }

  /** A new key first makes room, a known one only moves to the front. */
  function AfterSet<V>(s: seq<Item<V>>, k: string, v: V, max: nat): seq<Item<V>>
    requires max > 0
  {
    if Lookup(s, k).Some? then [Item(k, v)] + WithoutKey(s, k) else [Item(k, v)] + Truncated(s, max - 1)
  }

  // ---- basic facts ----

  lemma {:induction false} LookupIsKey<V>(s: seq<Item<V>>, k: string)
    ensures Lookup(s, k).Some? <==> k in Keys(s)
    ensures Lookup(s, k).Some? ==> exists i :: 0 <= i < |s| && s[i] == Item(k, Lookup(s, k).value)
  {
    if s != [] {
      LookupIsKey(s[1..], k);
      forall i | 0 <= i < |s[1..]| ensures s[i + 1] == s[1..][i] {
      }
      if k in Keys(s) && s[0].key != k {
        var i :| 0 <= i < |s| && s[i].key == k;
        assert s[1..][i - 1].key == k;
      }
    }
  }

  lemma {:induction false} LookupAt<V>(s: seq<Item<V>>, i: nat)
    requires DistinctKeys(s) && i < |s|
    ensures Lookup(s, s[i].key) == Some(s[i].value)
  {
    if i > 0 {
      LookupAt(s[1..], i - 1);
    }
  }

  lemma {:induction false} WithoutAbsentKey<V>(s: seq<Item<V>>, k: string)
    requires forall i :: 0 <= i < |s| ==> s[i].key != k
    ensures WithoutKey(s, k) == s
  {
    if s != [] {
      WithoutAbsentKey(s[1..], k);
    }
  }

  lemma {:induction false} WithoutKeyAt<V>(s: seq<Item<V>>, i: nat)
    requires DistinctKeys(s) && i < |s|
    ensures WithoutKey(s, s[i].key) == s[..i] + s[i + 1..]
  {
    if i == 0 {
      WithoutAbsentKey(s[1..], s[0].key);
    } else {
      var rest := s[1..];
      assert rest[i - 1] == s[i];
      WithoutKeyAt(rest, i - 1);
      assert WithoutKey(s, s[i].key) == [s[0]] + (rest[..i - 1] + rest[i..]);
      assert s[..i] == [s[0]] + rest[..i - 1] && s[i + 1..] == rest[i..];
    }
  }

  lemma {:induction false} LookupWithout<V>(s: seq<Item<V>>, k: string, other: string)
    ensures Lookup(WithoutKey(s, k), other) == if other == k then None else Lookup(s, other)
  {
    if s != [] {
      LookupWithout(s[1..], k, other);
    }
  }

  lemma {:induction false} LookupPrefix<V>(s: seq<Item<V>>, n: nat, k: string)
    requires n <= |s| && Lookup(s[..n], k).Some?
    ensures Lookup(s, k) == Lookup(s[..n], k)
  {
    if n > 0 && s[0].key != k {
      assert s[..n][1..] == s[1..][..n - 1];
      LookupPrefix(s[1..], n - 1, k);
    }
  }

  lemma KeysOfPush<V>(x: Item<V>, s: seq<Item<V>>)
    ensures Keys([x] + s) == {x.key} + Keys(s)
  {
    var t := [x] + s;
    forall k | k in Keys(s) ensures k in Keys(t) {
      var i :| 0 <= i < |s| && s[i].key == k;
      assert t[i + 1].key == k;
    }
    assert t[0].key == x.key;
  }

  lemma {:induction false} WithoutKeyShortens<V>(s: seq<Item<V>>, k: string)
    requires Lookup(s, k).Some?
    ensures |WithoutKey(s, k)| < |s|
  {
    if s[0].key != k {
      WithoutKeyShortens(s[1..], k);
    }
  }

  lemma {:induction false} WithoutKeyKeys<V>(s: seq<Item<V>>, k: string)
    ensures Keys(WithoutKey(s, k)) == Keys(s) - {k}
  {
    if s != [] {
      var rest := s[1..];
      WithoutKeyKeys(rest, k);
      assert s == [s[0]] + rest;
      KeysOfPush(s[0], rest);
      KeysOfPush(s[0], WithoutKey(rest, k));
    }
  }

  lemma {:induction false} WithoutKeyFacts<V>(s: seq<Item<V>>, k: string)
    requires DistinctKeys(s)
    ensures DistinctKeys(WithoutKey(s, k)) && Keys(WithoutKey(s, k)) == Keys(s) - {k}
    ensures k in Keys(s) ==> |WithoutKey(s, k)| == |s| - 1
  {
    WithoutKeyKeys(s, k);
    if s != [] {
      var rest := s[1..];
      WithoutKeyFacts(rest, k);
      assert s == [s[0]] + rest;
      KeysOfPush(s[0], rest);
      assert s[0].key !in Keys(rest);
      assert s[0].key !in Keys(WithoutKey(rest, k));
      if s[0].key == k {
        WithoutAbsentKey(rest, k);
      }
    }
  }

  lemma KeysCardinality<V>(s: seq<Item<V>>)
    requires DistinctKeys(s)
    ensures |Keys(s)| == |s|
  {
    var names := seq(|s|, i requires 0 <= i < |s| => s[i].key);
    NoDupCardinality(names);
    forall k ensures k in Elements(names) <==> k in Keys(s) {
      if k in Keys(s) {
        var i :| 0 <= i < |s| && s[i].key == k;
        assert names[i] == k;
      }
    }
    assert Elements(names) == Keys(s);
  }

  // ---- what a store keeps ----

  ghost predicate Proper<V>(s: seq<Item<V>>, max: nat) {
    DistinctKeys(s) && |s| <= max
  }

  lemma GetKeepsProper<V>(p: Policy<V>, s: seq<Item<V>>, k: string, now: int, max: nat)
    requires Proper(s, max)
    ensures Proper(AfterGet(p, s, k, now), max)
  {
    LookupIsKey(s, k);
    WithoutKeyFacts(s, k);
  }

  lemma SetKeepsProper<V>(s: seq<Item<V>>, k: string, v: V, max: nat)
    requires Proper(s, max) && max > 0
    ensures Proper(AfterSet(s, k, v, max), max) && Lookup(AfterSet(s, k, v, max), k) == Some(v)
  {
    LookupIsKey(s, k);
    WithoutKeyFacts(s, k);
  }

  /** What a read leaves: an expired item goes, a live one is renewed in front, the others stay as they are. */
  lemma GetExactly<V>(p: Policy<V>, s: seq<Item<V>>, k: string, now: int, other: string)
    ensures var v, after := Lookup(s, k), AfterGet(p, s, k, now);
            && (v.Some? && p.expired(v.value, now) ==> Lookup(after, k) == None)
            && (v.Some? && !p.expired(v.value, now) ==> after != [] && after[0] == Item(k, p.touch(v.value)))
            && (v.None? ==> after == s)
            && (other != k ==> Lookup(after, other) == Lookup(s, other))
  {
    LookupWithout(s, k, k);
    LookupWithout(s, k, other);
  }

  // ---- residency ----

  datatype Op<V> =
    | Get(key: string, now: int)
    | Set(key: string, value: V)
    | Erase(key: string)

  function Apply<V>(p: Policy<V>, s: seq<Item<V>>, op: Op<V>, max: nat): seq<Item<V>>
    requires max > 0
  {
    match op
    case Get(k, now) => AfterGet(p, s, k, now)
    case Set(k, v) => AfterSet(s, k, v, max)
    case Erase(k) => WithoutKey(s, k)
  }

  function Replay<V>(p: Policy<V>, s: seq<Item<V>>, ops: seq<Op<V>>, max: nat): seq<Item<V>>
    requires max > 0
  {
    if ops == [] then s else Apply(p, Replay(p, s, ops[..|ops| - 1], max), ops[|ops| - 1], max)
  }

  /** The operation sets or hits its key, and so brings it to the front. */
  predicate Uses<V>(p: Policy<V>, s: seq<Item<V>>, op: Op<V>) {
    op.Set? || (op.Get? && GetResult(p, s, op.key, op.now).Some?)
  }

  /** The keys other than k that the run sets or hits. */
  function OthersUsed<V>(p: Policy<V>, s: seq<Item<V>>, ops: seq<Op<V>>, k: string, max: nat): set<string>
    requires max > 0
  {
    if ops == [] then {}
    else
      var before, op := ops[..|ops| - 1], ops[|ops| - 1];
      OthersUsed(p, s, before, k, max)
      + if op.key != k && Uses(p, Replay(p, s, before, max), op) then {op.key} else {}
  }

  /** The run neither erases k nor reads it after it expired. */
  ghost predicate Spares<V>(p: Policy<V>, s: seq<Item<V>>, ops: seq<Op<V>>, k: string, max: nat)
    requires max > 0
  {
    forall i :: 0 <= i < |ops| && ops[i].key == k ==>
      && !ops[i].Erase?
      && (ops[i].Get? ==>
            var v := Lookup(Replay(p, s, ops[..i], max), k);
            v.Some? ==> !p.expired(v.value, ops[i].now))
  }

  /** k is in s, and every item in front of it has its key in others. */
  ghost predicate BehindAtMost<V>(s: seq<Item<V>>, k: string, others: set<string>) {
    exists i :: 0 <= i < |s| && s[i].key == k && forall j :: 0 <= j < i ==> s[j].key in others
  }

  /**
   * A key that was just set or hit is still resident after any run that sets or hits fewer than
   * max distinct other keys and neither erases it nor finds it expired.
   */
  lemma Residency<V>(p: Policy<V>, s: seq<Item<V>>, use: Op<V>, ops: seq<Op<V>>, max: nat)
    requires max > 0 && Proper(s, max) && Uses(p, s, use)
    requires Spares(p, Apply(p, s, use, max), ops, use.key, max)
    requires |OthersUsed(p, Apply(p, s, use, max), ops, use.key, max)| < max
    ensures use.key in Keys(Replay(p, Apply(p, s, use, max), ops, max))
  {
    StepKeepsProper(p, s, use, max);
    ResidencyOver(p, Apply(p, s, use, max), ops, use.key, max);
  }

  lemma {:induction false} ResidencyOver<V>(p: Policy<V>, s: seq<Item<V>>, ops: seq<Op<V>>, k: string, max: nat)
    requires max > 0 && Proper(s, max) && s != [] && s[0].key == k
    requires Spares(p, s, ops, k, max) && |OthersUsed(p, s, ops, k, max)| < max
    ensures Proper(Replay(p, s, ops, max), max) && k !in OthersUsed(p, s, ops, k, max)
    ensures BehindAtMost(Replay(p, s, ops, max), k, OthersUsed(p, s, ops, k, max))
  {
    if ops != [] {
      var n := |ops| - 1;
      var before, op := ops[..n], ops[n];
      var used := OthersUsed(p, s, before, k, max);
      SubsetCardinality(used, OthersUsed(p, s, ops, k, max));
      SparesPrefix(p, s, ops, k, max);
      ResidencyOver(p, s, before, k, max);
      StepKeepsBehind(p, Replay(p, s, before, max), op, k, used, max);
    }
  }

  /** The bound is sharp: setting a new key in a full store loses the least recent one, and no other. */
  lemma FullStoreLosesLeastRecent<V>(s: seq<Item<V>>, x: string, v: V, max: nat)
    requires Proper(s, max) && |s| == max > 0 && x !in Keys(s)
    ensures Keys(AfterSet(s, x, v, max)) == Keys(s) - {s[max - 1].key} + {x}
  {
    var init := s[..max - 1];
    LookupIsKey(s, x);
    KeysOfPush(Item(x, v), init);
    KeysOfInit(s);
  }

  lemma KeysOfInit<V>(s: seq<Item<V>>)
    requires DistinctKeys(s) && s != []
    ensures Keys(s[..|s| - 1]) == Keys(s) - {s[|s| - 1].key}
  {
    var init, last := s[..|s| - 1], s[|s| - 1];
    forall k | k in Keys(init) ensures k in Keys(s) && k != last.key {
      var i :| 0 <= i < |init| && init[i].key == k;
      assert s[i].key == k;
    }
    forall k | k in Keys(s) && k != last.key ensures k in Keys(init) {
      var i :| 0 <= i < |s| && s[i].key == k;
      assert init[i].key == k;
    }
  }

  lemma StepKeepsProper<V>(p: Policy<V>, t: seq<Item<V>>, op: Op<V>, max: nat)
    requires max > 0 && Proper(t, max)
    ensures Proper(Apply(p, t, op, max), max)
  {
    match op
    case Get(k, now) => GetKeepsProper(p, t, k, now, max);
    case Set(k, v) => SetKeepsProper(t, k, v, max);
    case Erase(k) => WithoutKeyFacts(t, k);
  }

  lemma StepKeepsBehind<V>(p: Policy<V>, t: seq<Item<V>>, op: Op<V>, k: string, used: set<string>, max: nat)
    requires max > 0 && Proper(t, max) && BehindAtMost(t, k, used) && k !in used
    requires op.key == k ==> !op.Erase?
    requires op.key == k && op.Get? ==> Lookup(t, k).Some? ==> !p.expired(Lookup(t, k).value, op.now)
    requires var used' := used + if op.key != k && Uses(p, t, op) then {op.key} else {}; |used'| < max
    ensures var used' := used + if op.key != k && Uses(p, t, op) then {op.key} else {};
            Proper(Apply(p, t, op, max), max) && BehindAtMost(Apply(p, t, op, max), k, used')
  {
    var x := op.key;
    StepKeepsProper(p, t, op, max);
    LookupIsKey(t, x);
    LookupIsKey(t, k);
    if x != k {
      WithoutKeepsBehind(t, x, k, used);
      if op.Set? && Lookup(t, x).None? {
        TruncationKeepsBehind(t, x, k, used, max);
        PushKeepsBehind(Truncated(t, max - 1), Item(x, op.value), k, used);
      } else if op.Set? {
        PushKeepsBehind(WithoutKey(t, x), Item(x, op.value), k, used);
      } else if Uses(p, t, op) {
        PushKeepsBehind(WithoutKey(t, x), Item(x, p.touch(Lookup(t, x).value)), k, used);
      } else {
        assert used + {} == used;
      }
    } else {
      assert Apply(p, t, op, max)[0].key == k;
      assert used + {} == used;
    }
  }

  lemma SparesPrefix<V>(p: Policy<V>, s: seq<Item<V>>, ops: seq<Op<V>>, k: string, max: nat)
    requires max > 0 && ops != [] && Spares(p, s, ops, k, max)
    ensures Spares(p, s, ops[..|ops| - 1], k, max)
  {
    var before := ops[..|ops| - 1];
    forall i | 0 <= i < |before| ensures before[..i] == ops[..i] {
    }
  }

  lemma PushKeepsBehind<V>(t: seq<Item<V>>, item: Item<V>, k: string, used: set<string>)
    requires BehindAtMost(t, k, used)
    ensures BehindAtMost([item] + t, k, used + {item.key})
  {
    var i :| 0 <= i < |t| && t[i].key == k && forall j :: 0 <= j < i ==> t[j].key in used;
    var t' := [item] + t;
    assert t'[i + 1].key == k;
    forall j | 0 <= j < i + 1 ensures t'[j].key in used + {item.key} {
      assert j > 0 ==> t'[j] == t[j - 1];
    }
  }

  lemma {:induction false} WithoutKeepsBehind<V>(t: seq<Item<V>>, x: string, k: string, used: set<string>)
    requires BehindAtMost(t, k, used) && x != k
    ensures BehindAtMost(WithoutKey(t, x), k, used)
  {
    var i :| 0 <= i < |t| && t[i].key == k && forall j :: 0 <= j < i ==> t[j].key in used;
    if i == 0 {
      assert WithoutKey(t, x)[0].key == k;
    } else {
      assert t[1..][i - 1].key == k;
      WithoutKeepsBehind(t[1..], x, k, used);
      if t[0].key != x {
        PushKeepsBehind(WithoutKey(t[1..], x), t[0], k, used);
        assert used + {t[0].key} == used;
      }
    }
  }

  /** Eviction cannot reach k: the items in front of it are too few to fill the store. */
  lemma TruncationKeepsBehind<V>(t: seq<Item<V>>, x: string, k: string, used: set<string>, max: nat)
    requires Proper(t, max) && BehindAtMost(t, k, used) && max > 0 && k !in used
    requires x !in Keys(t) && |used + {x}| < max
    ensures BehindAtMost(Truncated(t, max - 1), k, used)
  {
    var i :| 0 <= i < |t| && t[i].key == k && forall j :: 0 <= j < i ==> t[j].key in used;
    FrontIsUsed(t, i, x, used);
    assert i + 1 < max;
    assert Truncated(t, max - 1)[i].key == k;
  }

  lemma FrontIsUsed<V>(t: seq<Item<V>>, i: nat, x: string, used: set<string>)
    requires DistinctKeys(t) && i <= |t| && x !in Keys(t)
    requires forall j :: 0 <= j < i ==> t[j].key in used
    ensures i + 1 <= |used + {x}|
  {
    var front := t[..i];
    KeysCardinality(front);
    assert Keys(front) <= used && x !in Keys(front);
    SubsetCardinality(Keys(front) + {x}, used + {x});
  }
}
