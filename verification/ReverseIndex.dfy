/**
 * The list-valued reverse index kept beside an owner map. The L2 cache keeps one from a
 * dependency to the entries that name it, the agent registry keeps one from a capability to
 * the sessions that offer it.
 */
module ReverseIndex {
  import opened Sequences

  type Index = map<string, seq<string>>

  predicate Lists(index: Index, target: string, key: string) {
    target in index && key in index[target]
  }

  predicate Points(owners: map<string, seq<string>>, key: string, target: string) {
    key in owners && target in owners[key]
  }

  /** The index lists key under target exactly when the owner of key points at target, and only once. */
  ghost predicate Agrees(index: Index, owners: map<string, seq<string>>) {
    && (forall d | d in index :: NoDup(index[d]))
    && (forall d, k :: Lists(index, d, k) <==> Points(owners, k, d))
  }

  function ListAt(index: Index, target: string): seq<string> {
    if target in index then index[target] else []
  }

  /** Erase key from the list of every target; operator[] makes a missing list. */
  function Drop(index: Index, targets: seq<string>, key: string): Index {
    map d | d in index.Keys + Elements(targets) ::
      if d in targets then Without(ListAt(index, d), key) else ListAt(index, d)
  }

  /** Erase key from the lists of the targets that have one. */
  function DropExisting(index: Index, targets: seq<string>, key: string): Index {
    map d | d in index :: if d in targets then Without(index[d], key) else index[d]
  }

  /** Erase key from the lists of the targets, and every such list that ends up empty. */
  function DropAndPrune(index: Index, targets: seq<string>, key: string): Index {
    map d | d in index && (d in targets ==> Without(index[d], key) != []) ::
      if d in targets then Without(index[d], key) else index[d]
  }

  /** Append key to the list of every target that does not hold it. */
  function Add(index: Index, targets: seq<string>, key: string): Index {
    map d | d in index.Keys + Elements(targets) ::
      if d in targets then AppendOnce(ListAt(index, d), key) else ListAt(index, d)
  }

  function AppendOnce(v: seq<string>, key: string): (r: seq<string>)
    ensures key in r
    ensures forall k :: k in r <==> k in v || k == key
    ensures key in v ==> r == v
  {
    if key in v then v else v + [key]
  }

  // ---- the loops ----

  lemma DropStep(index: Index, done: seq<string>, target: string, key: string)
    ensures var r := Drop(index, done, key);
            Drop(index, done + [target], key) == r[target := Without(ListAt(r, target), key)]
  {
    var r, next := Drop(index, done, key), Drop(index, done + [target], key);
    assert next.Keys == r.Keys + {target};
    forall d | d in next ensures next[d] == r[target := Without(ListAt(r, target), key)][d] {
    }
  }

  lemma PruneStep(index: Index, done: seq<string>, target: string, key: string)
    ensures var r, next := DropAndPrune(index, done, key), DropAndPrune(index, done + [target], key);
            next == if target !in r then r
                    else if Without(r[target], key) == [] then r - {target}
                    else r[target := Without(r[target], key)]
  {
    assert forall d :: d in done + [target] <==> d in done || d == target;
  }

  lemma AddStep(index: Index, done: seq<string>, target: string, key: string)
    ensures var r := Add(index, done, key);
            Add(index, done + [target], key) == r[target := AppendOnce(ListAt(r, target), key)]
  {
    var r, next := Add(index, done, key), Add(index, done + [target], key);
    var v := AppendOnce(ListAt(r, target), key);
    assert next.Keys == r.Keys + {target};
    forall d | d in next ensures next[d] == r[target := v][d] {
      if d == target {
        assert ListAt(r, d) == if d in done then AppendOnce(ListAt(index, d), key) else ListAt(index, d);
      } else {
        assert d in done + [target] <==> d in done;
      }
    }
  }

  method EraseFromLists(index: Index, targets: seq<string>, key: string) returns (r: Index)
    ensures r == Drop(index, targets, key)
  {
    r := index;
    for i := 0 to |targets|
      invariant r == Drop(index, targets[..i], key)
    {
      assert targets[..i + 1] == targets[..i] + [targets[i]];
      DropStep(index, targets[..i], targets[i], key);
      r := r[targets[i] := Without(ListAt(r, targets[i]), key)];
    }
    assert targets[..|targets|] == targets;
  }

  method EraseFromExistingLists(index: Index, targets: seq<string>, key: string) returns (r: Index)
    ensures r == DropExisting(index, targets, key)
  {
    r := index;
    for i := 0 to |targets|
      invariant r == DropExisting(index, targets[..i], key)
    {
      assert targets[..i + 1] == targets[..i] + [targets[i]];
      if targets[i] in r {
        r := r[targets[i] := Without(r[targets[i]], key)];
      }
    }
    assert targets[..|targets|] == targets;
  }

  method EraseAndPruneLists(index: Index, targets: seq<string>, key: string) returns (r: Index)
    ensures r == DropAndPrune(index, targets, key)
  {
    r := index;
    for i := 0 to |targets|
      invariant r == DropAndPrune(index, targets[..i], key)
    {
      var d := targets[i];
      assert targets[..i + 1] == targets[..i] + [d];
      PruneStep(index, targets[..i], d, key);
      if d in r {
        var v := Without(r[d], key);
        r := if v == [] then r - {d} else r[d := v];
      }
    }
    assert targets[..|targets|] == targets;
  }

  method AppendToLists(index: Index, targets: seq<string>, key: string) returns (r: Index)
    ensures r == Add(index, targets, key)
  {
    r := index;
    for i := 0 to |targets|
      invariant r == Add(index, targets[..i], key)
    {
      assert targets[..i + 1] == targets[..i] + [targets[i]];
      AddStep(index, targets[..i], targets[i], key);
      var v := ListAt(r, targets[i]);
      if key !in v {
        v := v + [key];
      }
      r := r[targets[i] := v];
    }
    assert targets[..|targets|] == targets;
  }

  // ---- what the loops keep ----

  /** Dropping everything an owner points at removes exactly that owner, whichever way it is dropped. */
  lemma DropAgrees(index: Index, owners: map<string, seq<string>>, key: string)
    requires Agrees(index, owners) && key in owners
    ensures Agrees(Drop(index, owners[key], key), owners - {key})
    ensures Agrees(DropExisting(index, owners[key], key), owners - {key})
    ensures Agrees(DropAndPrune(index, owners[key], key), owners - {key})
  {
    forall d | d in index ensures NoDup(Without(index[d], key)) {
      WithoutKeepsNoDup(index[d], key);
    }
    forall d, k
      ensures Points(owners - {key}, k, d) <==> Lists(index, d, k) && k != key
      ensures Lists(index, d, key) ==> d in owners[key]
    {
      assert Lists(index, d, k) <==> Points(owners, k, d);
      assert Lists(index, d, key) <==> Points(owners, key, d);
    }
  }

  lemma AddAgrees(index: Index, owners: map<string, seq<string>>, key: string, targets: seq<string>)
    requires Agrees(index, owners) && key !in owners
    ensures Agrees(Add(index, targets, key), owners[key := targets])
  {
    var added, after := Add(index, targets, key), owners[key := targets];
    forall d, k
      ensures Lists(added, d, k) <==> Points(after, k, d)
    {
      assert Lists(index, d, k) <==> Points(owners, k, d);
    }
    forall d | d in added ensures NoDup(added[d]) {
      assert Lists(index, d, key) <==> Points(owners, key, d);
    }
  }

  /** Two indexes that agree with the same owners list the same keys everywhere. */
  lemma AgreementIsUnique(a: Index, b: Index, owners: map<string, seq<string>>, target: string)
    requires Agrees(a, owners) && Agrees(b, owners)
    ensures multiset(ListAt(a, target)) == multiset(ListAt(b, target))
  {
    forall k ensures k in ListAt(a, target) <==> k in ListAt(b, target) {
      assert Lists(a, target, k) <==> Points(owners, k, target);
      assert Lists(b, target, k) <==> Points(owners, k, target);
    }
    forall k ensures multiset(ListAt(a, target))[k] == multiset(ListAt(b, target))[k] {
      OccursOnce(ListAt(a, target), k);
      OccursOnce(ListAt(b, target), k);
    }
  }

  lemma {:induction false} OccursOnce<T>(s: seq<T>, x: T)
    requires NoDup(s)
    ensures multiset(s)[x] == if x in s then 1 else 0
  {
    if s != [] {
      assert s == [s[0]] + s[1..];
      OccursOnce(s[1..], x);
    }
  }
}
