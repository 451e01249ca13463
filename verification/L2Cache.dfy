/** The persistent second-level cache: an entry map and a reverse index updated in place. */
module L2Cache {
  import opened Wrappers
  import opened Sequences
  import opened ReverseIndex
  import opened AgentTypes
  import opened Cascade
  import opened L2Model
  import opened L2Disk

  class L2PersistentCache {
    var entries: map<string, CacheEntry>
    var depRev: map<string, seq<string>>
    const pow: Power

    ghost function State(): L2State
      reads this
    {
      L2State(entries, depRev)
    }

    constructor (pow: Power)
      ensures State() == L2State(map[], map[]) && this.pow == pow
    {
      entries, depRev, this.pow := map[], map[], pow;
    }

    /** Take in what the two files hold. */
    method Init(data: Option<seq<Line>>, file: IndexFile) returns (ghost order: seq<string>)
      modifies this
      ensures data.None? ==> State() == old(State())
      ensures data.Some? ==> entries == LoadedEntries(old(entries), data.value)
      ensures data.Some? && file.Missing? ==> depRev == old(depRev)
      ensures data.Some? && file.Whole? ==> depRev == old(depRev) + file.index
      ensures data.Some? && file.Broken? ==>
                Enumerates(order, entries) && depRev == Rebuilt(old(depRev) + file.delivered, entries, order)
    {
      entries, depRev, order := LoadFromDisk(entries, depRev, data, file);
    }

    /** Write both files and let go of everything. */
    method Shutdown() returns (lines: seq<Line>, index: map<string, seq<string>>, ghost order: seq<string>)
      modifies this
      ensures IsSaved(lines, old(entries), order) && index == old(depRev)
      ensures State() == L2State(map[], map[])
    {
      lines, order := SaveToDisk(entries);
      index := depRev;
      entries, depRev := map[], map[];
    }

    method Get(key: string, now: int) returns (r: Option<CacheEntry>)
      modifies this`entries
      ensures State() == Read(old(State()), key, now)
      ensures r == ReadResult(old(State()), key, now)
    {
      if key !in entries {
        return None;
      }
      var entry := entries[key];
      if Expired(entry, now) {
        return None;
      }
      if entry.status == INVALIDATED {
        return None;
      }
      entry := entry.(accessCount := entry.accessCount + 1);
      entries := entries[key := entry];
      r := Some(entry);
    }

    method Set(key: string, entry: CacheEntry)
      modifies this
      ensures State() == Stored(old(State()), key, entry)
    {
      if key in entries {
        depRev := EraseFromLists(depRev, entries[key].dependsOn, key);
      }
      entries := entries[key := entry];
      depRev := AppendToLists(depRev, entry.dependsOn, key);
    }

    method Remove(key: string)
      modifies this
      ensures State() == Removed(old(State()), key)
    {
      if key in entries {
        depRev := EraseFromExistingLists(depRev, entries[key].dependsOn, key);
        entries := entries - {key};
      }
    }

    method SoftInvalidate(key: string)
      modifies this`entries
      ensures State() == SoftInvalidated(old(State()), key)
    {
      if key !in entries {
        return;
      }
      var e := entries[key];
      entries := entries[key := e.(status := STALE, confidence := e.confidence * 0.3)];
    }

    method HardInvalidate(key: string, cascade: bool)
      modifies this`entries
      ensures State() == HardInvalidated(old(State()), key, cascade)
    {
      if key !in entries {
        return;
      }
      entries := entries[key := Voided(entries[key])];
      if cascade {
        ghost var es, live := entries, LiveKeys(entries);
        var visited := CascadeInvalidateInternal(key, [], key, live);
        assert visited[0..] == visited;
        TraversalIsCascade(es, entries, depRev, key, visited);
      }
    }

    /**
     * One visit of the recursive cascade. `visited` is the list shared by the whole recursion; the
     * ghost arguments name the root of the cascade and the keys that were live when it began. The
     * keys this call adds are reachable, are closed under live edges once the call returns, and
     * have each sent one hit along every edge out of them.
     */
    method CascadeInvalidateInternal(key: string, visited: seq<string>, ghost root: string, ghost live: set<string>)
      returns (visited': seq<string>)
      requires key in entries && NoDup(visited)
      requires live == LiveKeys(entries)
      requires key == root || Reaches(live, depRev, root, key)
      modifies this`entries
      ensures visited <= visited' && NoDup(visited') && key in visited'
      ensures AllReached(live, depRev, root, visited'[|visited|..])
      ensures Explored(live, depRev, visited'[|visited|..], visited')
      ensures HitBy(old(entries), entries, depRev, visited'[|visited|..], multiset{})
      decreases entries.Keys - Elements(visited), 0
    {
      visited' := visited;
      if key in visited {
        HitByNothing(entries, depRev);
        return;
      }
      visited' := visited' + [key];
      ghost var es, n := entries, |visited| + 1;
      HitByNothing(es, depRev);
      if key !in depRev {
        assert visited'[|visited|..] == [key] + [];
        HitByWhole(es, es, depRev, key, []);
        return;
      }
      var dependents := depRev[key];
      for i := 0 to |dependents|
        invariant visited + [key] <= visited' && NoDup(visited')
        invariant AllReached(live, depRev, root, visited'[n..])
        invariant Explored(live, depRev, visited'[n..], visited')
        invariant forall j | 0 <= j < i && dependents[j] in live :: dependents[j] in visited'
        invariant HitBy(es, entries, depRev, visited'[n..], multiset(dependents[..i]))
      {
        ghost var before, seen := entries, visited';
        HitByKeepsLive(es, entries, depRev, seen[n..], multiset(dependents[..i]));
        PushedKey(visited, key, seen, es.Keys);
        assert Lists(depRev, key, dependents[i]);
        visited' := InvalidateDependent(key, dependents[i], visited', root, live);
        assert dependents[..i + 1] == dependents[..i] + [dependents[i]];
        ExploredThen(live, depRev, root, seen, visited', n);
        HitByThen(es, before, entries, depRev, seen[n..], multiset(dependents[..i]),
                  visited'[|seen|..], multiset{dependents[i]});
      }
      assert dependents[..|dependents|] == dependents;
      PushedKey(visited, key, visited', es.Keys);
      HitByWhole(es, entries, depRev, key, visited'[n..]);
    }

    /** The body of the cascade's loop: one edge from key to one of its dependents. */
    method InvalidateDependent(ghost key: string, depKey: string, visited: seq<string>,
                               ghost root: string, ghost live: set<string>)
      returns (visited': seq<string>)
      requires NoDup(visited) && live == LiveKeys(entries)
      requires Lists(depRev, key, depKey) && (key == root || Reaches(live, depRev, root, key))
      modifies this`entries
      ensures visited <= visited' && NoDup(visited') && (depKey in live ==> depKey in visited')
      ensures AllReached(live, depRev, root, visited'[|visited|..])
      ensures Explored(live, depRev, visited'[|visited|..], visited')
      ensures HitBy(old(entries), entries, depRev, visited'[|visited|..], multiset{depKey})
      decreases entries.Keys - Elements(visited), 1
    {
      visited' := visited;
      ghost var es := entries;
      HitByOne(es, depRev, depKey);
      if depKey in entries && entries[depKey].status != INVALIDATED {
        var dep := entries[depKey];
        entries := entries[depKey := dep.(status := STALE, confidence := dep.confidence * 0.3)];
        OneHit(es, entries, depKey);
        ghost var mid := entries;
        HitByKeepsLive(es, mid, depRev, [], multiset{depKey});
        ReachesExtends(live, depRev, root, key, depKey);
        visited' := CascadeInvalidateInternal(depKey, visited', root, live);
        HitByThen(es, mid, entries, depRev, [], multiset{depKey}, visited'[|visited|..], multiset{});
        assert [] + visited'[|visited|..] == visited'[|visited|..];
        assert multiset{depKey} + multiset{} == multiset{depKey};
      } else {
        assert visited'[|visited|..] == [];
      }
    }

    method ApplyConfidenceDecay(now: int)
      modifies this`entries
      ensures State() == AllDecayed(pow, old(State()), now)
    {
      ghost var es := entries;
      var todo := entries.Keys;
      while todo != {}
        invariant todo <= entries.Keys == es.Keys
        invariant forall k | k in es :: entries[k] == if k in todo then es[k] else Decayed(pow, es[k], now)
        decreases |todo|
      {
        var key :| key in todo;
        todo := todo - {key};
        var entry := entries[key];
        if entry.status != INVALIDATED {
          var newConf := DecayedConfidence(pow, entry, now);
          if newConf < CONFIDENCE_STALE {
            entry := entry.(status := STALE);
          }
          entries := entries[key := entry.(confidence := newConf)];
        }
      }
    }

    /** With a consistent index, the keys of exactly the entries that name this one, each once. */
    method DependentsOf(key: string) returns (r: seq<string>)
      ensures r == ListAt(depRev, key)
      ensures Consistent(State()) ==>
                NoDup(r) && forall k :: k in r <==> k in entries && key in entries[k].dependsOn
    {
      if Consistent(State()) {
        forall k ensures Lists(depRev, key, k) <==> k in entries && key in entries[k].dependsOn {
          assert Lists(depRev, key, k) <==> Points(Dependencies(entries), k, key);
        }
      }
      r := if key in depRev then depRev[key] else [];
    }

    method PurgeExpired(now: int)
      modifies this
      ensures State() == Purged(old(State()), now)
    {
      RemoveAll(PurgeableKeys(entries, now));
    }

    method RemoveAll(toRemove: set<string>)
      requires toRemove <= entries.Keys
      modifies this
      ensures State() == RemovedAll(old(State()), toRemove)
    {
      ghost var st := State();
      var todo := toRemove;
      RemovedNone(st);
      assert toRemove - todo == {};
      while todo != {}
        invariant todo <= toRemove <= st.entries.Keys
        invariant State() == RemovedAll(st, toRemove - todo)
      {
        var key :| key in todo;
        RemovedAllStep(st, toRemove - todo, key);
        assert toRemove - (todo - {key}) == toRemove - todo + {key};
        todo := todo - {key};
        Remove(key);
      }
      assert toRemove - todo == toRemove;
    }
  }

  /** A finished traversal from the root has done what the cascade is specified to do. */
  lemma TraversalIsCascade(es: Entries, after: Entries, rev: Index, root: string, visited: seq<string>)
    requires NoDup(visited) && root in visited
    requires AllReached(LiveKeys(es), rev, root, visited) && Explored(LiveKeys(es), rev, visited, visited)
    requires HitBy(es, after, rev, visited, multiset{})
    ensures after == Cascaded(es, rev, root)
  {
    ClosedContainsReached(LiveKeys(es), rev, root, Elements(visited));
    assert Elements(visited) == CascadeSet(es, rev, root);
    forall k | k in es ensures after[k] == Cascaded(es, rev, root)[k] {
      assert HitAt(es, after, rev, visited, multiset{}, k);
      HitsCountEdges(rev, visited, k);
    }
  }

  lemma OneHit(before: Entries, after: Entries, d: string)
    requires d in before && !before[d].status.INVALIDATED?
    requires after == before[d := before[d].(status := STALE, confidence := before[d].confidence * 0.3)]
    ensures after == before[d := Hit(before[d], 1)]
  {
    var c := before[d].confidence;
    assert Damped(c, 1) == Damped(c, 0) * 0.3;
  }

  lemma RemovedNone(st: L2State)
    ensures RemovedAll(st, {}) == st
  {
    forall d | d in st.rev ensures WithoutPurged(st.entries, st.rev[d], d, {}) == st.rev[d] {
      WithoutNone(st.entries, st.rev[d], d);
    }
  }

  lemma {:induction false} WithoutNone(es: Entries, list: seq<string>, d: string)
    ensures WithoutPurged(es, list, d, {}) == list
  {
    if list != [] {
      WithoutNone(es, list[1..], d);
    }
  }

  /** Removing one more key is the single-key removal applied to the result so far. */
  lemma RemovedAllStep(st: L2State, gone: set<string>, key: string)
    requires key in st.entries && key !in gone
    ensures RemovedAll(st, gone + {key}) == Removed(RemovedAll(st, gone), key)
  {
    var a, b := RemovedAll(st, gone + {key}), Removed(RemovedAll(st, gone), key);
    forall d | d in st.rev ensures a.rev[d] == b.rev[d] {
      WithoutOneMore(st.entries, st.rev[d], d, gone, key);
    }
    assert a.rev == b.rev;
    assert a.entries == b.entries;
  }

  lemma {:induction false} WithoutOneMore(es: Entries, list: seq<string>, d: string, gone: set<string>, key: string)
    requires key in es
    ensures var r := WithoutPurged(es, list, d, gone);
            WithoutPurged(es, list, d, gone + {key}) == if d in es[key].dependsOn then Without(r, key) else r
  {
    if list != [] {
      WithoutOneMore(es, list[1..], d, gone, key);
    }
  }
}
