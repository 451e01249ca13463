/**
 * What each operation of the persistent cache does to the entry map and the reverse index,
 * and what those operations keep.
 */
module L2Model {
  import opened Wrappers
  import opened Sequences
  import opened ReverseIndex
  import opened AgentTypes
  import opened Cascade

  datatype L2State = L2State(entries: Entries, rev: Index)

  const CONFIDENCE_FRESH := 0.7
  const CONFIDENCE_STALE := 0.3

  function Dependencies(es: Entries): map<string, seq<string>> {
    map k | k in es :: es[k].dependsOn
  }

  /** The reverse index lists k under d exactly when entry k depends on d, once. */
  ghost predicate Consistent(st: L2State) {
    Agrees(st.rev, Dependencies(st.entries))
  }

  // ---- operations ----

  predicate Readable(es: Entries, key: string, now: int) {
    key in es && !Expired(es[key], now) && !es[key].status.INVALIDATED?
  }

  function Touched(e: CacheEntry): CacheEntry {
    e.(accessCount := e.accessCount + 1)
  }

  function Read(st: L2State, key: string, now: int): L2State {
    if Readable(st.entries, key, now)
    then st.(entries := st.entries[key := Touched(st.entries[key])])
    else st
  }

  function ReadResult(st: L2State, key: string, now: int): Option<CacheEntry> {
    if Readable(st.entries, key, now) then Some(Touched(st.entries[key])) else None
  }

  function Stored(st: L2State, key: string, e: CacheEntry): L2State {
    var dropped := if key in st.entries then Drop(st.rev, st.entries[key].dependsOn, key) else st.rev;
    L2State(st.entries[key := e], Add(dropped, e.dependsOn, key))
  }

  function Removed(st: L2State, key: string): L2State {
    if key in st.entries
    then L2State(st.entries - {key}, DropExisting(st.rev, st.entries[key].dependsOn, key))
    else st
  }

  function SoftInvalidated(st: L2State, key: string): L2State {
    if key in st.entries then
      var e := st.entries[key];
      st.(entries := st.entries[key := e.(status := STALE, confidence := e.confidence * 0.3)])
    else st
  }

  function Voided(e: CacheEntry): CacheEntry {
    e.(status := INVALIDATED, confidence := 0.0)
  }

  /** The keys a cascade from root processes: the root and what it reaches through live entries. */
  ghost function CascadeSet(es: Entries, rev: Index, root: string): set<string> {
    {root} + Reached(LiveKeys(es), rev, root)
  }

  /** Each reached live entry is hit once per index edge out of the cascade set. */
  ghost function Cascaded(es: Entries, rev: Index, root: string): Entries {
    map k | k in es :: Hit(es[k], |EdgesInto(rev, CascadeSet(es, rev, root), k)|)
  }

  ghost function HardInvalidated(st: L2State, key: string, cascade: bool): L2State {
    if key !in st.entries then st
    else
      var es := st.entries[key := Voided(st.entries[key])];
      st.(entries := if cascade then Cascaded(es, st.rev, key) else es)
  }

  /** The library power function, of which only its range matters. */
  type Power = (real, real) -> real

  function DaysOld(e: CacheEntry, now: int): real {
    (now - e.createdAtMs) as real / (1000.0 * 86400.0)
  }

  function DecayedConfidence(pow: Power, e: CacheEntry, now: int): real {
    e.confidence * pow(1.0 - e.confidenceDecay, DaysOld(e, now))
  }

  function Decayed(pow: Power, e: CacheEntry, now: int): CacheEntry {
    if e.status.INVALIDATED? then e
    else
      var c := DecayedConfidence(pow, e, now);
      e.(confidence := c, status := if c < CONFIDENCE_STALE then STALE else e.status)
  }

  function AllDecayed(pow: Power, st: L2State, now: int): L2State {
    st.(entries := map k | k in st.entries :: Decayed(pow, st.entries[k], now))
  }

  predicate Purgeable(e: CacheEntry, now: int) {
    e.status.INVALIDATED? && now > e.createdAtMs + e.baseTtlSeconds * 1000 * 2
  }

  function PurgeableKeys(es: Entries, now: int): set<string> {
    set k | k in es && Purgeable(es[k], now)
  }

  function Purged(st: L2State, now: int): L2State
  {
    RemovedAll(st, PurgeableKeys(st.entries, now))
  }

  /** Remove several keys: each one leaves the lists of its own dependencies. */
  function RemovedAll(st: L2State, keys: set<string>): L2State {
    L2State(st.entries - keys,
            map d | d in st.rev :: WithoutPurged(st.entries, st.rev[d], d, keys))
  }

  function WithoutPurged(es: Entries, list: seq<string>, d: string, gone: set<string>): (r: seq<string>)
    ensures forall k :: k in r <==> k in list && !(k in gone && k in es && d in es[k].dependsOn)
  {
    if list == [] then []
    else
      var k, rest := list[0], WithoutPurged(es, list[1..], d, gone);
      if k in gone && k in es && d in es[k].dependsOn then rest else [k] + rest
  }

  // ---- the index follows the entries ----

  lemma StoredConsistent(st: L2State, key: string, e: CacheEntry)
    requires Consistent(st)
    ensures Consistent(Stored(st, key, e))
  {
    var owners := Dependencies(st.entries);
    var after := Stored(st, key, e);
    if key in st.entries {
      DropAgrees(st.rev, owners, key);
      AddAgrees(Drop(st.rev, owners[key], key), owners - {key}, key, e.dependsOn);
      assert Dependencies(after.entries) == (owners - {key})[key := e.dependsOn];
    } else {
      AddAgrees(st.rev, owners, key, e.dependsOn);
      assert Dependencies(after.entries) == owners[key := e.dependsOn];
    }
  }

  lemma RemovedConsistent(st: L2State, key: string)
    requires Consistent(st)
    ensures Consistent(Removed(st, key))
  {
    if key in st.entries {
      var owners := Dependencies(st.entries);
      DropAgrees(st.rev, owners, key);
      assert Dependencies(Removed(st, key).entries) == owners - {key};
    }
  }

  lemma RemovedAllConsistent(st: L2State, keys: set<string>)
    requires Consistent(st)
    ensures Consistent(RemovedAll(st, keys))
  {
    var after := RemovedAll(st, keys);
    forall d | d in after.rev ensures NoDup(after.rev[d]) {
      WithoutPurgedNoDup(st.entries, st.rev[d], d, keys);
    }
    forall d, k
      ensures Lists(after.rev, d, k) <==> Points(Dependencies(after.entries), k, d)
    {
      assert Lists(st.rev, d, k) <==> Points(Dependencies(st.entries), k, d);
    }
  }

  lemma {:induction false} WithoutPurgedNoDup(es: Entries, list: seq<string>, d: string, gone: set<string>)
    requires NoDup(list)
    ensures NoDup(WithoutPurged(es, list, d, gone))
  {
    if list != [] {
      WithoutPurgedNoDup(es, list[1..], d, gone);
      assert list[0] !in list[1..];
      assert list[0] !in WithoutPurged(es, list[1..], d, gone);
    }
  }

  lemma HardInvalidatedConsistent(st: L2State, key: string, cascade: bool)
    requires Consistent(st)
    ensures Consistent(HardInvalidated(st, key, cascade))
  {
    assert Dependencies(HardInvalidated(st, key, cascade).entries) == Dependencies(st.entries);
  }

  lemma DecayConsistent(pow: Power, st: L2State, now: int)
    requires Consistent(st)
    ensures Consistent(AllDecayed(pow, st, now))
  {
    assert Dependencies(AllDecayed(pow, st, now).entries) == Dependencies(st.entries);
  }

  lemma ReadConsistent(st: L2State, key: string, now: int)
    requires Consistent(st)
    ensures Consistent(Read(st, key, now))
  {
    assert Dependencies(Read(st, key, now).entries) == Dependencies(st.entries);
  }

  // ---- the cascade, told through the entries' own dependency lists ----

  /** Each key after the first is live and names its predecessor as a dependency. */
  ghost predicate IsDependencyChain(es: Entries, root: string, p: seq<string>) {
    && |p| > 1 && p[0] == root
    && forall i :: 0 < i < |p| ==>
         p[i] in es && p[i] != root && !es[p[i]].status.INVALIDATED? && p[i - 1] in es[p[i]].dependsOn
  }

  /** k depends on root, directly or through entries that were not INVALIDATED. */
  ghost predicate DependsOnRoot(es: Entries, root: string, k: string) {
    exists p :: IsDependencyChain(es, root, p) && p[|p| - 1] == k
  }

  /** The distinct dependencies of an entry that the cascade processes. */
  ghost function HitDependencies(es: Entries, root: string, k: string): set<string>
    requires k in es
  {
    set d | d in es[k].dependsOn && (d == root || DependsOnRoot(es, root, d))
  }

  /**
   * The exact effect of a cascading hard invalidation, whatever cycles the graph has: the root
   * is INVALIDATED with confidence 0; the entries that depend on it through live entries become
   * STALE and lose 0.3 once per distinct processed dependency; nothing else changes.
   */
  lemma CascadeExact(st: L2State, root: string, k: string)
    requires Consistent(st) && root in st.entries && k in st.entries
    ensures var es, after := st.entries, HardInvalidated(st, root, true).entries;
            && after.Keys == es.Keys
            && after[root] == es[root].(status := INVALIDATED, confidence := 0.0)
            && (k != root && DependsOnRoot(es, root, k) ==>
                  && HitDependencies(es, root, k) != {}
                  && after[k] == es[k].(status := STALE,
                                        confidence := Damped(es[k].confidence, |HitDependencies(es, root, k)|)))
            && (k != root && !DependsOnRoot(es, root, k) ==> after[k] == es[k])
  {
    var es := st.entries;
    var es1 := es[root := Voided(es[root])];
    var live := LiveKeys(es1);
    var from := CascadeSet(es1, st.rev, root);
    forall d ensures Reaches(live, st.rev, root, d) <==> DependsOnRoot(es, root, d) {
      ReachesIsDependsOnRoot(st, root, d);
    }
    EdgesAreKeys(st.rev, from, k);
    if k != root {
      forall u ensures Lists(st.rev, u, k) <==> u in es[k].dependsOn {
        assert Lists(st.rev, u, k) <==> Points(Dependencies(es), k, u);
      }
      assert HitDependencies(es, root, k) == set u | u in from && Lists(st.rev, u, k);
      if DependsOnRoot(es, root, k) {
        var p :| IsDependencyChain(es, root, p) && p[|p| - 1] == k;
        var d := p[|p| - 2];
        if |p| > 2 {
          assert IsDependencyChain(es, root, p[..|p| - 1]);
        }
        assert d in HitDependencies(es, root, k);
      } else if HitDependencies(es, root, k) != {} && k in live {
        var d :| d in HitDependencies(es, root, k);
        ReachesExtends(live, st.rev, root, d, k);
      }
    }
  }

  lemma ReachesIsDependsOnRoot(st: L2State, root: string, k: string)
    requires Consistent(st) && root in st.entries
    ensures var live := LiveKeys(st.entries[root := Voided(st.entries[root])]);
            Reaches(live, st.rev, root, k) <==> DependsOnRoot(st.entries, root, k)
  {
    var es := st.entries;
    var live := LiveKeys(es[root := Voided(es[root])]);
    forall d, u ensures Lists(st.rev, d, u) <==> u in es && d in es[u].dependsOn {
      assert Lists(st.rev, d, u) <==> Points(Dependencies(es), u, d);
    }
    if Reaches(live, st.rev, root, k) {
      var p :| PathBetween(live, st.rev, p, root, k);
      assert IsDependencyChain(es, root, p);
    }
    if DependsOnRoot(es, root, k) {
      var p :| IsDependencyChain(es, root, p) && p[|p| - 1] == k;
      assert PathBetween(live, st.rev, p, root, k);
    }
  }
}
