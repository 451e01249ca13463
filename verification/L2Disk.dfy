/** Saving the persistent cache to its two files and loading it again. */
module L2Disk {
  import opened Wrappers
  import opened Sequences
  import opened ReverseIndex
  import opened AgentTypes
  import opened Cascade
  import opened L2Model

  /** A line of the data file: empty, not parseable, or a JSON object. */
  datatype Line = Blank | Garbled | Record(json: JsonObject)

  /**
   * The index file. One that stops being readable part of the way through has already delivered
   * the lists before that point.
   */
  datatype IndexFile = Missing | Broken(delivered: Index) | Whole(index: Index)

  function LineEntry(line: Line): Option<CacheEntry> {
    if line.Record? then FromJson(line.json) else None
  }

  /** Later lines win, and each entry is filed under the key it carries itself. */
  function LoadedEntries(es: Entries, lines: seq<Line>): Entries {
    if lines == [] then es
    else
      var before := LoadedEntries(es, lines[..|lines| - 1]);
      var e := LineEntry(lines[|lines| - 1]);
      if e.Some? then before[e.value.key := e.value] else before
  }

  function AppendedTo(rev: Index, targets: seq<string>, key: string): Index {
    if targets == [] then rev
    else
      var r := AppendedTo(rev, targets[..|targets| - 1], key);
      var d := targets[|targets| - 1];
      r[d := ListAt(r, d) + [key]]
  }

  /** The rebuilding loop, for entries visited in the given order. */
  function Rebuilt(rev: Index, es: Entries, order: seq<string>): Index
    requires forall k :: k in order ==> k in es
  {
    if order == [] then rev
    else
      var k := order[|order| - 1];
      AppendedTo(Rebuilt(rev, es, order[..|order| - 1]), es[k].dependsOn, k)
  }

  ghost predicate Enumerates(order: seq<string>, es: Entries) {
    NoDup(order) && Elements(order) == es.Keys
  }

  /** The lines are the entries of es, written in the given order. */
  ghost predicate IsSaved(lines: seq<Line>, es: Entries, order: seq<string>) {
    Enumerates(order, es) && |lines| == |order| && forall i :: SavedAt(lines, es, order, i)
  }

  ghost predicate SavedAt(lines: seq<Line>, es: Entries, order: seq<string>, i: int) {
    0 <= i < |order| && i < |lines| ==> order[i] in es && lines[i] == Record(ToJson(es[order[i]]))
  }

  method SaveToDisk(entries: Entries) returns (lines: seq<Line>, ghost order: seq<string>)
    ensures IsSaved(lines, entries, order)
  {
    lines, order := [], [];
    var todo := entries.Keys;
    while todo != {}
      invariant todo <= entries.Keys && NoDup(order) && Elements(order) == entries.Keys - todo
      invariant |lines| == |order|
      invariant forall i :: SavedAt(lines, entries, order, i)
    {
      var key :| key in todo;
      todo := todo - {key};
      assert key !in Elements(order);
      ghost var lines0, order0 := lines, order;
      lines, order := lines + [Record(ToJson(entries[key]))], order + [key];
      forall i ensures SavedAt(lines, entries, order, i) {
        assert SavedAt(lines0, entries, order0, i);
      }
    }
  }

  method LoadFromDisk(entries: Entries, depRev: Index, data: Option<seq<Line>>, file: IndexFile)
    returns (entries': Entries, depRev': Index, ghost order: seq<string>)
    ensures data.None? ==> entries' == entries && depRev' == depRev
    ensures data.Some? ==> entries' == LoadedEntries(entries, data.value)
    ensures data.Some? && file.Missing? ==> depRev' == depRev
    ensures data.Some? && file.Whole? ==> depRev' == depRev + file.index
    ensures data.Some? && file.Broken? ==>
              Enumerates(order, entries') && depRev' == Rebuilt(depRev + file.delivered, entries', order)
  {
    entries', depRev', order := entries, depRev, [];
    if data.None? {
      return;
    }
    var lines := data.value;
    for i := 0 to |lines|
      invariant entries' == LoadedEntries(entries, lines[..i])
    {
      assert lines[..i + 1][..i] == lines[..i];
      var e := LineEntry(lines[i]);
      if e.Some? {
        entries' := entries'[e.value.key := e.value];
      }
    }
    assert lines[..|lines|] == lines;
    match file
    case Missing =>
    case Whole(index) =>
      depRev' := depRev' + index;
    case Broken(delivered) =>
      depRev' := depRev' + delivered;
      depRev', order := RebuildIndex(depRev', entries');
  }

  method RebuildIndex(rev: Index, entries: Entries) returns (r: Index, ghost order: seq<string>)
    ensures Enumerates(order, entries) && r == Rebuilt(rev, entries, order)
  {
    r, order := rev, [];
    var todo := entries.Keys;
    while todo != {}
      invariant todo <= entries.Keys && NoDup(order) && Elements(order) == entries.Keys - todo
      invariant r == Rebuilt(rev, entries, order)
    {
      var key :| key in todo;
      todo := todo - {key};
      ghost var r0, order0 := r, order;
      assert key !in Elements(order);
      order := order + [key];
      assert order[..|order| - 1] == order0;
      var deps := entries[key].dependsOn;
      for i := 0 to |deps|
        invariant r == AppendedTo(r0, deps[..i], key)
      {
        assert deps[..i + 1][..i] == deps[..i];
        r := r[deps[i] := ListAt(r, deps[i]) + [key]];
      }
      assert deps[..|deps|] == deps;
    }
  }

  // ---- round trip ----

  ghost predicate SelfKeyed(es: Entries) {
    forall k :: k in es ==> es[k].key == k
  }

  lemma {:induction false} LoadedIsSelfKeyed(lines: seq<Line>)
    ensures SelfKeyed(LoadedEntries(map[], lines))
  {
    if lines != [] {
      LoadedIsSelfKeyed(lines[..|lines| - 1]);
    }
  }

  ghost predicate ReadsBackAt(lines: seq<Line>, es: Entries, order: seq<string>, i: int) {
    0 <= i < |order| && i < |lines| ==> order[i] in es && LineEntry(lines[i]) == Some(es[order[i]])
  }

  ghost predicate ReadsBack(lines: seq<Line>, es: Entries, order: seq<string>) {
    |lines| == |order| && forall i :: ReadsBackAt(lines, es, order, i)
  }

  lemma SavedReadsBack(lines: seq<Line>, es: Entries, order: seq<string>)
    requires IsSaved(lines, es, order)
    ensures ReadsBack(lines, es, order)
  {
    forall i ensures ReadsBackAt(lines, es, order, i) {
      assert SavedAt(lines, es, order, i);
      if 0 <= i < |order| {
        JsonRoundTrip(es[order[i]]);
      }
    }
  }

  lemma {:induction false} LoadedPrefix(lines: seq<Line>, es: Entries, order: seq<string>, n: nat)
    requires ReadsBack(lines, es, order) && SelfKeyed(es) && n <= |lines|
    ensures LoadedEntries(map[], lines[..n]) == map k | k in es && k in order[..n] :: es[k]
  {
    if n > 0 {
      LoadedPrefix(lines, es, order, n - 1);
      assert lines[..n][..n - 1] == lines[..n - 1];
      assert order[..n] == order[..n - 1] + [order[n - 1]];
      assert ReadsBackAt(lines, es, order, n - 1);
    }
  }

  lemma {:induction false} LoadedSplits(es: Entries, a: seq<Line>, b: seq<Line>)
    ensures LoadedEntries(es, a + b) == LoadedEntries(LoadedEntries(es, a), b)
  {
    if b == [] {
      assert a + b == a;
    } else {
      assert (a + b)[..|a + b| - 1] == a + b[..|b| - 1];
      LoadedSplits(es, a, b[..|b| - 1]);
    }
  }

  /** A blank or garbled line is as good as absent, and a record replaces what earlier lines said of its key. */
  lemma LinesExact(es: Entries, a: seq<Line>, b: seq<Line>, e: CacheEntry)
    ensures LoadedEntries(es, a + [Blank] + b) == LoadedEntries(es, a + b)
    ensures LoadedEntries(es, a + [Garbled] + b) == LoadedEntries(es, a + b)
    ensures LoadedEntries(es, a + [Record(ToJson(e))]) == LoadedEntries(es, a)[e.key := e]
  {
    LoadedSplits(es, a + [Blank], b);
    LoadedSplits(es, a + [Garbled], b);
    LoadedSplits(es, a, b);
    assert (a + [Blank])[..|a|] == a && (a + [Garbled])[..|a|] == a;
    JsonRoundTrip(e);
    assert (a + [Record(ToJson(e))])[..|a|] == a;
  }

  /**
   * Saving and loading restores the entry map, for every order the map may be written in,
   * exactly when each entry is stored under its own key.
   */
  lemma SaveLoadRoundTrip(lines: seq<Line>, es: Entries, order: seq<string>)
    requires IsSaved(lines, es, order)
    ensures LoadedEntries(map[], lines) == es <==> SelfKeyed(es)
  {
    LoadedIsSelfKeyed(lines);
    if SelfKeyed(es) {
      SavedReadsBack(lines, es, order);
      LoadedPrefix(lines, es, order, |lines|);
      assert lines[..|lines|] == lines && order[..|order|] == order;
      assert forall k :: k in es ==> k in Elements(order);
    }
  }

  /** The lines are the entries, written in some order. */
  ghost predicate SavedAs(lines: seq<Line>, es: Entries) {
    exists order :: IsSaved(lines, es, order)
  }

  lemma SavedReadsTheSame(lines: seq<Line>, es: Entries)
    requires SavedAs(lines, es)
    ensures LoadedEntries(map[], lines) == es <==> SelfKeyed(es)
  {
    var order :| IsSaved(lines, es, order);
    SaveLoadRoundTrip(lines, es, order);
  }

  lemma NothingBefore(index: Index)
    ensures map[] + index == index
  {
  }

  /** What an empty cache holds after taking in those lines and the whole index. */
  function Reloaded(lines: seq<Line>, index: Index): L2State {
    L2State(LoadedEntries(map[], lines), map[] + index)
  }

  /** A restart through the two files restores the whole cache exactly under the same condition. */
  lemma RestartRestores(st: L2State, lines: seq<Line>)
    requires SavedAs(lines, st.entries)
    ensures Reloaded(lines, st.rev) == st <==> SelfKeyed(st.entries)
  {
    SavedReadsTheSame(lines, st.entries);
    NothingBefore(st.rev);
  }

  /** With no index file the loaded index is empty, which is right only when nothing has dependencies. */
  lemma MissingIndexConsistency(es: Entries)
    ensures Consistent(L2State(es, map[])) <==> forall k :: k in es ==> es[k].dependsOn == []
  {
    var owners := Dependencies(es);
    if Consistent(L2State(es, map[])) {
      forall k, d | k in es ensures d !in es[k].dependsOn {
        assert Lists(map[], d, k) <==> Points(owners, k, d);
      }
      forall k | k in es ensures es[k].dependsOn == [] {
        NothingInside(es[k].dependsOn);
      }
    }
  }

  lemma {:induction false} AppendedCounts(rev: Index, targets: seq<string>, key: string, d: string, k: string)
    ensures multiset(ListAt(AppendedTo(rev, targets, key), d))[k]
         == multiset(ListAt(rev, d))[k] + if k == key then multiset(targets)[d] else 0
  {
    if targets != [] {
      var init, t := targets[..|targets| - 1], targets[|targets| - 1];
      assert targets == init + [t];
      AppendedCounts(rev, init, key, d, k);
    }
  }

  lemma {:induction false} RebuiltCounts(rev: Index, es: Entries, order: seq<string>, d: string, k: string)
    requires NoDup(order) && forall x :: x in order ==> x in es
    ensures multiset(ListAt(Rebuilt(rev, es, order), d))[k]
         == multiset(ListAt(rev, d))[k] + if k in order then multiset(es[k].dependsOn)[d] else 0
  {
    if order != [] {
      var init, key := order[..|order| - 1], order[|order| - 1];
      RebuiltCounts(rev, es, init, d, k);
      AppendedCounts(Rebuilt(rev, es, init), es[key].dependsOn, key, d, k);
      assert order == init + [key];
      assert key !in init;
    }
  }

  lemma {:induction false} RepeatOccursTwice<T>(s: seq<T>, i: nat, j: nat)
    requires i < j < |s| && s[i] == s[j]
    ensures multiset(s)[s[i]] >= 2
  {
    assert s == s[..j] + [s[j]] + s[j + 1..];
    assert s[i] in s[..j];
  }

  lemma NoDupByCounts<T(!new)>(s: seq<T>)
    requires forall x :: multiset(s)[x] <= 1
    ensures NoDup(s)
  {
    forall i, j | 0 <= i < j < |s| ensures s[i] != s[j] {
      if s[i] == s[j] {
        RepeatOccursTwice(s, i, j);
      }
    }
  }

  /**
   * Rebuilding appends without looking for the key, so the index comes out right exactly when
   * the broken file had delivered nothing and no entry names a dependency twice.
   */
  lemma RebuiltConsistency(delivered: Index, es: Entries, order: seq<string>)
    requires Enumerates(order, es)
    ensures Consistent(L2State(es, Rebuilt(delivered, es, order))) <==>
            (forall d :: ListAt(delivered, d) == []) && (forall k :: k in es ==> NoDup(es[k].dependsOn))
  {
    var rev, owners := Rebuilt(delivered, es, order), Dependencies(es);
    assert forall k :: k in order <==> k in Elements(order);
    forall d, k
      ensures CountsAdd(delivered, es, rev, d, k)
    {
      RebuiltCounts(delivered, es, order, d, k);
    }
    if Agrees(rev, owners) {
      RebuiltOnlyIf(delivered, es, rev);
    }
    if (forall d :: ListAt(delivered, d) == []) && (forall k :: k in es ==> NoDup(es[k].dependsOn)) {
      RebuiltIf(delivered, es, rev);
    }
  }

  ghost predicate CountsAdd(delivered: Index, es: Entries, rev: Index, d: string, k: string) {
    var named := if k in es then multiset(es[k].dependsOn)[d] else 0;
    multiset(ListAt(rev, d))[k] == multiset(ListAt(delivered, d))[k] + named
  }

  lemma RebuiltOnlyIf(delivered: Index, es: Entries, rev: Index)
    requires Agrees(rev, Dependencies(es))
    requires forall d, k :: CountsAdd(delivered, es, rev, d, k)
    ensures forall d :: ListAt(delivered, d) == []
    ensures forall k :: k in es ==> NoDup(es[k].dependsOn)
  {
    forall d, k ensures k !in ListAt(delivered, d) {
      assert CountsAdd(delivered, es, rev, d, k);
      OccursOnce(ListAt(rev, d), k);
      assert Lists(rev, d, k) <==> Points(Dependencies(es), k, d);
      assert k in ListAt(delivered, d) <==> k in multiset(ListAt(delivered, d));
    }
    forall d ensures ListAt(delivered, d) == [] {
      NothingInside(ListAt(delivered, d));
    }
    forall k | k in es ensures NoDup(es[k].dependsOn) {
      forall d ensures multiset(es[k].dependsOn)[d] <= 1 {
        assert CountsAdd(delivered, es, rev, d, k);
        OccursOnce(ListAt(rev, d), k);
      }
      NoDupByCounts(es[k].dependsOn);
    }
  }

  lemma RebuiltIf(delivered: Index, es: Entries, rev: Index)
    requires forall d :: ListAt(delivered, d) == []
    requires forall k :: k in es ==> NoDup(es[k].dependsOn)
    requires forall d, k :: CountsAdd(delivered, es, rev, d, k)
    ensures Agrees(rev, Dependencies(es))
  {
    forall d, k ensures Lists(rev, d, k) <==> Points(Dependencies(es), k, d) {
      assert CountsAdd(delivered, es, rev, d, k);
      assert k in ListAt(rev, d) <==> k in multiset(ListAt(rev, d));
    }
    forall d | d in rev ensures NoDup(rev[d]) {
      forall k ensures multiset(ListAt(rev, d))[k] <= 1 {
        assert CountsAdd(delivered, es, rev, d, k);
        if k in es {
          OccursOnce(es[k].dependsOn, d);
        }
      }
      NoDupByCounts(ListAt(rev, d));
    }
  }
}
