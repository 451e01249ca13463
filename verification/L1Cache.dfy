/** The first-level cache of agent results. */
module L1Cache {
  import opened Wrappers
  import opened AgentTypes
  import opened Lru
  import opened LinkedStore

  /** An entry is served until its time to live has passed, and a hit counts as an access. */
  const L1_POLICY: Policy<CacheEntry> :=
    Policy((e: CacheEntry, now: int) => Expired(e, now), (e: CacheEntry) => e.(accessCount := e.accessCount + 1))

  class L1CacheStore {
    const list: LinkedList<CacheEntry>
    var maxSize: nat

    ghost predicate Valid()
      reads this, list, list.lru
    {
      list.Valid() && |list.lru| <= maxSize
    }

    ghost function Contents(): seq<Item<CacheEntry>>
      reads this, list
    {
      list.contents
    }

    constructor ()
      ensures Valid() && Contents() == [] && maxSize == 4096 && fresh(list) && list.lru == []
    {
      list := new LinkedList<CacheEntry>();
      maxSize := 4096;
    }

    method Get(key: string, now: int) returns (r: Option<CacheEntry>)
      requires Valid()
      modifies list, list.Nodes()
      ensures Valid()
      ensures Contents() == AfterGet(L1_POLICY, old(Contents()), key, now)
      ensures r == GetResult(L1_POLICY, old(Contents()), key, now)
      ensures list.Nodes() <= old(list.Nodes())
    {
      var found := list.Find(key);
      if found.None? {
        return None;
      }
      var node := found.value;
      WithoutKeyShortens(list.contents, key);
      if Expired(node.value, now) {
        list.Unlink(node);
        return None;
      }
      list.Renew(node, node.value.(accessCount := node.value.accessCount + 1));
      r := Some(node.value);
    }

    method Set(key: string, entry: CacheEntry)
      requires Valid() && maxSize > 0
      modifies list, list.Nodes()
      ensures Valid()
      ensures Contents() == AfterSet(old(Contents()), key, entry, maxSize)
      ensures fresh(list.Nodes() - old(list.Nodes()))
    {
      var found := list.Find(key);
      if found.Some? {
        WithoutKeyShortens(list.contents, key);
        list.Renew(found.value, entry);
      } else {
        EvictTo(maxSize - 1);
        var node := new Node(key, entry);
        list.LinkFront(node);
      }
    }

    /** Drop nodes from the back while there are more than n. */
    method EvictTo(n: nat)
      requires list.Valid()
      modifies list
      ensures list.Valid() && list.contents == Truncated(old(list.contents), n) && list.lru <= old(list.lru)
      ensures list.index.Keys <= old(list.index.Keys)
    {
      while |list.lru| > n
        invariant list.Valid() && list.lru <= old(list.lru)
        invariant if |old(list.contents)| <= n then list.contents == old(list.contents)
                  else |list.lru| >= n && list.contents == old(list.contents)[..|list.lru|]
        invariant list.index.Keys <= old(list.index.Keys)
        decreases |list.lru|
      {
        list.PopBack();
      }
    }

    method Invalidate(key: string)
      requires Valid()
      modifies list
      ensures Valid() && Contents() == WithoutKey(old(Contents()), key)
      ensures list.Nodes() <= old(list.Nodes())
    {
      var found := list.Find(key);
      if found.Some? {
        list.Unlink(found.value);
      } else {
        LookupIsKey(list.contents, key);
        WithoutAbsentKey(list.contents, key);
      }
    }

    method Size() returns (n: nat)
      requires Valid()
      ensures n == |Contents()|
    {
      n := list.Size();
    }

    method Clear()
      modifies list
      ensures Valid() && Contents() == [] && list.lru == []
    {
      list.Clear();
    }

    method SetMaxSize(sz: nat)
      requires Valid()
      modifies this, list
      ensures Valid() && maxSize == sz && Contents() == Truncated(old(Contents()), sz) && list.lru <= old(list.lru)
    {
      maxSize := sz;
      EvictTo(sz);
    }
  }
}
