/** The shared cache of responses, whose entries carry their own expiry time. */
module ResponseCache {
  import opened Wrappers
  import opened Lru
  import opened LinkedStore

  datatype Timed = Timed(value: string, expires: int)

  /** Served until the clock is past the expiry; a hit changes nothing but the order. */
  const TIMED_POLICY: Policy<Timed> := Policy((t: Timed, now: int) => now > t.expires, (t: Timed) => t)

  const MAX_SIZE: nat := 10000

  class CacheStore {
    const list: LinkedList<Timed>

    ghost predicate Valid()
      reads this, list, list.lru
    {
      list.Valid() && |list.lru| <= MAX_SIZE
    }

    constructor ()
      ensures Valid() && list.contents == [] && fresh(list) && list.lru == []
    {
      list := new LinkedList<Timed>();
    }

    method Get(key: string, now: int) returns (r: Option<string>)
      requires Valid()
      modifies list, list.Nodes()
      ensures Valid() && list.contents == AfterGet(TIMED_POLICY, old(list.contents), key, now)
      ensures var v := GetResult(TIMED_POLICY, old(list.contents), key, now);
              r == if v.Some? then Some(v.value.value) else None
      ensures list.Nodes() <= old(list.Nodes())
    {
      var found := list.Find(key);
      if found.None? {
        return None;
      }
      var node := found.value;
      WithoutKeyShortens(list.contents, key);
      if now > node.value.expires {
        list.Unlink(node);
        return None;
      }
      list.Renew(node, node.value);
      r := Some(node.value.value);
    }

    /** One eviction is enough to make room, since the store is never over its size. */
    method Set(key: string, value: string, ttl: int, now: int)
      requires Valid()
      modifies list, list.Nodes()
      ensures Valid() && list.contents == AfterSet(old(list.contents), key, Timed(value, now + ttl), MAX_SIZE)
      ensures fresh(list.Nodes() - old(list.Nodes()))
    {
      var found := list.Find(key);
      if found.Some? {
        WithoutKeyShortens(list.contents, key);
        list.Renew(found.value, Timed(value, now + ttl));
        return;
      }
      if |list.lru| >= MAX_SIZE {
        list.PopBack();
      }
      var node := new Node(key, Timed(value, now + ttl));
      list.LinkFront(node);
    }
  }

  /** A stored value is served up to and including the moment it expires, and not after. */
  lemma ServedUntilItExpires(s: seq<Item<Timed>>, key: string, value: string, ttl: int, now: int, later: int)
    requires Proper(s, 10000)
    ensures var after := AfterSet(s, key, Timed(value, now + ttl), MAX_SIZE);
            && Proper(after, 10000)
            && GetResult(TIMED_POLICY, after, key, later) ==
               if later <= now + ttl then Some(Timed(value, now + ttl)) else None
  {
    SetKeepsProper(s, key, Timed(value, now + ttl), MAX_SIZE);
  }
}
