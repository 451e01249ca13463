/**
 * The structure under both in-memory caches: a list of nodes, most recent first, and a map from
 * key to node. Moving a node within the list leaves the map's reference to it good.
 */
module LinkedStore {
  import opened Wrappers
  import opened Sequences
  import opened Lru

  class Node<V> {
    const key: string
    var value: V

    constructor (key: string, value: V)
      ensures this.key == key && this.value == value
    {
      this.key, this.value := key, value;
    }
  }

  /** The map knows exactly the nodes of the list, each under its own key. */
  ghost predicate Linked<V>(nodes: seq<Node<V>>, index: map<string, Node<V>>) {
    && NoDup(nodes)
    && (forall i :: NodeIsIndexed(nodes, index, i))
    && (forall k :: KeyIsListed(nodes, index, k))
  }

  ghost predicate NodeIsIndexed<V>(nodes: seq<Node<V>>, index: map<string, Node<V>>, i: int) {
    0 <= i < |nodes| ==> nodes[i].key in index && index[nodes[i].key] == nodes[i]
  }

  ghost predicate KeyIsListed<V>(nodes: seq<Node<V>>, index: map<string, Node<V>>, k: string) {
    k in index ==> index[k] in nodes && index[k].key == k
  }

  /** The nodes hold the given items, in order. */
  ghost predicate Hold<V>(nodes: seq<Node<V>>, items: seq<Item<V>>)
    reads nodes
  {
    |nodes| == |items| && forall i :: HoldsAt(nodes, items, i)
  }

  ghost predicate HoldsAt<V>(nodes: seq<Node<V>>, items: seq<Item<V>>, i: int)
    reads nodes
  {
    0 <= i < |nodes| && i < |items| ==> items[i] == Item(nodes[i].key, nodes[i].value)
  }

  lemma UnlinkAt<V>(nodes: seq<Node<V>>, index: map<string, Node<V>>, items: seq<Item<V>>, i: nat)
    requires Linked(nodes, index) && Hold(nodes, items) && i < |nodes|
    ensures var nodes', items' := nodes[..i] + nodes[i + 1..], items[..i] + items[i + 1..];
            && Without(nodes, nodes[i]) == nodes' && WithoutKey(items, nodes[i].key) == items'
            && Linked(nodes', index - {nodes[i].key}) && Hold(nodes', items')
  {
    var nodes', items' := nodes[..i] + nodes[i + 1..], items[..i] + items[i + 1..];
    var index' := index - {nodes[i].key};
    assert nodes == nodes[..i] + [nodes[i]] + nodes[i + 1..];
    WithoutAt(nodes, i, nodes[..i], nodes[i + 1..]);
    WithoutKeepsNoDup(nodes, nodes[i]);
    ItemsAreDistinct(nodes, index, items);
    assert HoldsAt(nodes, items, i) && NodeIsIndexed(nodes, index, i);
    WithoutKeyAt(items, i);
    forall j ensures NodeIsIndexed(nodes', index', j) && HoldsAt(nodes', items', j) {
      var j' := if j < i then j else j + 1;
      assert NodeIsIndexed(nodes, index, j') && HoldsAt(nodes, items, j');
    }
    forall k ensures KeyIsListed(nodes', index', k) {
      assert KeyIsListed(nodes, index, k);
    }
  }

  lemma LinkAtFront<V>(nodes: seq<Node<V>>, index: map<string, Node<V>>, items: seq<Item<V>>, n: Node<V>)
    requires Linked(nodes, index) && Hold(nodes, items) && n.key !in index
    ensures Linked([n] + nodes, index[n.key := n])
    ensures Hold([n] + nodes, [Item(n.key, n.value)] + items)
  {
    var nodes', index', items' := [n] + nodes, index[n.key := n], [Item(n.key, n.value)] + items;
    forall j ensures NodeIsIndexed(nodes', index', j) && HoldsAt(nodes', items', j) {
      assert NodeIsIndexed(nodes, index, j - 1) && HoldsAt(nodes, items, j - 1);
    }
    forall k ensures KeyIsListed(nodes', index', k) {
      assert KeyIsListed(nodes, index, k);
    }
    forall j | 0 <= j < |nodes| ensures nodes[j] != n {
      assert NodeIsIndexed(nodes, index, j);
    }
  }

  lemma ItemsAreDistinct<V>(nodes: seq<Node<V>>, index: map<string, Node<V>>, items: seq<Item<V>>)
    requires Linked(nodes, index) && Hold(nodes, items)
    ensures DistinctKeys(items)
  {
    forall i, j | 0 <= i < j < |items| ensures items[i].key != items[j].key {
      assert HoldsAt(nodes, items, i) && HoldsAt(nodes, items, j);
      assert NodeIsIndexed(nodes, index, i) && NodeIsIndexed(nodes, index, j);
    }
  }

  /** Looking a key up in the map finds the list's item. */
  lemma LookupThroughIndex<V>(nodes: seq<Node<V>>, index: map<string, Node<V>>, items: seq<Item<V>>, key: string)
    requires Linked(nodes, index) && Hold(nodes, items)
    ensures key in index ==> index[key].key == key && Lookup(items, key) == Some(index[key].value)
    ensures key in index ==> exists i :: 0 <= i < |nodes| && nodes[i] == index[key]
    ensures key !in index ==> Lookup(items, key) == None
    ensures key in index <==> key in Keys(items)
  {
    ItemsAreDistinct(nodes, index, items);
    LookupIsKey(items, key);
    if key in index {
      assert KeyIsListed(nodes, index, key);
      var i :| 0 <= i < |nodes| && nodes[i] == index[key];
      assert HoldsAt(nodes, items, i);
      LookupAt(items, i);
    }
    forall i | 0 <= i < |items| ensures items[i].key in index {
      assert NodeIsIndexed(nodes, index, i) && HoldsAt(nodes, items, i);
    }
  }

  class LinkedList<V> {
    var lru: seq<Node<V>>
    var index: map<string, Node<V>>
    /** What the list holds, as values. */
    ghost var contents: seq<Item<V>>

    ghost predicate Valid()
      reads this, lru
    {
      Linked(lru, index) && Hold(lru, contents)
    }

    ghost function Nodes(): set<Node<V>>
      reads this
    {
      Elements(lru)
    }

    constructor ()
      ensures Valid() && contents == [] && lru == []
    {
      lru, index, contents := [], map[], [];
    }

    /** Look a key up. */
    method Find(key: string) returns (r: Option<Node<V>>)
      requires Valid()
      ensures r.None? ==> Lookup(contents, key) == None && key !in index
      ensures r.Some? ==> r.value in lru && r.value.key == key && Lookup(contents, key) == Some(r.value.value)
    {
      LookupThroughIndex(lru, index, contents, key);
      r := if key in index then Some(index[key]) else None;
    }

    /** Take one node out of the list and the map. */
    method Unlink(node: Node<V>)
      requires Valid() && node in lru
      modifies this
      ensures Valid() && contents == WithoutKey(old(contents), node.key)
      ensures lru == Without(old(lru), node) && index == old(index) - {node.key}
    {
      ghost var i :| 0 <= i < |lru| && lru[i] == node;
      UnlinkAt(lru, index, contents, i);
      lru := Without(lru, node);
      index := index - {node.key};
      contents := WithoutKey(contents, node.key);
    }

    /** Put a node whose key is not present at the front. */
    method LinkFront(node: Node<V>)
      requires Valid() && node.key !in index
      modifies this
      ensures Valid() && lru == [node] + old(lru) && index == old(index)[node.key := node]
      ensures contents == [Item(node.key, node.value)] + old(contents)
    {
      LinkAtFront(lru, index, contents, node);
      lru := [node] + lru;
      index := index[node.key := node];
      contents := [Item(node.key, node.value)] + contents;
    }

    /** Splice a node to the front, giving it a new value. */
    method Renew(node: Node<V>, value: V)
      requires Valid() && node in lru
      modifies this, node
      ensures Valid() && contents == [Item(node.key, value)] + WithoutKey(old(contents), node.key)
      ensures Nodes() <= old(Nodes()) && node.value == value
    {
      Unlink(node);
      node.value := value;
      LinkFront(node);
    }

    /** Drop the least recent node. */
    method PopBack()
      requires Valid() && lru != []
      modifies this
      ensures Valid() && contents == old(contents)[..|old(contents)| - 1] && lru == old(lru)[..|old(lru)| - 1]
      ensures index.Keys <= old(index.Keys)
    {
      ghost var m := |lru| - 1;
      UnlinkAt(lru, index, contents, m);
      assert lru[..m] + lru[m + 1..] == lru[..m] && contents[..m] + contents[m + 1..] == contents[..m];
      index := index - {lru[|lru| - 1].key};
      lru := lru[..|lru| - 1];
      contents := contents[..m];
    }

    method Clear()
      modifies this
      ensures Valid() && contents == [] && lru == []
    {
      lru, index, contents := [], map[], [];
    }

    method Size() returns (n: nat)
      requires Valid()
      ensures n == |contents|
    {
      n := |index|;
      ItemsAreDistinct(lru, index, contents);
      KeysCardinality(contents);
      forall k ensures k in index <==> k in Keys(contents) {
        LookupThroughIndex(lru, index, contents, k);
      }
      assert Keys(contents) == index.Keys;
    }
  }
}
