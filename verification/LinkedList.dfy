/** The doubly linked ring behind Go's container/list, as far as tenancy/pools.go uses it: elements
    hold a pool entry, and a sentinel closes the ring. */
module LinkedList {
  import opened Sequences

  class Element {
    const tenant: string
    const pool: int
    var lastUsed: int
    var prev: Element?
    var next: Element?

    constructor (tenant: string, pool: int, lastUsed: int)
      ensures this.tenant == tenant && this.pool == pool && this.lastUsed == lastUsed
      ensures prev == null && next == null
    {
      this.tenant, this.pool, this.lastUsed := tenant, pool, lastUsed;
      prev, next := null, null;
    }
  }

  /** Where position j came from after position k moved to the front, and after it left. */
  function Before(k: nat, j: nat): nat {
    if j == 0 then k else if j - 1 < k then j - 1 else j
  }

  function Shifted(k: nat, j: nat): nat {
    if j < k then j else j + 1
  }

  function Without<T>(xs: seq<T>, k: nat): seq<T>
    requires k < |xs|
  {
    xs[..k] + xs[k + 1..]
  }

  lemma WithoutAt<T>(xs: seq<T>, k: nat, j: nat)
    requires k < |xs| && j < |xs| - 1
    ensures |Without(xs, k)| == |xs| - 1 && Shifted(k, j) < |xs| && Without(xs, k)[j] == xs[Shifted(k, j)]
  {
  }

  lemma ToFrontAt<T>(xs: seq<T>, k: nat, j: nat)
    requires k < |xs| && j < |xs|
    ensures var r := [xs[k]] + Without(xs, k); |r| == |xs| && Before(k, j) < |xs| && r[j] == xs[Before(k, j)]
  {
  }

  class List {
    const root: Element
    ghost var nodes: seq<Element>
    var len: nat

    /** Position i of the ring; the sentinel sits before the front and after the back. */
    ghost function At(i: int): Element
      reads this
    {
      if 0 <= i < |nodes| then nodes[i] else root
    }

    ghost function Ring(): set<Element>
      reads this
    {
      {root} + set e | e in nodes
    }

    ghost predicate Linked(i: int)
      reads this, Ring()`next, Ring()`prev
    {
      At(i).next == At(i + 1) && At(i + 1).prev == At(i)
    }

    ghost predicate Valid()
      reads this, Ring()`next, Ring()`prev
    {
      && len == |nodes| && root !in nodes && Distinct(nodes)
      && forall i :: -1 <= i < |nodes| ==> Linked(i)
    }

    constructor ()
      ensures Valid() && nodes == [] && fresh(root)
    {
      var r := new Element("", 0, 0);
      r.next, r.prev := r, r;
      root, nodes, len := r, [], 0;
    }

    /** The least recently used end, or null. */
    method Back() returns (e: Element?)
      requires Valid()
      ensures if nodes == [] then e == null else e == nodes[|nodes| - 1]
    {
      assert Linked(|nodes| - 1);
      if len == 0 {
        return null;
      }
      e := root.prev;
    }

    method Prev(e: Element, ghost k: nat) returns (p: Element?)
      requires Valid() && k < |nodes| && nodes[k] == e
      ensures p == if k == 0 then null else nodes[k - 1]
    {
      assert Linked(k - 1);
      p := e.prev;
      if p == root {
        p := null;
      }
    }

    method Remove(e: Element, ghost k: nat)
      requires Valid() && k < |nodes| && nodes[k] == e
      modifies this, Ring()`next, Ring()`prev
      ensures Valid() && Ring() == old(Ring()) - {e}
      ensures |nodes| == |old(nodes)| - 1 && forall j :: 0 <= j < |nodes| ==> nodes[j] == old(nodes)[Shifted(k, j)]
    {
      assert Linked(k - 1) && Linked(k);
      e.prev.next := e.next;
      e.next.prev := e.prev;
      e.next, e.prev := null, null;
      ghost var before := nodes;
      nodes := Without(nodes, k);
      len := len - 1;
      forall j | 0 <= j < |nodes| ensures nodes[j] == before[Shifted(k, j)] {
        WithoutAt(before, k, j);
      }
      forall i | -1 <= i < |nodes| ensures Linked(i) {
        assert old(Linked(i)) && old(Linked(i + 1));
      }
    }

    method PushFront(e: Element)
      requires Valid() && e !in nodes && e != root
      modifies this, Ring()`next, Ring()`prev, e`next, e`prev
      ensures Valid() && Ring() == old(Ring()) + {e}
      ensures |nodes| == |old(nodes)| + 1 && nodes[0] == e
      ensures forall j :: 0 < j < |nodes| ==> nodes[j] == old(nodes)[j - 1]
    {
      assert Linked(-1);
      var front := root.next;
      e.prev, e.next := root, front;
      root.next := e;
      front.prev := e;
      nodes := [e] + nodes;
      len := len + 1;
      forall i | -1 <= i < |nodes| ensures Linked(i) {
        assert i >= 1 ==> old(Linked(i - 1));
      }
    }

    method MoveToFront(e: Element, ghost k: nat)
      requires Valid() && k < |nodes| && nodes[k] == e
      modifies this, Ring()`next, Ring()`prev
      ensures Valid() && Ring() == old(Ring())
      ensures |nodes| == |old(nodes)| && forall j :: 0 <= j < |nodes| ==> nodes[j] == old(nodes)[Before(k, j)]
    {
      Remove(e, k);
      PushFront(e);
    }

    /** Back to the empty ring; the elements keep their stale links. */
    method Init()
      requires Valid()
      modifies this, root`next, root`prev
      ensures Valid() && nodes == []
    {
      root.next, root.prev := root, root;
      nodes, len := [], 0;
    }
  }
}
