/** The accessor to intrusive lists for elements that are shared: the head of the list
    and the links of the elements are in cells. */
module ListCell {
  import opened Wrappers
  import opened LeakyPool
  import opened IntrusiveList

  class HeadCell {
    var first: Option<PoolPtr>

    constructor (first: Option<PoolPtr>)
      ensures this.first == first
    {
      this.first := first;
    }
  }

  class LinkCell {
    var link: Option<Link>

    constructor (link: Option<Link>)
      ensures this.link == link
    {
      this.link := link;
    }
  }

  /** A list whose elements' links are in cells.  It has the same effect on the links as
      `ListAccessorMut`, whose contracts it shares. */
  class ListAccessorCell {
    const head: HeadCell
    // The cell of each element of the pool that the list goes through (`map_link`).
    const cells: map<PoolPtr, LinkCell>
    ghost var order: seq<PoolPtr>

    ghost predicate Apart() {
      forall p, q :: p in cells && q in cells && p != q ==> cells[p] != cells[q]
    }

    ghost function Links(): Links
      reads cells.Values
    {
      map p | p in cells :: cells[p].link
    }

    ghost predicate Valid()
      reads this, head, cells.Values
    {
      Apart() && IsList(Links(), head.first, order)
    }

    constructor (head: HeadCell, cells: map<PoolPtr, LinkCell>, ghost order: seq<PoolPtr>)
      requires forall p, q :: p in cells && q in cells && p != q ==> cells[p] != cells[q]
      requires IsList(map p | p in cells :: cells[p].link, head.first, order)
      ensures Valid() && this.head == head && this.cells == cells && this.order == order
    {
      this.head, this.cells, this.order := head, cells, order;
    }

    method SetLink(p: PoolPtr, l: Option<Link>)
      requires p in cells && Apart()
      modifies cells[p]
      ensures Links() == old(Links())[p := l]
    {
      cells[p].link := l;
    }

    method Front() returns (r: Option<PoolPtr>)
      requires Valid()
      ensures r == FirstOf(order)
    {
      r := head.first;
    }

    method Back() returns (r: Option<PoolPtr>)
      requires Valid()
      ensures r == if order == [] then None else Some(order[|order| - 1])
    {
      if head.first.None? {
        return None;
      }
      assert RingAt(Links(), order, 0);
      r := Some(cells[head.first.value].link.value.prev);
    }

    /** Inserts `item` before the element `at`, which is at place `k`, or at the
        back. */
    method Insert(item: PoolPtr, at: Option<PoolPtr>, ghost k: nat)
      requires Valid() && item in cells && cells[item].link == None
      requires if at.None? then k == |order| else k < |order| && order[k] == at.value
      modifies this`order, head, cells.Values
      ensures Valid() && order == Inserted(old(order), k, item)
      ensures OthersKept(old(Links()), Links(), order)
    {
      if head.first.Some? {
        var next := if at.Some? then at.value else head.first.value;
        SameElement(order, k % |order|, 0);
        InsertBefore(item, next, at.Some? && at.value == head.first.value, k);
      } else {
        order := Inserted(order, k, item);
        SetLink(item, Some(Link(item, item)));
        head.first := Some(item);
        assert order == [item];
      }
    }

    method InsertBefore(item: PoolPtr, next: PoolPtr, updateFirst: bool, ghost k: nat)
      requires Valid() && item in cells && cells[item].link == None
      requires order != [] && k <= |order| && next == order[if k == |order| then 0 else k] && updateFirst == (k == 0)
      modifies this`order, head, cells.Values
      ensures Valid() && order == Inserted(old(order), k, item)
      ensures OthersKept(old(Links()), Links(), order)
    {
      ghost var s, links := order, Links();
      forall i: nat | i < |s| ensures s[i] != item {
        assert RingAt(links, s, i);
      }
      order := Inserted(s, k, item);
      InsertRing(links, s, k, item);
      var prev := cells[next].link.value.prev;
      LinkedOthers(links, prev, next, item, order);
      assert FirstOf(order) == if updateFirst then Some(item) else head.first;
      hide IsRing, RingAt, Inserted, OthersKept, FirstOf, LinkedBetween;
      LinkBetween(prev, next, item);
      if updateFirst {
        head.first := Some(item);
      }
    }

    method LinkBetween(prev: PoolPtr, next: PoolPtr, item: PoolPtr)
      requires Apart() && item in cells && prev != item && next != item
      requires prev in cells && cells[prev].link.Some? && next in cells && cells[next].link.Some?
      modifies cells.Values
      ensures Links() == LinkedBetween(old(Links()), prev, next, item)
    {
      SetLink(prev, Some(cells[prev].link.value.(next := item)));
      assert Links()[next].Some?;
      SetLink(next, Some(cells[next].link.value.(prev := item)));
      SetLink(item, Some(Link(prev, next)));
    }

    method PushBack(item: PoolPtr)
      requires Valid() && item in cells && cells[item].link == None
      modifies this`order, head, cells.Values
      ensures Valid() && order == old(order) + [item] && OthersKept(old(Links()), Links(), order)
    {
      Insert(item, None, |order|);
      assert Inserted(old(order), |old(order)|, item) == old(order) + [item];
    }

    method PushFront(item: PoolPtr)
      requires Valid() && item in cells && cells[item].link == None
      modifies this`order, head, cells.Values
      ensures Valid() && order == [item] + old(order) && OthersKept(old(Links()), Links(), order)
    {
      var at := Front();
      Insert(item, at, 0);
    }

    /** Takes `item`, which is at place `k`, out of the list. */
    method Remove(item: PoolPtr, ghost k: nat)
      requires Valid() && k < |order| && order[k] == item
      modifies this`order, head, cells.Values
      ensures Valid() && order == Without(old(order), k)
      ensures OthersKept(old(Links()), Links(), old(order)) && item in cells && cells[item].link == None
    {
      ghost var s, links := order, Links();
      assert RingAt(links, s, k) && RingAt(links, s, 0);
      SameElement(s, k, 0);
      var first := head.first.value;
      if first == item {
        first := cells[item].link.value.next;
        if first == item {
          SameElement(s, k, NextIndex(k, |s|));
          assert s == [item];
          head.first, order := None, Without(s, k);
          SetLink(item, None);
          return;
        }
      }
      Bypass(item, first, k);
    }

    /** Takes an element out of a list of several; `first` is the first one then. */
    method Bypass(item: PoolPtr, first: PoolPtr, ghost k: nat)
      requires Valid() && k < |order| && |order| > 1 && order[k] == item && first == order[if k == 0 then 1 else 0]
      modifies this`order, head, cells.Values
      ensures Valid() && order == Without(old(order), k)
      ensures OthersKept(old(Links()), Links(), old(order)) && item in cells && cells[item].link == None
    {
      ghost var s, links := order, Links();
      order := Without(s, k);
      head.first := Some(first);
      RemoveRing(links, s, k);
      assert RingAt(links, s, k);
      var link := cells[item].link.value;
      UnlinkedOthers(links, link.prev, link.next, item, s);
      assert FirstOf(order) == Some(first);
      hide IsRing, RingAt, Without, OthersKept, FirstOf;
      Unlink(link.prev, link.next, item);
    }

    method Unlink(prev: PoolPtr, next: PoolPtr, item: PoolPtr)
      requires Apart() && item in cells && prev != item && next != item
      requires prev in cells && cells[prev].link.Some? && next in cells && cells[next].link.Some?
      modifies cells.Values
      ensures Links() == Unlinked(old(Links()), prev, next, item)
    {
      SetLink(prev, Some(cells[prev].link.value.(next := next)));
      assert Links()[next].Some?;
      SetLink(next, Some(cells[next].link.value.(prev := prev)));
      SetLink(item, None);
    }

    method PopBack() returns (r: Option<PoolPtr>)
      requires Valid()
      modifies this`order, head, cells.Values
      ensures Valid() && r == if old(order) == [] then None else Some(old(order)[|old(order)| - 1])
      ensures order == if old(order) == [] then [] else old(order)[..|old(order)| - 1]
      ensures r.Some? ==> r.value in cells && cells[r.value].link == None
      ensures OthersKept(old(Links()), Links(), old(order))
    {
      r := Back();
      if r.Some? {
        Remove(r.value, |order| - 1);
      }
    }

    method PopFront() returns (r: Option<PoolPtr>)
      requires Valid()
      modifies this`order, head, cells.Values
      ensures Valid() && r == FirstOf(old(order))
      ensures order == if old(order) == [] then [] else old(order)[1..]
      ensures r.Some? ==> r.value in cells && cells[r.value].link == None
      ensures OthersKept(old(Links()), Links(), old(order))
    {
      r := Front();
      if r.Some? {
        Remove(r.value, 0);
      }
    }

    /** Visits the elements from the front, following the links until they come back
        to the first. */
    method Iterate() returns (visited: seq<PoolPtr>)
      requires Valid()
      ensures visited == order
    {
      visited := [];
      var next := head.first;
      ghost var links := Links();
      while next.Some?
        invariant |visited| <= |order| && visited == order[..|visited|]
        invariant next == if |visited| < |order| then Some(order[|visited|]) else None
        decreases |order| - |visited|
      {
        ghost var i := |visited|;
        assert RingAt(links, order, i);
        SameElement(order, NextIndex(i, |order|), 0);
        var l := cells[next.value].link.value;
        visited := visited + [next.value];
        next := if Some(l.next) == head.first then None else Some(l.next);
      }
    }

    /** Unlinks every element while visiting it, and empties the list. */
    method Clear()
      requires Valid()
      modifies this`order, head, cells.Values
      ensures Valid() && order == [] && OthersKept(old(Links()), Links(), old(order))
      ensures forall p :: p in old(order) ==> p in cells && cells[p].link == None
    {
      ghost var s, links := order, Links();
      ghost var i: nat := 0;
      forall j: nat | j < |s| ensures s[j] in cells {
        assert RingAt(links, s, j);
      }
      var next := head.first;
      while next.Some?
        invariant i <= |s| && order == s && head.first == FirstOf(s) && next == if i < |s| then Some(s[i]) else None
        invariant OthersKept(links, Links(), s) && LinksCleared(links, Links(), s, i)
        decreases |s| - i
      {
        assert RingAt(links, s, i);
        SameElement(s, NextIndex(i, |s|), 0);
        var newNext := cells[next.value].link.value.next;
        LinksClearedStep(links, Links(), s, i);
        SetLink(next.value, None);
        next := if Some(newNext) == head.first then None else Some(newNext);
        i := i + 1;
      }
      head.first, order := None, [];
    }
  }

  /** Only the links of the elements in `s` may have changed. */
  ghost predicate OthersKept(a: Links, b: Links, s: seq<PoolPtr>) {
    a.Keys == b.Keys && forall p :: p in a && p !in s ==> b[p] == a[p]
  }

  lemma {:induction false} LinkedOthers(links: Links, prev: PoolPtr, next: PoolPtr, x: PoolPtr, s: seq<PoolPtr>)
    requires prev in links && links[prev].Some? && next in links && links[next].Some? && x in links
    requires prev in s && next in s && x in s
    ensures OthersKept(links, LinkedBetween(links, prev, next, x), s)
  {
  }

  lemma {:induction false} UnlinkedOthers(links: Links, prev: PoolPtr, next: PoolPtr, x: PoolPtr, s: seq<PoolPtr>)
    requires prev in links && links[prev].Some? && next in links && links[next].Some? && x in links
    requires prev in s && next in s && x in s
    ensures OthersKept(links, Unlinked(links, prev, next, x), s)
  {
  }

  /** The first `i` elements of `s` have been unlinked. */
  ghost predicate LinksCleared(a: Links, b: Links, s: seq<PoolPtr>, i: nat) {
    forall j :: 0 <= j < |s| ==> s[j] in a && s[j] in b && b[s[j]] == if j < i then None else a[s[j]]
  }

  lemma {:induction false} LinksClearedStep(a: Links, b: Links, s: seq<PoolPtr>, i: nat)
    requires LinksCleared(a, b, s, i) && i < |s| && Distinct(s) && OthersKept(a, b, s)
    ensures LinksCleared(a, b[s[i] := None], s, i + 1) && OthersKept(a, b[s[i] := None], s)
  {
    forall j: nat | j < |s| ensures s[j] == s[i] <==> j == i {
      SameElement(s, j, i);
    }
  }

  // ----- the two accessors ----------------------------------------------------------------

  /** `ListAccessorMut` leaves the links of others alone as well. */
  lemma {:induction false} MutOthersKept<E>(m: map<PoolPtr, Node<E>>, n: map<PoolPtr, Node<E>>, f: Field,
                                            s: seq<PoolPtr>)
    requires OnlyLinks(m, n, f, s)
    ensures OthersKept(LinksOf(m, f), LinksOf(n, f), s)
  {
  }

  /** The contracts that the two accessors share leave no choice: from the same links
      they come to the same head and the same links, whether an element of `t` is in
      the list `s` afterwards or has been taken out. */
  lemma {:induction false} SameEffect(before: Links, a: Links, b: Links, first: Option<PoolPtr>,
                                      second: Option<PoolPtr>,
                                      t: seq<PoolPtr>, s: seq<PoolPtr>)
    requires OthersKept(before, a, t) && OthersKept(before, b, t)
    requires IsList(a, first, s) && IsList(b, second, s)
    requires forall p :: p in t && p in before && p !in s ==> a[p] == None && b[p] == None
    ensures first == second && a == b
  {
    forall p | p in s ensures p in a && p in b && a[p] == b[p] {
      var i: nat :| i < |s| && s[i] == p;
      assert RingAt(a, s, i) && RingAt(b, s, i);
    }
  }
}
