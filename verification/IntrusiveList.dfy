/** Circular doubly linked lists threaded through the elements of a pool.  Which
    field of the elements holds the links is a parameter, so that an element can
    be in several lists at once. */
module IntrusiveList {
  import opened Wrappers
  import opened LeakyPool

  datatype Link = Link(prev: PoolPtr, next: PoolPtr)

  // An element can have several link fields; a field is named by a number.
  type Field = nat

  /** An element of a pool with its link fields. */
  datatype Node<E> = Node(data: E, fields: map<Field, Link>) {
    /** The link in field `f` (`map_link`). */
    function Get(f: Field): Option<Link> {
      if f in fields then Some(fields[f]) else None
    }

    function Put(f: Field, l: Option<Link>): Node<E> {
      match l
      case None => this.(fields := fields - {f})
      case Some(link) => this.(fields := fields[f := link])
    }
  }

  type Links = map<PoolPtr, Option<Link>>

  /** The links in field `f` of all elements of a pool. */
  ghost function LinksOf<E>(m: map<PoolPtr, Node<E>>, f: Field): Links {
    map p | p in m :: m[p].Get(f)
  }

  ghost function PrevIndex(i: nat, n: nat): nat
    requires i <= n && n > 0
  {
    if i == 0 then n - 1 else i - 1
  }

  ghost function NextIndex(i: nat, n: nat): nat {
    if i + 1 < n then i + 1 else 0
  }

  ghost predicate Distinct<A>(s: seq<A>) {
    forall i, j :: 0 <= i < j < |s| ==> s[i] != s[j]
  }

  /** Element `i` of `s` is linked to its neighbours, the last and the first being
      neighbours too. */
  ghost predicate RingAt(links: Links, s: seq<PoolPtr>, i: nat)
    requires i < |s|
  {
    && s[i] in links
    && links[s[i]] == Some(Link(s[PrevIndex(i, |s|)], s[NextIndex(i, |s|)]))
  }

  ghost predicate IsRing(links: Links, s: seq<PoolPtr>) {
    Distinct(s) && forall i: nat :: i < |s| ==> RingAt(links, s, i)
  }

  ghost function FirstOf(s: seq<PoolPtr>): Option<PoolPtr> {
    if s == [] then None else Some(s[0])
  }

  /** The list with head `first` has the elements `s`. */
  ghost predicate IsList(links: Links, first: Option<PoolPtr>, s: seq<PoolPtr>) {
    first == FirstOf(s) && IsRing(links, s)
  }

  ghost function Inserted(s: seq<PoolPtr>, k: nat, x: PoolPtr): seq<PoolPtr>
    requires k <= |s|
  {
    s[..k] + [x] + s[k..]
  }

  ghost function Without(s: seq<PoolPtr>, k: nat): seq<PoolPtr>
    requires k < |s|
  {
    s[..k] + s[k + 1..]
  }

  // ----- rings ------------------------------------------------------------------

  /** The links after `x` is put between two neighbours of a ring. */
  ghost function LinkedBetween(links: Links, prev: PoolPtr, next: PoolPtr, x: PoolPtr): Links
    requires prev in links && links[prev].Some? && next in links && links[next].Some?
  {
    var a := links[prev := Some(links[prev].value.(next := x))];
    var b := a[next := Some(a[next].value.(prev := x))];
    b[x := Some(Link(prev, next))]
  }

  /** The links after `x` is taken out from between two others of a ring. */
  ghost function Unlinked(links: Links, prev: PoolPtr, next: PoolPtr, x: PoolPtr): Links
    requires prev in links && links[prev].Some? && next in links && links[next].Some?
  {
    var a := links[prev := Some(links[prev].value.(next := next))];
    var b := a[next := Some(a[next].value.(prev := prev))];
    b[x := None]
  }

  lemma {:induction false} LinkedBetweenAt(links: Links, prev: PoolPtr, next: PoolPtr, x: PoolPtr, y: PoolPtr)
    requires prev in links && links[prev].Some? && next in links && links[next].Some?
    requires y in links && links[y].Some? && y != x
    ensures var l := links[y].value;
            var after := LinkedBetween(links, prev, next, x);
            y in after && after[y] == Some(Link(if y == next then x else l.prev, if y == prev then x else l.next))
  {
  }

  lemma {:induction false} UnlinkedAt(links: Links, prev: PoolPtr, next: PoolPtr, x: PoolPtr, y: PoolPtr)
    requires prev in links && links[prev].Some? && next in links && links[next].Some?
    requires y in links && links[y].Some? && y != x
    ensures var l := links[y].value;
            var after := Unlinked(links, prev, next, x);
            y in after && after[y] == Some(Link(if y == next then prev else l.prev, if y == prev then next else l.next))
  {
  }

  lemma {:induction false} SameElement(s: seq<PoolPtr>, i: nat, j: nat)
    requires Distinct(s) && i < |s| && j < |s|
    ensures s[i] == s[j] <==> i == j
  {
  }

  lemma {:induction false} InsertRing(links: Links, s: seq<PoolPtr>, k: nat, x: PoolPtr)
    requires IsRing(links, s) && s != [] && k <= |s| && x !in s
    ensures var n := |s|;
            var p, q := PrevIndex(k, n), if k == n then 0 else k;
            && RingAt(links, s, p) && RingAt(links, s, q)
            && IsRing(LinkedBetween(links, s[p], s[q], x), Inserted(s, k, x))
  {
    var n, t := |s|, Inserted(s, k, x);
    var p, q := PrevIndex(k, n), if k == n then 0 else k;
    assert RingAt(links, s, p) && RingAt(links, s, q);
    var after := LinkedBetween(links, s[p], s[q], x);
    forall i: nat | i < |t| ensures RingAt(after, t, i) {
      if i != k {
        var j := if i < k then i else i - 1;
        assert RingAt(links, s, j);
        LinkedBetweenAt(links, s[p], s[q], x, s[j]);
        SameElement(s, j, p);
        SameElement(s, j, q);
      }
    }
  }

  lemma {:induction false} RemoveRing(links: Links, s: seq<PoolPtr>, k: nat)
    requires IsRing(links, s) && k < |s| && |s| > 1
    ensures var p, q := PrevIndex(k, |s|), NextIndex(k, |s|);
            && RingAt(links, s, p) && RingAt(links, s, q)
            && IsRing(Unlinked(links, s[p], s[q], s[k]), Without(s, k))
  {
    var n, t := |s|, Without(s, k);
    var p, q := PrevIndex(k, n), NextIndex(k, n);
    assert RingAt(links, s, p) && RingAt(links, s, q);
    var after := Unlinked(links, s[p], s[q], s[k]);
    forall i: nat | i < |t| ensures RingAt(after, t, i) {
      var j := if i < k then i else i + 1;
      assert RingAt(links, s, j);
      SameElement(s, j, k);
      UnlinkedAt(links, s[p], s[q], s[k], s[j]);
      SameElement(s, j, p);
      SameElement(s, j, q);
    }
  }

  /** A ring depends on its elements' links only. */
  lemma {:induction false} RingFrame(a: Links, b: Links, s: seq<PoolPtr>)
    requires IsRing(a, s) && forall p :: p in s ==> p in b && (p in a ==> b[p] == a[p])
    ensures IsRing(b, s)
  {
    forall i: nat | i < |s| ensures RingAt(b, s, i) {
      assert RingAt(a, s, i);
    }
  }

  // ----- elements ---------------------------------------------------------------

  /** The same element but for the links in field `f`. */
  ghost predicate SameBut<E>(a: Node<E>, b: Node<E>, f: Field) {
    a.data == b.data && forall g :: g != f ==> a.Get(g) == b.Get(g)
  }

  /** Between `a` and `b` nothing but the field `f` of the elements in `s` changed. */
  ghost predicate OnlyLinks<E>(a: map<PoolPtr, Node<E>>, b: map<PoolPtr, Node<E>>, f: Field, s: seq<PoolPtr>) {
    && a.Keys == b.Keys
    && forall p :: p in a ==> b[p] == a[p] || (p in s && SameBut(a[p], b[p], f))
  }

  lemma {:induction false} OnlyLinksStep<E>(a: map<PoolPtr, Node<E>>, b: map<PoolPtr, Node<E>>, f: Field,
                                            s: seq<PoolPtr>, p: PoolPtr, l: Option<Link>)
    requires OnlyLinks(a, b, f, s) && p in b && p in s
    ensures OnlyLinks(a, b[p := b[p].Put(f, l)], f, s)
    ensures LinksOf(b[p := b[p].Put(f, l)], f) == LinksOf(b, f)[p := l]
  {
    forall g: Field | g != f ensures b[p].Put(f, l).Get(g) == b[p].Get(g) {
    }
  }

  /** The elements of `s` that are not in `left` are linked no more. */
  ghost predicate TakenOff<E>(m: map<PoolPtr, Node<E>>, f: Field, s: seq<PoolPtr>, left: seq<PoolPtr>) {
    forall p :: p in s ==> p in left || (p in m && m[p].Get(f) == None)
  }

  /** One more element, `x`, is taken off a list. */
  lemma {:induction false} TakenOffStep<E>(m: map<PoolPtr, Node<E>>, n: map<PoolPtr, Node<E>>, f: Field,
                                           s: seq<PoolPtr>,
                                           left: seq<PoolPtr>, after: seq<PoolPtr>, x: PoolPtr)
    requires TakenOff(m, f, s, left) && OnlyLinks(m, n, f, left) && x in n && n[x].Get(f) == None
    requires forall p :: p in left ==> p in after || p == x
    ensures TakenOff(n, f, s, after)
  {
  }

  /** A list threaded through the field `f` of the elements of a pool. */
  class ListAccessorMut<E> {
    var first: Option<PoolPtr>
    const pool: LeakyPool<Node<E>>
    const f: Field
    ghost var order: seq<PoolPtr>

    ghost predicate Valid()
      reads this, pool
    {
      pool.Valid() && IsList(LinksOf(pool.contents, f), first, order)
    }

    constructor (first: Option<PoolPtr>, pool: LeakyPool<Node<E>>, f: Field, ghost order: seq<PoolPtr>)
      requires pool.Valid() && IsList(LinksOf(pool.contents, f), first, order)
      ensures Valid() && this.first == first && this.pool == pool && this.f == f && this.order == order
    {
      this.first, this.pool, this.f, this.order := first, pool, f, order;
    }

    method GetLink(p: PoolPtr) returns (l: Option<Link>)
      requires pool.Valid() && p in pool.contents
      ensures l == pool.contents[p].Get(f)
    {
      var e := pool.Index(p);
      l := e.Get(f);
    }

    method SetLink(p: PoolPtr, l: Option<Link>)
      requires pool.Valid() && p in pool.contents
      modifies pool
      ensures pool.Valid() && |pool.entries| == |old(pool.entries)|
      ensures pool.contents == old(pool.contents)[p := old(pool.contents)[p].Put(f, l)]
    {
      var e := pool.Index(p);
      pool.Store(p, e.Put(f, l));
    }

    method Front() returns (r: Option<PoolPtr>)
      requires Valid()
      ensures r == FirstOf(order)
    {
      r := first;
    }

    method Back() returns (r: Option<PoolPtr>)
      requires Valid()
      ensures r == if order == [] then None else Some(order[|order| - 1])
    {
      if first.None? {
        return None;
      }
      assert RingAt(LinksOf(pool.contents, f), order, 0);
      var l := GetLink(first.value);
      r := Some(l.value.prev);
    }

    /** Inserts `item` before the element `at`, which is at place `k`, or at the
        back. */
    method Insert(item: PoolPtr, at: Option<PoolPtr>, ghost k: nat)
      requires Valid() && item in pool.contents && pool.contents[item].Get(f) == None
      requires if at.None? then k == |order| else k < |order| && order[k] == at.value
      modifies this, pool
      ensures Valid() && order == Inserted(old(order), k, item)
      ensures OnlyLinks(old(pool.contents), pool.contents, f, order) && |pool.entries| == |old(pool.entries)|
    {
      ghost var m, s := pool.contents, order;
      ghost var links := LinksOf(m, f);
      forall i: nat | i < |s| ensures s[i] != item {
        assert RingAt(links, s, i);
      }
      order := Inserted(s, k, item);
      if first.Some? {
        var next := if at.Some? then at.value else first.value;
        var updateFirst := at.Some? && at.value == first.value;
        InsertRing(links, s, k, item);
        SameElement(s, k % |s|, 0);
        var nextLink := GetLink(next);
        var prev := nextLink.value.prev;
        assert prev in order && next in order && item in order;
        LinkBetween(prev, next, item, order);
        if updateFirst {
          first := Some(item);
        }
      } else {
        OnlyLinksStep(m, m, f, order, item, Some(Link(item, item)));
        first := Some(item);
        SetLink(item, Some(Link(item, item)));
        assert order == [item];
      }
    }

    method LinkBetween(prev: PoolPtr, next: PoolPtr, item: PoolPtr, ghost s: seq<PoolPtr>)
      requires pool.Valid() && item in pool.contents && prev != item && next != item
      requires prev in s && next in s && item in s
      requires prev in pool.contents && pool.contents[prev].Get(f).Some?
      requires next in pool.contents && pool.contents[next].Get(f).Some?
      modifies pool
      ensures pool.Valid() && |pool.entries| == |old(pool.entries)|
      ensures OnlyLinks(old(pool.contents), pool.contents, f, s)
      ensures LinksOf(pool.contents, f) == LinkedBetween(LinksOf(old(pool.contents), f), prev, next, item)
    {
      ghost var m := pool.contents;
      var l := GetLink(prev);
      OnlyLinksStep(m, pool.contents, f, s, prev, Some(l.value.(next := item)));
      SetLink(prev, Some(l.value.(next := item)));
      l := GetLink(next);
      OnlyLinksStep(m, pool.contents, f, s, next, Some(l.value.(prev := item)));
      SetLink(next, Some(l.value.(prev := item)));
      OnlyLinksStep(m, pool.contents, f, s, item, Some(Link(prev, next)));
      SetLink(item, Some(Link(prev, next)));
    }

    method PushBack(item: PoolPtr)
      requires Valid() && item in pool.contents && pool.contents[item].Get(f) == None
      modifies this, pool
      ensures Valid() && order == old(order) + [item]
      ensures OnlyLinks(old(pool.contents), pool.contents, f, order) && |pool.entries| == |old(pool.entries)|
    {
      Insert(item, None, |order|);
      assert Inserted(old(order), |old(order)|, item) == old(order) + [item];
    }

    method PushFront(item: PoolPtr)
      requires Valid() && item in pool.contents && pool.contents[item].Get(f) == None
      modifies this, pool
      ensures Valid() && order == [item] + old(order)
      ensures OnlyLinks(old(pool.contents), pool.contents, f, order) && |pool.entries| == |old(pool.entries)|
    {
      var at := Front();
      Insert(item, at, 0);
    }

    /** Takes `item`, which is at place `k`, out of the list. */
    method Remove(item: PoolPtr, ghost k: nat)
      requires Valid() && k < |order| && order[k] == item
      modifies this, pool
      ensures Valid() && order == Without(old(order), k)
      ensures OnlyLinks(old(pool.contents), pool.contents, f, old(order)) && |pool.entries| == |old(pool.entries)|
      ensures item in pool.contents && pool.contents[item].Get(f) == None
    {
      ghost var m, s := pool.contents, order;
      ghost var links := LinksOf(m, f);
      assert RingAt(links, s, k) && RingAt(links, s, 0);
      SameElement(s, k, 0);
      var link := GetLink(item);
      order := Without(s, k);
      if first == Some(item) {
        var next := link.value.next;
        if next == item {
          SameElement(s, k, NextIndex(k, |s|));
          assert s == [item];
          first := None;
          OnlyLinksStep(m, m, f, s, item, None);
          SetLink(item, None);
          return;
        }
        first := Some(next);
      }
      RemoveRing(links, s, k);
      Unlink(link.value.prev, link.value.next, item, s);
    }

    method Unlink(prev: PoolPtr, next: PoolPtr, item: PoolPtr, ghost s: seq<PoolPtr>)
      requires pool.Valid() && item in pool.contents && prev != item && next != item
      requires prev in s && next in s && item in s
      requires prev in pool.contents && pool.contents[prev].Get(f).Some?
      requires next in pool.contents && pool.contents[next].Get(f).Some?
      modifies pool
      ensures pool.Valid() && |pool.entries| == |old(pool.entries)|
      ensures OnlyLinks(old(pool.contents), pool.contents, f, s)
      ensures LinksOf(pool.contents, f) == Unlinked(LinksOf(old(pool.contents), f), prev, next, item)
      ensures item in pool.contents && pool.contents[item].Get(f) == None
    {
      ghost var m := pool.contents;
      var l := GetLink(prev);
      OnlyLinksStep(m, pool.contents, f, s, prev, Some(l.value.(next := next)));
      SetLink(prev, Some(l.value.(next := next)));
      l := GetLink(next);
      OnlyLinksStep(m, pool.contents, f, s, next, Some(l.value.(prev := prev)));
      SetLink(next, Some(l.value.(prev := prev)));
      OnlyLinksStep(m, pool.contents, f, s, item, None);
      SetLink(item, None);
    }

    method PopBack() returns (r: Option<PoolPtr>)
      requires Valid()
      modifies this, pool
      ensures Valid()
      ensures r == if old(order) == [] then None else Some(old(order)[|old(order)| - 1])
      ensures order == if old(order) == [] then [] else old(order)[..|old(order)| - 1]
      ensures r.Some? ==> r.value in pool.contents && pool.contents[r.value].Get(f) == None
      ensures OnlyLinks(old(pool.contents), pool.contents, f, old(order)) && |pool.entries| == |old(pool.entries)|
    {
      r := Back();
      if r.Some? {
        Remove(r.value, |order| - 1);
      }
    }

    method PopFront() returns (r: Option<PoolPtr>)
      requires Valid()
      modifies this, pool
      ensures Valid()
      ensures r == FirstOf(old(order))
      ensures order == if old(order) == [] then [] else old(order)[1..]
      ensures r.Some? ==> r.value in pool.contents && pool.contents[r.value].Get(f) == None
      ensures OnlyLinks(old(pool.contents), pool.contents, f, old(order)) && |pool.entries| == |old(pool.entries)|
    {
      r := Front();
      if r.Some? {
        Remove(r.value, 0);
      }
    }

    /** Visits the elements from the front, following the links until they come back
        to the first. */
    method Iterate() returns (visited: seq<PoolPtr>)
      requires Valid()
      ensures visited == order
    {
      visited := [];
      var next := first;
      ghost var links := LinksOf(pool.contents, f);
      while next.Some?
        invariant |visited| <= |order| && visited == order[..|visited|]
        invariant next == if |visited| < |order| then Some(order[|visited|]) else None
        decreases |order| - |visited|
      {
        ghost var i := |visited|;
        assert RingAt(links, order, i);
        SameElement(order, NextIndex(i, |order|), 0);
        var l := GetLink(next.value);
        visited := visited + [next.value];
        next := if Some(l.value.next) == first then None else Some(l.value.next);
      }
    }

    /** Of the elements `s` in a list that is being drained, those from `a` to `b` are
        left; the others have no links any more. */
    ghost predicate Draining(m: map<PoolPtr, Node<E>>, s: seq<PoolPtr>, a: nat, b: nat)
      reads this, pool
    {
      Valid() && a <= b <= |s| && order == s[a..b] && OnlyLinks(m, pool.contents, f, s)
          && TakenOff(pool.contents, f, s, order)
    }

    /** `Drain::next` */
    method DrainNext(ghost m: map<PoolPtr, Node<E>>, ghost s: seq<PoolPtr>, ghost a: nat, ghost b: nat)
      returns (r: Option<PoolPtr>)
      requires Draining(m, s, a, b)
      modifies this, pool
      ensures Draining(m, s, if r.Some? then a + 1 else a, b) && |pool.entries| == |old(pool.entries)|
      ensures r == if a < b then Some(s[a]) else None
    {
      hide IsRing, IsFreeList;
      ghost var before, left := pool.contents, order;
      r := PopFront();
      OnlyLinksChain(m, before, pool.contents, f, s, left);
      if r.Some? {
        TakenOffStep(before, pool.contents, f, s, left, order, r.value);
      }
    }

    method DropLast(ghost m: map<PoolPtr, Node<E>>, ghost s: seq<PoolPtr>, ghost a: nat, ghost b: nat)
      returns (r: Option<PoolPtr>)
      requires Draining(m, s, a, b)
      modifies this, pool
      ensures r.Some? <==> a < b
      ensures Draining(m, s, a, if r.Some? then b - 1 else b) && |pool.entries| == |old(pool.entries)|
    {
      hide IsRing, IsFreeList;
      ghost var before, left := pool.contents, order;
      r := PopBack();
      OnlyLinksChain(m, before, pool.contents, f, s, left);
      if r.Some? {
        TakenOffStep(before, pool.contents, f, s, left, order, r.value);
      }
    }

    /** Takes elements from the front as long as `take` asks for more, and then drops
        the rest from the back (`Drain`): the list ends up empty and its elements
        without links, and the elements taken are its first ones. */
    method Drain(take: nat) returns (drained: seq<PoolPtr>)
      requires Valid()
      modifies this, pool
      ensures Valid() && order == []
      ensures drained == old(order)[..if take < |old(order)| then take else |old(order)|]
      ensures OnlyLinks(old(pool.contents), pool.contents, f, old(order)) && |pool.entries| == |old(pool.entries)|
      ensures TakenOff(pool.contents, f, old(order), [])
    {
      drained := [];
      ghost var m, s := pool.contents, order;
      ghost var b: nat := |s|;
      assert s[0..b] == s && Draining(m, s, 0, b);
      hide IsRing, IsFreeList, OnlyLinks, TakenOff;
      for i := 0 to take
        invariant |drained| == (if i < |s| then i else |s|) && drained == s[..|drained|]
        invariant Draining(m, s, |drained|, b) && |pool.entries| == |old(pool.entries)|
      {
        var p := DrainNext(m, s, |drained|, b);
        if p.None? {
          break;
        }
        drained := drained + [p.value];
      }
      var more := true;
      while more
        invariant Draining(m, s, |drained|, b) && |pool.entries| == |old(pool.entries)| && (more || b == |drained|)
        decreases more, b
      {
        var p := DropLast(m, s, |drained|, b);
        more, b := p.Some?, if p.Some? then b - 1 else b;
      }
      assert s[|drained|..b] == [];
    }
  }

  lemma {:induction false} OnlyLinksChain<E>(a: map<PoolPtr, Node<E>>, b: map<PoolPtr, Node<E>>,
                                             c: map<PoolPtr, Node<E>>,
                                             f: Field, s: seq<PoolPtr>, t: seq<PoolPtr>)
    requires OnlyLinks(a, b, f, s) && OnlyLinks(b, c, f, t) && forall p :: p in t ==> p in s
    ensures OnlyLinks(a, c, f, s)
  {
  }

  /** Working on a list through one field leaves the links in all others alone. */
  lemma {:induction false} OtherLinksKept<E>(a: map<PoolPtr, Node<E>>, b: map<PoolPtr, Node<E>>, f: Field,
                                             s: seq<PoolPtr>, g: Field)
    requires OnlyLinks(a, b, f, s) && f != g
    ensures LinksOf(b, g) == LinksOf(a, g)
  {
  }

  /** And so it leaves every list threaded through another field as it was. */
  lemma {:induction false} OtherListsKept<E>(a: map<PoolPtr, Node<E>>, b: map<PoolPtr, Node<E>>, f: Field,
                                             s: seq<PoolPtr>,
                                             g: Field, first: Option<PoolPtr>, t: seq<PoolPtr>)
    requires OnlyLinks(a, b, f, s) && f != g && IsList(LinksOf(a, g), first, t)
    ensures IsList(LinksOf(b, g), first, t)
  {
    OtherLinksKept(a, b, f, s, g);
  }
}
