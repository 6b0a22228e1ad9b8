/** A pool whose occupied entries form a circular list, so that they can be visited
    without looking at the vacant ones. */
module IterPool {
  import opened Wrappers
  import opened LeakyPool
  import opened IntrusiveList
  import opened ListIndex

  /** An occupied entry is linked to the next and to the previous one; a vacant one to
      the next vacant one. */
  datatype ItEntry<T> = Used(value: T, next: PoolPtr, prev: PoolPtr) | Free(nextFree: Option<PoolPtr>)

  /** The links of the occupied entries. */
  ghost function UsedLinks<T>(storage: seq<ItEntry<T>>): Links {
    map p: PoolPtr | p < |storage| && storage[p].Used? :: Some(Link(storage[p].prev, storage[p].next))
  }

  /** `free` is the list of vacant entries that starts at `first`. */
  ghost predicate IsChain<T>(storage: seq<ItEntry<T>>, first: Option<PoolPtr>, free: seq<PoolPtr>)
    decreases free
  {
    if free == [] then first == None else
      && first == Some(free[0])
      && free[0] < |storage|
      && storage[free[0]].Free?
      && free[0] !in free[1..]
      && IsChain(storage, storage[free[0]].nextFree, free[1..])
  }

  lemma {:induction false} ChainFrame<T>(a: seq<ItEntry<T>>, b: seq<ItEntry<T>>, first: Option<PoolPtr>,
                                         free: seq<PoolPtr>)
    requires IsChain(a, first, free) && |a| <= |b|
    requires forall p: PoolPtr :: p in free && p < |a| && a[p].Free? ==> b[p] == a[p]
    ensures IsChain(b, first, free)
    decreases free
  {
    if free != [] {
      assert free[0] in free;
      ChainFrame(a, b, a[free[0]].nextFree, free[1..]);
    }
  }

  lemma {:induction false} ChainFree<T>(storage: seq<ItEntry<T>>, first: Option<PoolPtr>, free: seq<PoolPtr>,
                                        p: PoolPtr)
    requires IsChain(storage, first, free) && p in free
    ensures p < |storage| && storage[p].Free?
    decreases free
  {
    if p != free[0] {
      ChainFree(storage, storage[free[0]].nextFree, free[1..], p);
    }
  }

  // ----- rings ----------------------------------------------------------------------

  /** The list with its first element last. */
  ghost function Rotated(s: seq<PoolPtr>): seq<PoolPtr>
    requires s != []
  {
    s[1..] + [s[0]]
  }

  /** A ring has no beginning. */
  lemma {:induction false} RotateRing(links: Links, s: seq<PoolPtr>)
    requires IsRing(links, s) && s != []
    ensures IsRing(links, Rotated(s))
  {
    var n, t := |s|, Rotated(s);
    forall i: nat | i < n ensures RingAt(links, t, i) {
      assert RingAt(links, s, NextIndex(i, n));
    }
  }

  lemma {:induction false} RingMember(links: Links, s: seq<PoolPtr>, p: PoolPtr)
    requires IsRing(links, s) && p in s
    ensures p in links
  {
    var i: nat :| i < |s| && s[i] == p;
    assert RingAt(links, s, i);
  }

  /** There are not more elements than entries. */
  lemma {:induction false} AtMost(s: seq<PoolPtr>, n: nat)
    requires Distinct(s) && forall p :: p in s ==> p < n
    ensures |s| <= n
    decreases n
  {
    if n > 0 && n - 1 in s {
      var k: nat :| k < |s| && s[k] == n - 1;
      forall p | p in Without(s, k) ensures p < n - 1 {
        WithoutMembers(s, k, p);
      }
      WithoutMembers(s, k, 0);
      AtMost(Without(s, k), n - 1);
    } else if n > 0 {
      AtMost(s, n - 1);
    } else {
      assert (s + [0])[0] in s || s == [];
    }
  }

  // ----- the entries as a value -------------------------------------------------------

  /** The occupied entries are those in `order`, a ring that starts at `firstUsed`, and
      the vacant ones are those in `free`. */
  ghost predicate PoolOk<T>(storage: seq<ItEntry<T>>, firstFree: Option<PoolPtr>, firstUsed: Option<PoolPtr>,
                            free: seq<PoolPtr>, order: seq<PoolPtr>)
  {
    && IsChain(storage, firstFree, free) && IsList(UsedLinks(storage), firstUsed, order)
    && (forall p: PoolPtr :: p < |storage| && storage[p].Used? ==> p in order)
    && (forall p: PoolPtr :: p < |storage| && storage[p].Free? ==> p in free)
  }

  /** The two lists share no entry and together they cover all entries. */
  lemma {:induction false} Partition<T>(storage: seq<ItEntry<T>>, firstFree: Option<PoolPtr>,
                                        firstUsed: Option<PoolPtr>,
                                        free: seq<PoolPtr>, order: seq<PoolPtr>, p: PoolPtr)
    requires PoolOk(storage, firstFree, firstUsed, free, order)
    ensures !(p in free && p in order) && (p < |storage| <==> p in free || p in order)
    ensures p in order <==> p < |storage| && storage[p].Used?
    ensures p in free <==> p < |storage| && storage[p].Free?
  {
    if p in free {
      ChainFree(storage, firstFree, free, p);
    }
    if p in order {
      RingMember(UsedLinks(storage), order, p);
    }
  }

  lemma {:induction false} LinksSet<T>(storage: seq<ItEntry<T>>, p: PoolPtr, e: ItEntry<T>)
    requires p < |storage|
    ensures e.Used? ==> UsedLinks(storage[p := e]) == UsedLinks(storage)[p := Some(Link(e.prev, e.next))]
    ensures e.Free? ==> UsedLinks(storage[p := e]) == UsedLinks(storage) - {p}
  {
  }

  // ----- allocation -------------------------------------------------------------------

  /** The entries after the first vacant one, `i`, is occupied by `x`, between `h` and
      the entry that was linked after it. */
  ghost function AfterUse<T>(storage: seq<ItEntry<T>>, h: PoolPtr, i: PoolPtr, x: T): seq<ItEntry<T>>
    requires h < |storage| && storage[h].Used? && i < |storage| && storage[i].Free?
    requires storage[h].next < |storage| && storage[storage[h].next].Used?
  {
    var next := storage[h].next;
    var a := storage[h := storage[h].(next := i)];
    a[next := a[next].(prev := i)][i := Used(x, next, h)]
  }

  lemma {:induction false} LinksAfterUse<T>(storage: seq<ItEntry<T>>, h: PoolPtr, i: PoolPtr, x: T)
    requires h < |storage| && storage[h].Used? && i < |storage| && storage[i].Free?
    requires storage[h].next < |storage| && storage[storage[h].next].Used?
    ensures h in UsedLinks(storage) && storage[h].next in UsedLinks(storage)
    ensures UsedLinks(AfterUse(storage, h, i, x)) == LinkedBetween(UsedLinks(storage), h, storage[h].next, i)
  {
    var next := storage[h].next;
    var a := storage[h := storage[h].(next := i)];
    var b := a[next := a[next].(prev := i)];
    LinksSet(storage, h, a[h]);
    LinksSet(a, next, b[next]);
    LinksSet(b, i, Used(x, next, h));
  }

  /** The first element of a list is linked to the second. */
  lemma {:induction false} SecondOf<T>(storage: seq<ItEntry<T>>, order: seq<PoolPtr>)
    requires IsRing(UsedLinks(storage), order) && order != []
    ensures var h := order[0];
            && h < |storage| && storage[h].Used? && storage[h].next == order[if |order| == 1 then 0 else 1]
            && storage[h].next < |storage| && storage[storage[h].next].Used?
  {
    assert RingAt(UsedLinks(storage), order, 0);
    RingMember(UsedLinks(storage), order, storage[order[0]].next);
  }

  lemma {:induction false} UseRing<T>(storage: seq<ItEntry<T>>, order: seq<PoolPtr>, i: PoolPtr, x: T)
    requires IsRing(UsedLinks(storage), order) && order != [] && i < |storage| && storage[i].Free? && i !in order
    requires var h := order[0];
             h < |storage| && storage[h].Used? && storage[h].next < |storage| && storage[storage[h].next].Used?
    ensures IsRing(UsedLinks(AfterUse(storage, order[0], i, x)), [i] + Rotated(order))
  {
    var links, after := UsedLinks(storage), UsedLinks(AfterUse(storage, order[0], i, x));
    SecondOf(storage, order);
    LinksAfterUse(storage, order[0], i, x);
    InsertRing(links, order, 1, i);
    RotateRing(after, Inserted(order, 1, i));
    assert Rotated(Inserted(order, 1, i)) == [i] + Rotated(order);
  }

  lemma {:induction false} Allocated<T>(storage: seq<ItEntry<T>>, firstFree: Option<PoolPtr>,
                                        firstUsed: Option<PoolPtr>,
                                        free: seq<PoolPtr>, order: seq<PoolPtr>, x: T)
    requires PoolOk(storage, firstFree, firstUsed, free, order) && free != []
    ensures var i := free[0];
            && firstFree == Some(i) && i < |storage| && storage[i].Free?
            && (order == [] ==> PoolOk(storage[i := Used(x, i, i)], storage[i].nextFree, Some(i), free[1..], [i]))
            && (order != [] ==>
                  var h := order[0];
                  && h < |storage| && storage[h].Used? && storage[h].next < |storage| && storage[storage[h].next].Used?
                  && PoolOk(AfterUse(storage, h, i, x), storage[i].nextFree, Some(i), free[1..], [i] + Rotated(order)))
  {
    var i := free[0];
    Partition(storage, firstFree, firstUsed, free, order, i);
    if order == [] {
      ChainFrame(storage, storage[i := Used(x, i, i)], storage[i].nextFree, free[1..]);
      LinksSet(storage, i, Used(x, i, i));
      assert RingAt(UsedLinks(storage[i := Used(x, i, i)]), [i], 0);
    } else {
      SecondOf(storage, order);
      UseRing(storage, order, i, x);
      ChainFrame(storage, AfterUse(storage, order[0], i, x), storage[i].nextFree, free[1..]);
      forall p | p in order || p == i ensures p in [i] + Rotated(order) {
        RotatedMembers(order, p);
      }
    }
  }

  lemma {:induction false} RotatedMembers(s: seq<PoolPtr>, p: PoolPtr)
    requires s != []
    ensures p in Rotated(s) <==> p in s
  {
    assert s == [s[0]] + s[1..];
  }

  // ----- deallocation -----------------------------------------------------------------

  /** The entries after entry `i` is taken from between its neighbours. */
  ghost function AfterFree<T>(storage: seq<ItEntry<T>>, firstFree: Option<PoolPtr>, i: PoolPtr, next: PoolPtr,
                              prev: PoolPtr): seq<ItEntry<T>>
    requires i < |storage| && next < |storage| && prev < |storage| && next != i && prev != i && storage[next].Used?
             && storage[prev].Used?
  {
    var a := storage[i := Free(firstFree)];
    var b := a[next := a[next].(prev := prev)];
    b[prev := b[prev].(next := next)]
  }

  lemma {:induction false} LinksAfterFree<T>(storage: seq<ItEntry<T>>, firstFree: Option<PoolPtr>, i: PoolPtr,
                                             next: PoolPtr, prev: PoolPtr)
    requires i < |storage| && next < |storage| && prev < |storage| && next != i && prev != i && storage[next].Used?
             && storage[prev].Used?
    ensures next in UsedLinks(storage) && prev in UsedLinks(storage)
    ensures var before, after := Unlinked(UsedLinks(storage), prev, next, i),
            UsedLinks(AfterFree(storage, firstFree, i, next, prev));
            forall p :: p in before && p != i ==> p in after && after[p] == before[p]
  {
  }

  lemma {:induction false} FreeRing<T>(storage: seq<ItEntry<T>>, firstFree: Option<PoolPtr>, order: seq<PoolPtr>,
                                       k: nat)
    requires IsRing(UsedLinks(storage), order) && k < |order| && |order| > 1
    ensures var i, n := order[k], |order|;
            var prev, next := order[PrevIndex(k, n)], order[NextIndex(k, n)];
            && i < |storage| && storage[i].Used? && storage[i].next == next && storage[i].prev == prev && next != i
                && prev != i
            && next < |storage| && storage[next].Used? && prev < |storage| && storage[prev].Used?
            && IsRing(UsedLinks(AfterFree(storage, firstFree, i, next, prev)), Without(order, k))
  {
    var links, i, n := UsedLinks(storage), order[k], |order|;
    var prev, next := order[PrevIndex(k, n)], order[NextIndex(k, n)];
    assert RingAt(links, order, k);
    SameElement(order, k, NextIndex(k, n));
    SameElement(order, k, PrevIndex(k, n));
    RemoveRing(links, order, k);
    RingMember(links, order, prev);
    RingMember(links, order, next);
    LinksAfterFree(storage, firstFree, i, next, prev);
    forall p | p in Without(order, k) ensures p in Unlinked(links, prev, next, i) && p != i {
      RingMember(Unlinked(links, prev, next, i), Without(order, k), p);
      WithoutMembers(order, k, p);
    }
    RingFrame(Unlinked(links, prev, next, i), UsedLinks(AfterFree(storage, firstFree, i, next, prev)),
        Without(order, k));
  }

  lemma {:induction false} Deallocated<T>(storage: seq<ItEntry<T>>, firstFree: Option<PoolPtr>,
                                          firstUsed: Option<PoolPtr>,
                                          free: seq<PoolPtr>, order: seq<PoolPtr>, k: nat)
    requires PoolOk(storage, firstFree, firstUsed, free, order) && k < |order|
    ensures var i := order[k];
            && i < |storage| && storage[i].Used?
            && (storage[i].next == i ==>
                  && storage[i].prev == i && firstUsed == Some(i) && Without(order, k) == []
                  && PoolOk(storage[i := Free(firstFree)], Some(i), None, [i] + free, []))
            && (storage[i].next != i ==>
                  var next, prev := storage[i].next, storage[i].prev;
                  && prev != i && next < |storage| && storage[next].Used? && prev < |storage| && storage[prev].Used?
                  && PoolOk(AfterFree(storage, firstFree, i, next, prev), Some(i), if firstUsed == Some(i)
                      then Some(next) else firstUsed,
                            [i] + free, Without(order, k)))
  {
    var links, i, n := UsedLinks(storage), order[k], |order|;
    assert RingAt(links, order, k);
    SameElement(order, k, NextIndex(k, n));
    SameElement(order, k, 0);
    Partition(storage, firstFree, firstUsed, free, order, i);
    forall p ensures p in Without(order, k) <==> p in order && p != i {
      WithoutMembers(order, k, p);
    }
    if storage[i].next == i {
      ChainFrame(storage, storage[i := Free(firstFree)], firstFree, free);
      assert n == 1;
    } else {
      FreeRing(storage, firstFree, order, k);
      ChainFrame(storage, AfterFree(storage, firstFree, i, storage[i].next, storage[i].prev), firstFree, free);
    }
  }

  // ----- the objects ------------------------------------------------------------------

  ghost function ContentsOf<T>(storage: seq<ItEntry<T>>): map<PoolPtr, T> {
    map p: PoolPtr | p < |storage| && storage[p].Used? :: storage[p].value
  }

  lemma {:induction false} ContentsUsed<T>(storage: seq<ItEntry<T>>, i: PoolPtr, x: T)
    requires i < |storage| && storage[i].Free?
    ensures ContentsOf(storage[i := Used(x, i, i)]) == ContentsOf(storage)[i := x]
    ensures forall h: PoolPtr ::
              h < |storage| && storage[h].Used? && storage[h].next < |storage| && storage[storage[h].next].Used? ==>
                ContentsOf(AfterUse(storage, h, i, x)) == ContentsOf(storage)[i := x]
  {
  }

  lemma {:induction false} ContentsFreed<T>(storage: seq<ItEntry<T>>, firstFree: Option<PoolPtr>, i: PoolPtr,
                                            next: PoolPtr, prev: PoolPtr)
    requires i < |storage| && storage[i].Used?
    ensures i in ContentsOf(storage) && ContentsOf(storage[i := Free(firstFree)]) == ContentsOf(storage) - {i}
    ensures next < |storage| && prev < |storage| && next != i && prev != i && storage[next].Used?
            && storage[prev].Used? ==>
              ContentsOf(AfterFree(storage, firstFree, i, next, prev)) == ContentsOf(storage) - {i}
  {
  }

  /** The numbers from `a` to below `b`. */
  ghost function UpTo(a: nat, b: nat): seq<nat>
    requires a <= b
  {
    seq(b - a, k requires 0 <= k < b - a => a + k)
  }

  class IterablePool<T> {
    var storage: seq<ItEntry<T>>
    var firstFree: Option<PoolPtr>
    var firstUsed: Option<PoolPtr>
    ghost var free: seq<PoolPtr>
    // The occupied entries, in the order in which they are visited.
    ghost var order: seq<PoolPtr>

    ghost predicate Valid()
      reads this
    {
      PoolOk(storage, firstFree, firstUsed, free, order)
    }

    /** The object at each occupied entry. */
    ghost function Contents(): map<PoolPtr, T>
      reads this
    {
      ContentsOf(storage)
    }

    constructor ()
      ensures Valid() && order == [] && free == []
    {
      storage, firstFree, firstUsed := [], None, None;
      free, order := [], [];
    }

    /** A pool with a number of vacant entries, linked in order. */
    constructor WithCapacity(capacity: nat)
      ensures Valid() && order == [] && |storage| == capacity && free == UpTo(0, capacity)
    {
      var s: seq<ItEntry<T>> := [];
      if capacity > 0 {
        for i := 0 to capacity - 1
          invariant |s| == i && forall j :: 0 <= j < i ==> s[j] == Free(Some(j + 1))
        {
          s := s + [Free(Some(i + 1))];
        }
        s := s + [Free(None)];
        ChainUp(s, 0);
      }
      storage, firstUsed := s, None;
      firstFree := if capacity > 0 then Some(0) else None;
      free, order := UpTo(0, capacity), [];
    }

    method Clear()
      modifies this
      ensures Valid() && order == [] && storage == []
    {
      storage, firstFree, firstUsed := [], None, None;
      free, order := [], [];
    }

    /** Stores `x` in a vacant entry; in the order of the entries it comes first, and
        the one that was first comes last. */
    method Allocate(x: T) returns (i: PoolPtr)
      requires Valid()
      modifies this
      ensures Valid() && i !in old(order) && Contents() == old(Contents())[i := x]
      ensures order == [i] + if old(order) == [] then [] else old(order)[1..] + [old(order)[0]]
      ensures i == if old(free) != [] then old(free)[0] else |old(storage)|
      ensures |storage| == |old(storage)| + if old(free) != [] then 0 else 1
    {
      hide PoolOk, IsChain;
      if firstFree.None? {
        AddFree(storage, firstUsed, free, order);
        storage := storage + [Free(None)];
        firstFree := Some(|storage| - 1);
        free := [|storage| - 1];
      } else {
        SomeFree(storage, firstFree, firstUsed, free, order);
      }
      i := Occupy(x);
    }

    /** Stores `x` in the first vacant entry. */
    method Occupy(x: T) returns (i: PoolPtr)
      requires Valid() && free != []
      modifies this
      ensures Valid() && i == old(free)[0] && i !in old(order) && Contents() == old(Contents())[i := x]
      ensures order == [i] + if old(order) == [] then [] else Rotated(old(order))
      ensures |storage| == |old(storage)|
    {
      hide IsChain, ContentsOf, UsedLinks;
      Allocated(storage, firstFree, firstUsed, free, order, x);
      i := firstFree.value;
      Partition(storage, firstFree, firstUsed, free, order, i);
      ContentsUsed(storage, i, x);
      ghost var before := storage;
      var next, prev := i, i;
      var nextFree := storage[i].nextFree;
      if firstUsed.Some? {
        prev := firstUsed.value;
        next := storage[prev].next;
        storage := storage[prev := storage[prev].(next := i)];
        storage := storage[next := storage[next].(prev := i)];
        assert storage[i := Used(x, next, prev)] == AfterUse(before, order[0], i, x);
      }
      assert [i] + [] == [i];
      hide PoolOk;
      firstFree := nextFree;
      storage := storage[i := Used(x, next, prev)];
      firstUsed := Some(i);
      order := [i] + if order == [] then [] else Rotated(order);
      free := free[1..];
    }

    /** Takes the object at `i` out; a vacant entry is a panic. */
    method Deallocate(i: PoolPtr) returns (r: Option<T>)
      requires Valid() && i < |storage|
      modifies this
      ensures r.Some? <==> i in old(Contents())
      ensures r.Some? ==>
                && Valid() && r.value == old(Contents())[i] && Contents() == old(Contents()) - {i}
                && |storage| == |old(storage)| && free == [i] + old(free)
                && exists k: nat :: k < |old(order)| && old(order)[k] == i && order == Without(old(order), k)
    {
      var e := storage[i];
      if e.Free? {
        storage := storage[i := Free(firstFree)];
        return None;
      }
      ghost var was := storage;
      ghost var k := PlaceOf(storage, firstFree, firstUsed, free, order, i);
      Deallocated(storage, firstFree, firstUsed, free, order, k);
      ContentsFreed(storage, firstFree, i, e.next, e.prev);
      hide PoolOk, IsChain, ContentsOf;
      storage := storage[i := Free(firstFree)];
      if e.next == i {
        firstUsed := None;
      } else {
        if firstUsed == Some(i) {
          firstUsed := Some(e.next);
        }
        storage := storage[e.next := storage[e.next].(prev := e.prev)];
        storage := storage[e.prev := storage[e.prev].(next := e.next)];
        assert storage == AfterFree(was, firstFree, i, e.next, e.prev);
      }
      firstFree := Some(i);
      free, order := [i] + free, Without(order, k);
      r := Some(e.value);
    }

    method Get(p: PoolPtr) returns (r: Option<T>)
      requires Valid()
      ensures r == if p in Contents() then Some(Contents()[p]) else None
    {
      r := if p < |storage| && storage[p].Used? then Some(storage[p].value) else None;
    }
  }

  /** Iterates over a pool, which does not change meanwhile. */
  class PtrIter<T> {
    const pool: IterablePool<T>
    var cur: Option<PoolPtr>
    var remainingLen: nat
    // How many entries have been visited.
    ghost var visited: nat

    ghost predicate Valid()
      reads this, pool
    {
      && pool.Valid() && visited <= |pool.order| && remainingLen + visited == |pool.storage|
      && cur == if visited < |pool.order| then Some(pool.order[visited]) else None
    }

    constructor (pool: IterablePool<T>)
      requires pool.Valid()
      ensures Valid() && this.pool == pool && visited == 0
    {
      this.pool, cur, remainingLen, visited := pool, pool.firstUsed, |pool.storage|, 0;
    }

    /** The next entry in the order of the pool, until all have been visited;
        `remainingLen` never runs out before that. */
    method Next() returns (r: Option<(PoolPtr, T)>)
      requires Valid()
      modifies this
      ensures Valid() && (r.None? <==> old(visited) == |pool.order|)
      ensures visited == old(visited) + if r.Some? then 1 else 0
      ensures r.Some? ==>
                var p := pool.order[old(visited)];
                p in pool.Contents() && r == Some((p, pool.Contents()[p]))
    {
      if cur.None? {
        return None;
      }
      ghost var links, order := UsedLinks(pool.storage), pool.order;
      assert RingAt(links, order, visited);
      SameElement(order, NextIndex(visited, |order|), 0);
      Enough(pool.storage, order);
      var e := pool.storage[cur.value];
      r := Some((cur.value, e.value));
      cur := Some(e.next);
      if cur == pool.firstUsed {
        cur := None;
      }
      remainingLen := remainingLen - 1;
      visited := visited + 1;
    }
  }

  lemma {:induction false} Enough<T>(storage: seq<ItEntry<T>>, order: seq<PoolPtr>)
    requires IsRing(UsedLinks(storage), order)
    ensures |order| <= |storage|
  {
    forall p | p in order ensures p < |storage| {
      RingMember(UsedLinks(storage), order, p);
    }
    AtMost(order, |storage|);
  }

  lemma {:induction false} SomeFree<T>(storage: seq<ItEntry<T>>, firstFree: Option<PoolPtr>, firstUsed: Option<PoolPtr>,
                                       free: seq<PoolPtr>, order: seq<PoolPtr>)
    requires PoolOk(storage, firstFree, firstUsed, free, order) && firstFree.Some?
    ensures free != [] && free[0] == firstFree.value
  {
  }

  lemma {:induction false} PlaceOf<T>(storage: seq<ItEntry<T>>, firstFree: Option<PoolPtr>, firstUsed: Option<PoolPtr>,
                                      free: seq<PoolPtr>, order: seq<PoolPtr>, i: PoolPtr) returns (k: nat)
    requires PoolOk(storage, firstFree, firstUsed, free, order) && i < |storage| && storage[i].Used?
    ensures k < |order| && order[k] == i
  {
    assert i in order;
    k :| k < |order| && order[k] == i;
  }

  lemma {:induction false} ChainUp<T>(s: seq<ItEntry<T>>, i: nat)
    requires i < |s| && s[|s| - 1] == Free(None) && forall j :: 0 <= j < |s| - 1 ==> s[j] == Free(Some(j + 1))
    ensures IsChain(s, Some(i), UpTo(i, |s|)) && UpTo(i, |s|) != []
    ensures forall p: nat :: p in UpTo(i, |s|) <==> i <= p < |s|
    decreases |s| - i
  {
    var free := UpTo(i, |s|);
    forall p: nat | i <= p < |s| ensures p in free {
      assert free[p - i] == p;
    }
    if i < |s| - 1 {
      ChainUp(s, i + 1);
      assert free[1..] == UpTo(i + 1, |s|);
    } else {
      assert free[1..] == [];
      assert IsChain(s, None, []);
    }
  }

  /** A vacant entry is added when there is none. */
  lemma {:induction false} AddFree<T>(storage: seq<ItEntry<T>>, firstUsed: Option<PoolPtr>, free: seq<PoolPtr>,
                                      order: seq<PoolPtr>)
    requires PoolOk(storage, None, firstUsed, free, order)
    ensures free == [] && PoolOk(storage + [Free(None)], Some(|storage|), firstUsed, [|storage|], order)
    ensures ContentsOf(storage + [Free(None)]) == ContentsOf(storage)
  {
    assert IsChain(storage + [Free(None)], None, []);
    assert [|storage|][1..] == [];
    assert UsedLinks(storage + [Free(None)]) == UsedLinks(storage);
  }
}
