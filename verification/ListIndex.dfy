/** Objects sorted by a key into intrusive lists, one list per key. */
module ListIndex {
  import opened Wrappers
  import opened LeakyPool
  import opened IntrusiveList

  /** Every object is in the list of its key, once, and in no other. */
  ghost predicate Sorted<K>(keys: map<PoolPtr, K>, order: map<K, seq<PoolPtr>>) {
    && (forall k :: k in order ==> Distinct(order[k]))
    && (forall k, p :: k in order && p in order[k] ==> p in keys && keys[p] == k)
    && (forall p :: p in keys ==> keys[p] in order && p in order[keys[p]])
  }

  /** The lists of all keys but `open` are in order: `heads` gives their first
      elements. */
  ghost predicate Linked<K>(links: Links, heads: map<K, Option<PoolPtr>>, order: map<K, seq<PoolPtr>>,
                            open: Option<K>) {
    && order.Keys == heads.Keys
    && (forall k :: k in order && Some(k) != open ==> IsList(links, heads[k], order[k]))
  }

  /** The two together; the list `open` is being destroyed. */
  ghost predicate Indexed<K>(links: Links, keys: map<PoolPtr, K>, heads: map<K, Option<PoolPtr>>,
                             order: map<K, seq<PoolPtr>>, open: Option<K>)
  {
    links.Keys == keys.Keys && Sorted(keys, order) && Linked(links, heads, order, open)
  }

  // ----- membership -------------------------------------------------------------

  lemma {:induction false} WithoutMembers(s: seq<PoolPtr>, k: nat, p: PoolPtr)
    requires Distinct(s) && k < |s|
    ensures p in Without(s, k) <==> p in s && p != s[k]
    ensures Distinct(Without(s, k))
  {
    if p in s && p != s[k] {
      var i :| 0 <= i < |s| && s[i] == p;
      assert Without(s, k)[if i < k then i else i - 1] == p;
    }
    if p in Without(s, k) {
      var i :| 0 <= i < |s| - 1 && Without(s, k)[i] == p;
      assert s[if i < k then i else i + 1] == p;
    }
  }

  lemma {:induction false} SortedRemove<K>(keys: map<PoolPtr, K>, p: PoolPtr, i: nat, order: map<K, seq<PoolPtr>>)
    requires Sorted(keys, order) && p in keys && i < |order[keys[p]]| && order[keys[p]][i] == p
    ensures Sorted(keys - {p}, order[keys[p] := Without(order[keys[p]], i)])
  {
    var s := order[keys[p]];
    forall q ensures q in Without(s, i) <==> q in s && q != p {
      WithoutMembers(s, i, q);
    }
    WithoutMembers(s, i, p);
  }

  lemma {:induction false} AppendMembers(s: seq<PoolPtr>, p: PoolPtr)
    requires Distinct(s) && p !in s
    ensures Distinct(s + [p])
    ensures forall q :: q in s + [p] <==> q in s || q == p
  {
  }

  lemma {:induction false} SortedAdd<K>(keys: map<PoolPtr, K>, p: PoolPtr, k: K, order: map<K, seq<PoolPtr>>)
    requires Sorted(keys, order) && p !in keys && k in order
    ensures Sorted(keys[p := k], order[k := order[k] + [p]])
  {
    assert p !in order[k];
    AppendMembers(order[k], p);
  }

  // ----- links ------------------------------------------------------------------

  /** Lists whose elements kept their links are still in order; the list of `k` is
      replaced. */
  lemma {:induction false} LinkedUpdate<K>(a: Links, b: Links, heads: map<K, Option<PoolPtr>>,
                                           order: map<K, seq<PoolPtr>>,
                                           open: Option<K>, k: K, first: Option<PoolPtr>, s: seq<PoolPtr>)
    requires Linked(a, heads, order, open)
    requires forall j, p :: j in order && j != k && Some(j) != open && p in order[j] ==>
             p in b && (p in a ==> b[p] == a[p])
    requires Some(k) == open || IsList(b, first, s)
    ensures Linked(b, heads[k := first], order[k := s], open)
  {
    forall j | j in order && j != k && Some(j) != open ensures IsList(b, heads[j], order[j]) {
      RingFrame(a, b, order[j]);
    }
  }

  // ----- both -------------------------------------------------------------------

  /** Element `p` was taken out of its list, at place `i`, and then deleted. */
  lemma {:induction false} IndexedRemove<K>(a: Links, b: Links, keys: map<PoolPtr, K>, p: PoolPtr, i: nat,
                                            first: Option<PoolPtr>,
                                            heads: map<K, Option<PoolPtr>>, order: map<K, seq<PoolPtr>>,
                                            open: Option<K>)
    requires Indexed(a, keys, heads, order, open) && p in keys && Some(keys[p]) != open && b.Keys == a.Keys
    requires var s := order[keys[p]];
             && i < |s| && s[i] == p && IsList(b, first, Without(s, i))
             && forall q :: q in a && q !in s ==> b[q] == a[q]
    ensures var k := keys[p];
            Indexed(b - {p}, keys - {p}, heads[k := first], order[k := Without(order[k], i)], open)
  {
    var k, c := keys[p], b - {p};
    var s, t := order[k], Without(order[k], i);
    SortedRemove(keys, p, i, order);
    forall q | q in t ensures q in c {
      WithoutMembers(s, i, q);
    }
    RingFrame(b, c, t);
    forall j, q | j in order && j != k && q in order[j] ensures q in c && c[q] == a[q] {
      assert keys[q] == j;
      assert q !in s;
    }
    LinkedUpdate(a, c, heads, order, open, k, first, t);
  }

  /** The first element left of the list being destroyed was deleted. */
  lemma {:induction false} IndexedDrop<K>(links: Links, keys: map<PoolPtr, K>, p: PoolPtr,
                                          heads: map<K, Option<PoolPtr>>, order: map<K, seq<PoolPtr>>, k: K)
    requires Indexed(links, keys, heads, order, Some(k)) && k in order && order[k] != [] && order[k][0] == p
    ensures Indexed(links - {p}, keys - {p}, heads, order[k := order[k][1..]], Some(k))
  {
    assert p in order[k] && keys[p] == k;
    assert Without(order[k], 0) == order[k][1..];
    SortedRemove(keys, p, 0, order);
    forall j, q | j in order && j != k && q in order[j] ensures q in links - {p} {
      assert keys[q] == j;
    }
    LinkedUpdate(links, links - {p}, heads, order, Some(k), k, heads[k], order[k][1..]);
    assert heads[k := heads[k]] == heads;
  }

  /** A new element `p` was put at the back of the list of its key `k`. */
  lemma {:induction false} IndexedAdd<K>(a: Links, b: Links, keys: map<PoolPtr, K>, p: PoolPtr, k: K,
                                         first: Option<PoolPtr>,
                                         heads: map<K, Option<PoolPtr>>, order: map<K, seq<PoolPtr>>)
    requires Indexed(a, keys, heads, order, None) && p !in a && k in order && b.Keys == a.Keys + {p}
    requires IsList(b, first, order[k] + [p])
    requires forall q :: q in a && q !in order[k] ==> b[q] == a[q]
    ensures Indexed(b, keys[p := k], heads[k := first], order[k := order[k] + [p]], None)
  {
    SortedAdd(keys, p, k, order);
    forall j, q | j in order && j != k && q in order[j] ensures q in b && b[q] == a[q] {
      assert keys[q] == j;
      assert q !in order[k];
    }
    LinkedUpdate(a, b, heads, order, None, k, first, order[k] + [p]);
  }

  /** A new key has an empty list. */
  lemma {:induction false} IndexedNewKey<K>(links: Links, keys: map<PoolPtr, K>, heads: map<K, Option<PoolPtr>>,
                                            order: map<K, seq<PoolPtr>>, k: K)
    requires Indexed(links, keys, heads, order, None) && k !in order
    ensures Indexed(links, keys, heads[k := None], order[k := []], None)
  {
  }

  /** A key whose list has been destroyed may go. */
  lemma {:induction false} IndexedDropKey<K>(links: Links, keys: map<PoolPtr, K>, heads: map<K, Option<PoolPtr>>,
                                             order: map<K, seq<PoolPtr>>, k: K)
    requires Indexed(links, keys, heads, order, Some(k)) && k in order && order[k] == []
    ensures Indexed(links, keys, heads - {k}, order - {k}, None)
  {
  }
}
