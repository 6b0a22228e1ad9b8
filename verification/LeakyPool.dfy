/** A pool of objects addressed by pointers that outlive the objects.  Entries are
    never given back to the allocator; vacant ones form a list for reuse. */
module LeakyPool {
  import opened Wrappers

  // A pointer is the address of an entry: entries are numbered in the order in
  // which they were obtained from the allocator.
  type PoolPtr = nat

  datatype EntryState<E> = Occupied(element: E) | Vacant(next: Option<PoolPtr>)

  /** `free` is the list of vacant entries that starts at `first`. */
  ghost predicate IsFreeList<E>(entries: seq<EntryState<E>>, first: Option<PoolPtr>, free: seq<PoolPtr>)
    decreases free
  {
    if free == [] then first == None else
      && first == Some(free[0])
      && free[0] < |entries|
      && entries[free[0]].Vacant?
      && free[0] !in free[1..]
      && IsFreeList(entries, entries[free[0]].next, free[1..])
  }

  /** Entries outside the list do not bear on it. */
  lemma {:induction false} FreeListFrame<E>(a: seq<EntryState<E>>, b: seq<EntryState<E>>, first: Option<PoolPtr>,
                                            free: seq<PoolPtr>)
    requires IsFreeList(a, first, free) && |a| <= |b|
    requires forall p: PoolPtr :: p in free && p < |a| ==> a[p] == b[p]
    ensures IsFreeList(b, first, free)
    decreases free
  {
    if free != [] {
      assert free[0] in free;
      FreeListFrame(a, b, a[free[0]].next, free[1..]);
    }
  }

  lemma {:induction false} FreeListBounds<E>(entries: seq<EntryState<E>>, first: Option<PoolPtr>, free: seq<PoolPtr>,
                                             p: PoolPtr)
    requires IsFreeList(entries, first, free) && p in free
    ensures p < |entries| && entries[p].Vacant?
    decreases free
  {
    if p != free[0] {
      FreeListBounds(entries, entries[free[0]].next, free[1..], p);
    }
  }

  class LeakyPool<E> {
    var entries: seq<EntryState<E>>
    var firstFree: Option<PoolPtr>
    ghost var free: seq<PoolPtr>
    ghost var contents: map<PoolPtr, E>

    ghost predicate Valid()
      reads this
    {
      && IsFreeList(entries, firstFree, free)
      && (forall p: PoolPtr :: p in contents <==> p < |entries| && entries[p].Occupied?)
      && (forall p: PoolPtr :: p in contents ==> contents[p] == entries[p].element)
      && (forall p: PoolPtr :: p < |entries| && entries[p].Vacant? ==> p in free)
    }

    constructor ()
      ensures Valid() && contents == map[]
    {
      entries, firstFree := [], None;
      free, contents := [], map[];
    }

    /** Stores `x` in the entry that became vacant last, or else in a new one. */
    method Allocate(x: E) returns (ptr: PoolPtr)
      requires Valid()
      modifies this
      ensures Valid() && ptr !in old(contents) && contents == old(contents)[ptr := x]
      ensures ptr == if old(free) != [] then old(free)[0] else |old(entries)|
      ensures |entries| == |old(entries)| + if old(free) != [] then 0 else 1
    {
      if firstFree.None? {
        entries := entries + [Vacant(None)];
        ptr := |entries| - 1;
        free := [ptr];
      } else {
        ptr := firstFree.value;
      }
      ghost var was := entries;
      firstFree := entries[ptr].next;
      entries := entries[ptr := Occupied(x)];
      free := free[1..];
      contents := contents[ptr := x];
      FreeListFrame(was, entries, firstFree, free);
    }

    /** Takes the object at `ptr` away, if there is one. */
    method Deallocate(ptr: PoolPtr) returns (r: Option<E>)
      requires Valid() && ptr < |entries|
      modifies this
      ensures Valid()
      ensures r == if ptr in old(contents) then Some(old(contents)[ptr]) else None
      ensures contents == old(contents) - {ptr}
      ensures |entries| == |old(entries)|
    {
      if entries[ptr].Vacant? {
        return None;
      }
      if ptr in free {
        FreeListBounds(entries, firstFree, free, ptr);
      }
      ghost var was := entries;
      r := Some(entries[ptr].element);
      entries := entries[ptr := Vacant(firstFree)];
      FreeListFrame(was, entries, firstFree, free);
      firstFree := Some(ptr);
      free := [ptr] + free;
      contents := contents - {ptr};
    }

    /** The object at `ptr`; a dangling pointer gives nothing. */
    method Get(ptr: PoolPtr) returns (r: Option<E>)
      requires Valid() && ptr < |entries|
      ensures r == if ptr in contents then Some(contents[ptr]) else None
    {
      r := if entries[ptr].Occupied? then Some(entries[ptr].element) else None;
    }

    /** The object at `ptr`, which must not dangle. */
    method Index(ptr: PoolPtr) returns (x: E)
      requires Valid() && ptr in contents
      ensures x == contents[ptr]
    {
      x := entries[ptr].element;
    }

    /** Replaces the object at `ptr`, which must not dangle. */
    method Store(ptr: PoolPtr, x: E)
      requires Valid() && ptr in contents
      modifies this
      ensures Valid() && contents == old(contents)[ptr := x]
      ensures |entries| == |old(entries)| && free == old(free)
    {
      if ptr in free {
        FreeListBounds(entries, firstFree, free, ptr);
      }
      ghost var was := entries;
      entries := entries[ptr := Occupied(x)];
      contents := contents[ptr := x];
      FreeListFrame(was, entries, firstFree, free);
    }
  }
}
