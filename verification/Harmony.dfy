/** Reference-counted values that are conceptually immutable, but are changed in place
    when they have a single owner. */
module Harmony {
  type Ptr = nat

  datatype RcBox<T> = RcBox(strong: nat, value: T)

  lemma {:induction false} SomeFree(used: set<Ptr>) returns (p: Ptr)
    ensures p !in used && forall q :: q in used ==> q < p
    decreases |used|
  {
    if used == {} {
      p := 0;
    } else {
      var q :| q in used;
      var r := SomeFree(used - {q});
      p := if r <= q then q + 1 else r;
      forall x | x in used ensures x < p {
        assert x == q || x in used - {q};
      }
    }
  }

  /** Where the values of a type live.  An address may be used again once the value
      there has lost its last owner. */
  class RcHeap<T> {
    var boxes: map<Ptr, RcBox<T>>
    // Every reference that is held, as often as it is held.
    ghost var owners: multiset<Ptr>

    ghost predicate Valid()
      reads this
    {
      && (forall p :: p in boxes <==> p in owners)
      && (forall p :: p in boxes ==> boxes[p].strong == owners[p])
    }

    /** What an owner of `p` sees. */
    ghost function At(p: Ptr): T
      requires p in boxes
      reads this
    {
      boxes[p].value
    }

    constructor ()
      ensures Valid() && boxes == map[] && owners == multiset{}
    {
      boxes, owners := map[], multiset{};
    }

    /** `Elem::new` */
    method New(x: T) returns (p: Ptr)
      requires Valid()
      modifies this
      ensures Valid() && p !in old(boxes) && boxes == old(boxes)[p := RcBox(1, x)]
              && owners == old(owners) + multiset{p}
    {
      ghost var free := SomeFree(boxes.Keys);
      assert free !in boxes;
      p :| p !in boxes;
      boxes, owners := boxes[p := RcBox(1, x)], owners + multiset{p};
    }

    /** `Elem::clone` */
    method Clone(p: Ptr)
      requires Valid() && p in owners
      modifies this
      ensures Valid() && owners == old(owners) + multiset{p}
      ensures boxes.Keys == old(boxes).Keys && SameValues(old(boxes), boxes)
    {
      boxes, owners := boxes[p := boxes[p].(strong := boxes[p].strong + 1)], owners + multiset{p};
    }

    /** An owner goes; with the last one goes the value. */
    method Drop(p: Ptr)
      requires Valid() && p in owners
      modifies this
      ensures Valid() && owners == old(owners) - multiset{p}
      ensures boxes.Keys == old(boxes).Keys - (if old(owners)[p] == 1 then {p} else {}) && SameValues(old(boxes), boxes)
    {
      var b := boxes[p];
      boxes := if b.strong == 1 then boxes - {p} else boxes[p := b.(strong := b.strong - 1)];
      owners := owners - multiset{p};
    }

    /** `Elem::make_mut`: gives a place of the value with no other owner, which is where
        it was already if there is none. */
    method MakeMut(p: Ptr) returns (r: Ptr)
      requires Valid() && p in owners
      modifies this
      ensures Valid() && owners == old(owners) - multiset{p} + multiset{r} && owners[r] == 1
      ensures if old(boxes)[p].strong == 1 then r == p && boxes == old(boxes) else r !in old(boxes)
      ensures boxes.Keys == old(boxes).Keys + {r} && SameValues(old(boxes), boxes) && At(r) == old(boxes)[p].value
    {
      var b := boxes[p];
      if b.strong == 1 {
        assert owners - multiset{p} + multiset{p} == owners;
        return p;
      }
      Drop(p);
      r := New(b.value);
    }

    /** Replaces a value that has no other owner. */
    method Put(r: Ptr, x: T)
      requires Valid() && owners[r] == 1
      modifies this
      ensures Valid() && owners == old(owners) && boxes == old(boxes)[r := RcBox(1, x)]
    {
      boxes := boxes[r := boxes[r].(value := x)];
    }

    /** `set_field!` of a field that differs: nobody else notices. */
    method Set(p: Ptr, x: T) returns (r: Ptr)
      requires Valid() && p in owners
      modifies this
      ensures Valid() && owners == old(owners) - multiset{p} + multiset{r}
      ensures if old(boxes)[p].strong == 1 then r == p else r !in old(boxes)
      ensures boxes.Keys == old(boxes).Keys + {r} && At(r) == x
      ensures forall q :: q in old(boxes) && q != r ==> At(q) == old(boxes)[q].value
      ensures forall q :: q in old(owners) - multiset{p} ==> q != r
    {
      r := MakeMut(p);
      Put(r, x);
    }
  }

  /** Values that have stayed have not changed. */
  ghost predicate SameValues<T>(a: map<Ptr, RcBox<T>>, b: map<Ptr, RcBox<T>>) {
    forall q :: q in a && q in b ==> b[q].value == a[q].value
  }

  lemma {:induction false} SameValuesChain<T>(a: map<Ptr, RcBox<T>>, b: map<Ptr, RcBox<T>>, c: map<Ptr, RcBox<T>>)
    requires SameValues(a, b) && SameValues(b, c) && (a.Keys <= b.Keys || c.Keys <= b.Keys)
    ensures SameValues(a, c)
  {
  }

  lemma {:induction false} SameAt<T>(a: map<Ptr, RcBox<T>>, b: map<Ptr, RcBox<T>>, q: Ptr)
    requires SameValues(a, b) && q in a && q in b
    ensures b[q].value == a[q].value
  {
  }

  lemma {:induction false} SameSelf<T>(a: map<Ptr, RcBox<T>>)
    ensures SameValues(a, a)
  {
  }
}
