/** The integrity test of a rope (`validate`), and what it leaves out. */
module RopeValidate {
  import opened RopeTree
  import opened RopeNodes
  import opened RopeInsert
  import R = Rope

  function MinCount(internal: bool, isRoot: bool): nat {
    if !isRoot then ORDER else if internal then 2 else 0
  }

  /** What `validate` accepts: least child counts, exact offsets, and children that are
      all leaves or all inner nodes. */
  ghost predicate Loose<T>(t: Tree<T>, isRoot: bool)
    decreases t
  {
    && Count(t) >= MinCount(t.Inner?, isRoot)
    && (t.Inner? ==>
          && ((forall i :: 0 <= i < |t.children| ==> t.children[i].Leaf?)
              || (forall i :: 0 <= i < |t.children| ==> t.children[i].Inner?))
          && OffsetsOk(t.children, t.offsets)
          && forall i :: 0 <= i < |t.children| ==> Loose(t.children[i], false))
  }

  /** No node has more children than its arrays can hold. */
  ghost predicate Bounded<T>(t: Tree<T>)
    decreases t
  {
    Count(t) <= 2 * ORDER && (t.Inner? ==> forall i :: 0 <= i < |t.children| ==> Bounded(t.children[i]))
  }

  /** All leaves are `h` levels down. */
  ghost predicate Uniform<T>(t: Tree<T>, h: nat)
    decreases t
  {
    && (h == 0 <==> t.Leaf?)
    && (t.Inner? ==> forall i :: 0 <= i < |t.children| ==> Uniform(t.children[i], h - 1))
  }

  /** The children of a node that are in order. */
  ghost predicate AllFine<T>(ts: seq<Tree<T>>, h: nat) {
    forall i :: 0 <= i < |ts| ==> Loose(ts[i], false) && Bounded(ts[i]) && Uniform(ts[i], h)
  }

  lemma {:induction false} InnerIs<T>(t: Tree<T>, h: nat, isRoot: bool)
    requires t.Inner? && h > 0
    ensures Loose(t, isRoot) && Bounded(t) && Uniform(t, h) <==>
              MinCount(true, isRoot) <= |t.children| <= 2 * ORDER && OffsetsOk(t.children, t.offsets)
                  && AllFine(t.children, h - 1)
  {
    if AllFine(t.children, h - 1) {
      SameKind(t.children, h - 1);
    }
  }

  lemma {:induction false} ForestIs<T>(ts: seq<Tree<T>>, h: nat)
    ensures ShapeAll(ts, h) <==> AllFine(ts, h)
    decreases ts
  {
    forall i | 0 <= i < |ts|
      ensures Shape(ts[i], h, ORDER) <==> Loose(ts[i], false) && Bounded(ts[i]) && Uniform(ts[i], h)
    {
      ShapeIs(ts[i], h);
    }
  }

  lemma {:induction false} ShapeIs<T>(t: Tree<T>, h: nat)
    ensures Shape(t, h, ORDER) <==> Loose(t, false) && Bounded(t) && Uniform(t, h)
    decreases t
  {
    if t.Inner? && h > 0 {
      ForestIs(t.children, h - 1);
      InnerIs(t, h, false);
    }
  }

  lemma {:induction false} SameKind<T>(ts: seq<Tree<T>>, h: nat)
    requires forall i :: 0 <= i < |ts| ==> Uniform(ts[i], h)
    ensures (forall i :: 0 <= i < |ts| ==> ts[i].Leaf?) || (forall i :: 0 <= i < |ts| ==> ts[i].Inner?)
  {
    assert forall i :: 0 <= i < |ts| ==> (h == 0 <==> ts[i].Leaf?);
  }

  /** A rope is in order if and only if `validate` accepts it and all its leaves are at
      the same depth. */
  lemma {:induction false} WellFormedIs<T>(t: Tree<T>, h: nat)
    ensures RootShape(t, h) <==> Loose(t, true) && Bounded(t) && Uniform(t, h)
  {
    if t.Inner? && h > 0 {
      ForestIs(t.children, h - 1);
      InnerIs(t, h, true);
    }
  }

  /** Checks a node; gives its length. */
  method ValidateSub<T>(node: NodeRef<T>, isRoot: bool) returns (ok: bool, len: int)
    requires Valid(node)
    ensures ok <==> Loose(TreeOf(node), isRoot)
    ensures ok ==> len == Size(TreeOf(node))
    decreases Repr(node), 0
  {
    match node {
      case LeafRef(leaf) =>
        len := TotalLen(leaf.elements);
        ok := |leaf.elements| >= MinCount(false, isRoot);
      case Internal(inode) =>
        assert Owns(inode.children, inode.trees, inode.below);
        ok := |inode.children| >= MinCount(true, isRoot) && |inode.offsets| == |inode.children| - 1
              && ((forall i :: 0 <= i < |inode.children| ==> inode.children[i].LeafRef?)
                  || (forall i :: 0 <= i < |inode.children| ==> inode.children[i].Internal?));
        KindsAgree(inode.children, inode.trees, inode.below);
        if !ok {
          return false, 0;
        }
        ok, len := ValidateChildren(inode);
        SizeOfInner(TreeOf(node));
    }
  }

  lemma {:induction false} KindsAgree<T>(cs: seq<NodeRef<T>>, ts: seq<Tree<T>>, r: set<object>)
    requires Owns(cs, ts, r)
    ensures (forall i :: 0 <= i < |cs| ==> cs[i].LeafRef?) <==> (forall i :: 0 <= i < |ts| ==> ts[i].Leaf?)
    ensures (forall i :: 0 <= i < |cs| ==> cs[i].Internal?) <==> (forall i :: 0 <= i < |ts| ==> ts[i].Inner?)
  {
    forall i | 0 <= i < |cs| ensures cs[i].LeafRef? == ts[i].Leaf? {
      assert TreeOf(cs[i]) == ts[i];
    }
  }

  /** Checks the children of a node and where they start. */
  method ValidateChildren<T>(inode: INode<T>) returns (ok: bool, offset: int)
    requires Valid(Internal(inode)) && |inode.children| >= 1 && |inode.offsets| == |inode.children| - 1
    ensures ok <==>
              && OffsetsOk(inode.trees, inode.offsets)
              && forall i :: 0 <= i < |inode.trees| ==> Loose(inode.trees[i], false)
    ensures ok ==> |inode.trees| == |inode.children| && offset == Before(inode.trees, |inode.trees|)
    decreases inode.below, 1
  {
    hide Loose;
    var n := |inode.offsets|;
    offset := 0;
    ChildSmaller(inode, 0);
    for i := 0 to n
      invariant Valid(Internal(inode)) && |inode.trees| == n + 1 && offset == Before(inode.trees, i)
      invariant forall j :: 0 <= j < i ==> Loose(inode.trees[j], false)
      invariant forall j :: 0 <= j < i ==> inode.offsets[j] == Before(inode.trees, j + 1)
    {
      ChildSmaller(inode, i);
      var len;
      ok, len := ValidateSub(inode.children[i], false);
      if !ok {
        return false, 0;
      }
      offset := offset + len;
      if offset != inode.offsets[i] {
        return false, 0;
      }
    }
    ChildSmaller(inode, n);
    var len;
    ok, len := ValidateSub(inode.children[n], false);
    offset := offset + len;
  }

  lemma {:induction false} ChildSmaller<T>(inode: INode<T>, i: nat)
    requires Valid(Internal(inode)) && i < |inode.children|
    ensures |inode.trees| == |inode.children| && Valid(inode.children[i]) && TreeOf(inode.children[i]) == inode.trees[i]
    ensures Repr(inode.children[i]) <= inode.below
  {
    assert Owns(inode.children, inode.trees, inode.below);
  }

  /** Checks a whole rope. */
  method Validate<T>(rope: R.Rope<T>) returns (ok: bool)
    requires RopeNodes.Valid(rope.root)
    ensures ok <==> Loose(TreeOf(rope.root), true) && rope.len == Size(TreeOf(rope.root))
  {
    var len;
    ok, len := ValidateSub(rope.root, true);
    ok := ok && len == rope.len;
  }

  /** Every rope that the operations leave behind passes `validate`. */
  method ValidateAccepts<T>(rope: R.Rope<T>) returns (ok: bool)
    requires rope.Valid()
    ensures ok
  {
    WellFormedIs(TreeOf(rope.root), rope.height);
    ok := Validate(rope);
  }

  // ----- a tree that should not pass ----------------------------------

  /** A tree of height `h` of elements without length. */
  ghost function Full(h: nat): Tree<()> {
    if h == 0 then Leaf(seq(ORDER, _ => Elem((), 0)))
    else Inner(seq(ORDER, _ => Full(h - 1)), seq(ORDER - 1, _ => 0))
  }

  ghost predicate Weightless(t: Tree<()>) {
    forall e :: e in Flat(t) ==> e.len == 0
  }

  lemma {:induction false} WeightlessSum(s: seq<Elem<()>>)
    requires forall e :: e in s ==> e.len == 0
    ensures Sum(s) == 0
  {
    if s != [] {
      WeightlessSum(s[1..]);
    }
  }

  lemma {:induction false} WeightlessForest(ts: seq<Tree<()>>)
    requires forall i :: 0 <= i < |ts| ==> Weightless(ts[i])
    ensures forall e :: e in FlatAll(ts) ==> e.len == 0
  {
    if ts != [] {
      WeightlessForest(ts[1..]);
    }
  }

  lemma {:induction false} WeightlessBefore(ts: seq<Tree<()>>, k: nat)
    requires k <= |ts| && forall i :: 0 <= i < |ts| ==> Weightless(ts[i])
    ensures Before(ts, k) == 0
  {
    if k > 0 {
      WeightlessBefore(ts, k - 1);
      WeightlessSum(Flat(ts[k - 1]));
    }
  }

  lemma {:induction false} FullShape(h: nat)
    ensures Shape(Full(h), h, ORDER) && Weightless(Full(h))
  {
    if h > 0 {
      var t := Full(h);
      FullShape(h - 1);
      WeightlessForest(t.children);
      forall i | 0 <= i < |t.offsets| ensures t.offsets[i] == Before(t.children, i + 1) {
        WeightlessBefore(t.children, i + 1);
      }
    }
  }

  lemma {:induction false} Uneven<T>(a: Tree<T>, i: nat, b: Tree<T>, j: nat, h: nat)
    requires a.Inner? && Loose(a, false) && Bounded(a) && Uniform(a, i)
    requires b.Inner? && Loose(b, false) && Bounded(b) && Uniform(b, j) && i != j
    ensures Loose(Pair(a, b), true) && Bounded(Pair(a, b)) && !RootShape(Pair(a, b), h)
  {
    hide Flat, FlatAll, Sum, Shape, ShapeAll;
    UniformOnly(a, i);
    UniformOnly(b, j);
    WellFormedIs(Pair(a, b), h);
    var t := Pair(a, b);
    assert t.children[0] == a && t.children[1] == b;
    assert Before(t.children, 1) == Before(t.children, 0) + Size(a);
  }

  /** `validate` accepts a tree whose leaves are at different depths. */
  lemma {:induction false} UnevenAccepted(h: nat)
    ensures var t := Pair(Full(1), Full(2));
            Loose(t, true) && Bounded(t) && !RootShape(t, h)
  {
    FullShape(1);
    FullShape(2);
    ShapeIs(Full(1), 1);
    ShapeIs(Full(2), 2);
    hide Loose, Bounded, Uniform, RootShape, Shape, Pair;
    Uneven(Full(1), 1, Full(2), 2, h);
  }

  lemma {:induction false} UniformOnly<T>(t: Tree<T>, k: nat)
    requires Uniform(t, k) && Loose(t, false)
    ensures forall h: nat :: Uniform(t, h) ==> h == k
  {
    forall h: nat | Uniform(t, h) ensures h == k {
      UniformOnce(t, h, k);
    }
  }

  lemma {:induction false} UniformOnce<T>(t: Tree<T>, h: nat, k: nat)
    requires Uniform(t, h) && Uniform(t, k) && Loose(t, false)
    ensures h == k
    decreases t
  {
    if t.Inner? {
      UniformOnce(t.children[0], h - 1, k - 1);
    }
  }
}
