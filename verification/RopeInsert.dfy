/** Insertion into the nodes of a rope (`insert_sub`). */
module RopeInsert {
  import opened RopeTree
  import opened RopeNodes

  /** Adds up the lengths of `elements`. */
  method TotalLen<T>(elements: seq<Elem<T>>) returns (len: int)
    ensures len == Sum(elements)
  {
    len := 0;
    for i := 0 to |elements|
      invariant len == Sum(elements[..i])
    {
      SumApp(elements[..i], [elements[i]]);
      assert elements[..i + 1] == elements[..i] + [elements[i]];
      assert Sum([elements[i]]) == elements[i].len;
      len := len + elements[i].len;
    }
    assert elements[..|elements|] == elements;
  }

  /** Moves the start of every child after child `i` by `delta`. */
  method ShiftOffsets<T>(inode: INode<T>, i: nat, delta: int)
    requires i <= |inode.offsets|
    modifies inode`offsets
    ensures inode.offsets == Bump(old(inode.offsets), i, delta)
  {
    ghost var was := inode.offsets;
    for k := i to |inode.offsets|
      invariant |inode.offsets| == |was|
      invariant forall j :: 0 <= j < |was| ==> inode.offsets[j] == if i <= j < k then was[j] + delta else was[j]
    {
      inode.offsets := inode.offsets[k := inode.offsets[k] + delta];
    }
  }

  /** What inserting `x` at place `at` of the tree `t` comes to: the tree `node`
      alone, or that tree followed by a new sibling. */
  ghost predicate Inserted<T>(t: Tree<T>, at: seq<nat>, x: Elem<T>, node: Tree<T>, sibling: seq<Tree<T>>, h: nat,
                              lo: nat)
    requires CursorOk(t, at)
  {
    && Pos(t, at) <= |Flat(t)|
    && Flat(node) + FlatAll(sibling) == InsertAt(Flat(t), Pos(t, at), x)
    && Shape(node, h, if sibling == [] then lo else ORDER)
    && ShapeAll(sibling, h)
  }

  datatype Split<T> = Whole | Halves(sibling: NodeRef<T>, len: int)

  ghost function Sibling<T>(r: Split<T>): seq<Tree<T>>
    reads if r.Halves? then {Top(r.sibling)} else {}
  {
    if r.Halves? then [TreeOf(r.sibling)] else []
  }

  lemma {:induction false} CutBefore<A>(s: seq<A>, m: nat, i: nat, x: A)
    requires m <= i <= |s|
    ensures InsertAt(s, i, x)[..m] == s[..m] && InsertAt(s, i, x)[m..] == InsertAt(s[m..], i - m, x)
  {
    assert s[m..][..i - m] == s[..i][m..] && s[m..][i - m..] == s[i..];
  }

  lemma {:induction false} CutAfter<A>(s: seq<A>, m: nat, i: nat, x: A)
    requires i <= m <= |s|
    ensures InsertAt(s, i, x)[..m + 1] == InsertAt(s[..m], i, x) && InsertAt(s, i, x)[m + 1..] == s[m..]
  {
    assert s[..m][..i] == s[..i] && s[..m][i..] == s[i..][..m - i];
  }

  /** Inserting into a sequence and cutting it in two is inserting into one of the
      two parts. */
  lemma {:induction false} CutAfterInsert<A>(s: seq<A>, m: nat, i: nat, x: A)
    requires m <= |s| && i <= |s|
    ensures m <= i ==> InsertAt(s, i, x)[..m] == s[..m] && InsertAt(s, i, x)[m..] == InsertAt(s[m..], i - m, x)
    ensures i <= m ==> InsertAt(s, i, x)[..m + 1] == InsertAt(s[..m], i, x) && InsertAt(s, i, x)[m + 1..] == s[m..]
  {
    if m <= i {
      CutBefore(s, m, i, x);
    }
    if i <= m {
      CutAfter(s, m, i, x);
    }
  }

  lemma {:induction false} RebasedInsert(s: seq<int>, j: nat, v: int, base: int)
    requires j <= |s|
    ensures Rebased(InsertAt(s, j, v), base) == InsertAt(Rebased(s, base), j, v - base)
  {
  }

  method InsertLeaf<T>(i: nat, leaf: LeafNode<T>, x: Elem<T>, ghost lo: nat) returns (r: Split<T>)
    requires lo <= |leaf.elements| <= 2 * ORDER && lo <= ORDER && i <= |leaf.elements|
    modifies leaf
    ensures r.Halves? ==> fresh(Top(r.sibling)) && r.sibling.LeafRef? && r.len == Sum(leaf.elements)
    ensures Inserted(Leaf(old(leaf.elements)), [i], x, Leaf(leaf.elements), Sibling(r), 0, lo)
  {
    ghost var was := leaf.elements;
    if |leaf.elements| == 2 * ORDER {
      var mid := ORDER;
      var second := leaf.elements[mid..];
      leaf.elements := leaf.elements[..mid];
      var newLeaf: LeafNode<T>;
      if i >= mid {
        newLeaf := new LeafNode(second[..i - mid] + [x] + second[i - mid..]);
      } else {
        newLeaf := new LeafNode(second);
        leaf.elements := leaf.elements[..i] + [x] + leaf.elements[i..];
      }
      var len := TotalLen(leaf.elements);
      r := Halves(LeafRef(newLeaf), len);
      FlatOne(Leaf(newLeaf.elements));
      ghost var m := |leaf.elements|;
      CutAfterInsert(was, mid, i, x);
      assert leaf.elements == InsertAt(was, i, x)[..m] && newLeaf.elements == InsertAt(was, i, x)[m..];
    } else {
      leaf.elements := leaf.elements[..i] + [x] + leaf.elements[i..];
      r := Whole;
    }
  }

  /** Splits a full inner node whose child `i` has just got the sibling `s`. */
  method SplitInner<T>(inode: INode<T>, i: nat, s: NodeRef<T>, len: int) returns (r: INode<T>, firstLen: int)
    requires i < |inode.children| == 2 * ORDER && |inode.offsets| + 1 == 2 * ORDER
    modifies inode`children, inode`offsets
    ensures fresh(r)
    ensures var m := if i >= ORDER then ORDER else ORDER + 1;
            var cs, os := InsertAt(old(inode.children), i + 1, s), WithBoundary(old(inode.offsets), i, len);
            && inode.children == cs[..m] && r.children == cs[m..]
            && inode.offsets == os[..m - 1] && r.offsets == Rebased(os[m..], os[m - 1])
            && firstLen == os[m - 1]
  {
    var mid := ORDER;
    ghost var children, offsets := inode.children, inode.offsets;
    CutAfterInsert(children, mid, i + 1, s);

    var secondChildren := inode.children[mid..];
    inode.children := inode.children[..mid];
    firstLen := inode.offsets[mid - 1];
    var rest := inode.offsets[mid..];
    var secondOffsets := seq(mid - 1, k requires 0 <= k < mid - 1 => rest[k] - firstLen);
    inode.offsets := inode.offsets[..mid - 1];
    assert secondOffsets == Rebased(offsets[mid..], firstLen);

    hide Bump, Rebased, WithBoundary;
    if i >= mid {
      var j := i - mid;
      var newOffsets := secondOffsets[..j];
      newOffsets := newOffsets + [if newOffsets == [] then len else newOffsets[|newOffsets| - 1] + len];
      newOffsets := newOffsets + secondOffsets[j..];
      r := new INode(secondChildren[..j + 1] + [s] + secondChildren[j + 1..], newOffsets, [], {});
      BoundaryInSecond(offsets, i, len, secondOffsets);
    } else {
      r := new INode(secondChildren, secondOffsets, [], {});
      inode.children := inode.children[..i + 1] + [s] + inode.children[i + 1..];
      inode.offsets := inode.offsets[..i] + [if i == 0 then len else inode.offsets[i - 1] + len] + inode.offsets[i..];
      BoundaryInFirst(offsets, i, len);
    }
  }

  /** A boundary that is added after the middle of full offsets. */
  lemma {:induction false} BoundaryInSecond(offsets: seq<int>, i: nat, len: int, second: seq<int>)
    requires |offsets| == 2 * ORDER - 1 && ORDER <= i <= |offsets|
             && second == Rebased(offsets[ORDER..], offsets[ORDER - 1])
    ensures var os, j := WithBoundary(offsets, i, len), i - ORDER;
            && |os| == 2 * ORDER && |second| == ORDER - 1
            && os[..ORDER - 1] == offsets[..ORDER - 1] && os[ORDER - 1] == offsets[ORDER - 1]
            && Rebased(os[ORDER..], os[ORDER - 1]) == second[..j] + [if j == 0 then len else second[j - 1] + len]
                + second[j..]
  {
    var v := if i == 0 then len else offsets[i - 1] + len;
    CutAfterInsert(offsets, ORDER, i, v);
    CutAfterInsert(offsets, ORDER - 1, i, v);
    RebasedInsert(offsets[ORDER..], i - ORDER, v, offsets[ORDER - 1]);
  }

  /** A boundary that is added before the middle. */
  lemma {:induction false} BoundaryInFirst(offsets: seq<int>, i: nat, len: int)
    requires |offsets| == 2 * ORDER - 1 && i < ORDER
    ensures var os, first := WithBoundary(offsets, i, len), offsets[..ORDER - 1];
            && |os| == 2 * ORDER
            && os[..ORDER] == first[..i] + [if i == 0 then len else first[i - 1] + len] + first[i..]
            && os[ORDER] == offsets[ORDER - 1] && os[ORDER + 1..] == offsets[ORDER..]
  {
    var v := if i == 0 then len else offsets[i - 1] + len;
    CutAfterInsert(offsets, ORDER, i, v);
    CutAfterInsert(offsets, ORDER - 1, i, v);
  }

  /** Child `i` of an inner node that stood for `ts` has become the tree `w`. */
  lemma {:induction false} InsertedBelow<T>(ts: seq<Tree<T>>, offsets: seq<int>, i: nat, p: nat, x: Elem<T>, w: Tree<T>)
    requires OffsetsOk(ts, offsets) && i < |ts| && p <= |Flat(ts[i])|
    requires Flat(w) == InsertAt(Flat(ts[i]), p, x)
    ensures |FlatAll(ts[..i])| + p <= |FlatAll(ts)|
    ensures FlatAll(ts[i := w]) == InsertAt(FlatAll(ts), |FlatAll(ts[..i])| + p, x)
    ensures OffsetsOk(ts[i := w], Bump(offsets, i, x.len))
  {
    SumInsert(Flat(ts[i]), p, x);
    OffsetsReplace(ts, offsets, i, w, x.len);
    FlatReplace(ts, i, w);
    FlatSplit(ts, i);
    InsertBelow(FlatAll(ts[..i]), Flat(ts[i]), FlatAll(ts[i + 1..]), p, x);
  }

  /** Child `i` of an inner node that stood for `ts` has become the trees `c` and `s`. */
  lemma {:induction false} SplitBelow<T>(ts: seq<Tree<T>>, offsets: seq<int>, i: nat, p: nat, x: Elem<T>, c: Tree<T>,
                                         s: Tree<T>)
    requires OffsetsOk(ts, offsets) && i < |ts| && p <= |Flat(ts[i])|
    requires Flat(c) + Flat(s) == InsertAt(Flat(ts[i]), p, x)
    ensures |FlatAll(ts[..i])| + p <= |FlatAll(ts)|
    ensures FlatAll(Halved(ts, i, c, s)) == InsertAt(FlatAll(ts), |FlatAll(ts[..i])| + p, x)
    ensures OffsetsOk(Halved(ts, i, c, s), WithBoundary(Bump(offsets, i, x.len), i, Size(c)))
  {
    var w := Pair(c, s);
    FlatPair(c, s);
    InsertedBelow(ts, offsets, i, p, x, w);
    var ws := ts[i := w];
    OffsetsHalved(ws, Bump(offsets, i, x.len), i, c, s);
    FlatHalved(ws, i, c, s);
    assert Halved(ws, i, c, s) == Halved(ts, i, c, s);
  }

  /** The two halves of an inner node that had become too full. */
  lemma {:induction false} CutForest<T>(us: seq<Tree<T>>, os: seq<int>, m: nat, h: nat)
    requires OffsetsOk(us, os) && ShapeAll(us, h) && |us| == 2 * ORDER + 1 && ORDER <= m <= ORDER + 1
    ensures var a, b := Inner(us[..m], os[..m - 1]), Inner(us[m..], Rebased(os[m..], os[m - 1]));
            && Shape(a, h + 1, ORDER)
            && ShapeAll([b], h + 1)
            && Flat(a) + FlatAll([b]) == FlatAll(us)
            && os[m - 1] == Size(a)
  {
    var a, b := Inner(us[..m], os[..m - 1]), Inner(us[m..], Rebased(os[m..], os[m - 1]));
    OffsetsCut(us, os, m);
    assert us == us[..m] + us[m..];
    FlatAllApp(us[..m], us[m..]);
    FlatOne(b);
    SizeOfInner(a);
  }

  /** Splits a full inner node whose child `i` has just got the sibling `s`,
      handing each half its children; `us` are the children's trees then. */
  method SplitOwned<T>(inode: INode<T>, i: nat, s: NodeRef<T>, len: int,
                       ghost us: seq<Tree<T>>, ghost below: set<object>, ghost h: nat)
    returns (r: INode<T>, firstLen: int)
    requires i < |inode.children| == |inode.offsets| + 1 == 2 * ORDER && h > 0
    requires inode !in below && Owns(InsertAt(inode.children, i + 1, s), us, below)
    requires OffsetsOk(us, WithBoundary(inode.offsets, i, len)) && ShapeAll(us, h - 1)
    modifies inode
    ensures Valid(Internal(inode)) && inode.below <= below
    ensures Valid(Internal(r)) && fresh(r) && r.below <= below && Repr(Internal(r)) !! Repr(Internal(inode))
    ensures var a, b := TreeOf(Internal(inode)), TreeOf(Internal(r));
            && Shape(a, h, ORDER) && ShapeAll([b], h)
            && Flat(a) + FlatAll([b]) == FlatAll(us)
            && firstLen == Size(a)
  {
    hide Flat, FlatAll, Sum, Size, Shape, ShapeAll, OffsetsOk;
    ghost var cs, os := InsertAt(inode.children, i + 1, s), WithBoundary(inode.offsets, i, len);
    ghost var m: nat := if i >= ORDER then ORDER else ORDER + 1;
    CutForest(us, os, m, h - 1);
    ghost var first, second := OwnsCut(cs, us, below, m);
    r, firstLen := SplitInner(inode, i, s, len);
    Record(inode, us[..m], first);
    Record(r, us[m..], second);
  }

  /** Gives child `i` of an inner node that is not full the right sibling `s`. */
  method AdoptWhole<T>(inode: INode<T>, i: nat, s: NodeRef<T>, len: int, ghost us: seq<Tree<T>>,
                       ghost below: set<object>, ghost h: nat)
    requires i < |inode.children| == |inode.offsets| + 1 < 2 * ORDER && h > 0
    requires inode !in below && Owns(InsertAt(inode.children, i + 1, s), us, below)
    requires OffsetsOk(us, WithBoundary(inode.offsets, i, len)) && ShapeAll(us, h - 1)
    modifies inode
    ensures Valid(Internal(inode)) && inode.below == below && inode.trees == us
    ensures Shape(TreeOf(Internal(inode)), h, old(|inode.children|))
  {
    hide Flat, FlatAll, Sum, Size, OffsetsOk, ShapeAll;
    inode.children := inode.children[..i + 1] + [s] + inode.children[i + 1..];
    inode.offsets := inode.offsets[..i] + [if i == 0 then len else inode.offsets[i - 1] + len] + inode.offsets[i..];
    inode.trees, inode.below := us, below;
  }

  /** Gives child `i` of an inner node the right sibling `s`, splitting the node
      if it is full; `us` are the children's trees then. */
  method AdoptSibling<T>(inode: INode<T>, i: nat, s: NodeRef<T>, len: int,
                         ghost us: seq<Tree<T>>, ghost below: set<object>, ghost h: nat, ghost lo: nat)
    returns (r: Split<T>)
    requires i < |inode.children| == |inode.offsets| + 1 && h > 0
    requires lo <= |inode.children| <= 2 * ORDER && lo <= ORDER
    requires inode !in below && Owns(InsertAt(inode.children, i + 1, s), us, below)
    requires OffsetsOk(us, WithBoundary(inode.offsets, i, len)) && ShapeAll(us, h - 1)
    modifies inode
    ensures Valid(Internal(inode)) && inode.below <= below
    ensures r.Halves? ==>
              && Valid(r.sibling)
              && fresh(Repr(r.sibling) - below)
              && Repr(r.sibling) !! Repr(Internal(inode))
              && r.len == Size(TreeOf(Internal(inode)))
    ensures Flat(TreeOf(Internal(inode))) + FlatAll(Sibling(r)) == FlatAll(us)
    ensures Shape(TreeOf(Internal(inode)), h, if r.Whole? then lo else ORDER)
    ensures ShapeAll(Sibling(r), h)
  {
    if |inode.children| == 2 * ORDER {
      var newInode, firstLen := SplitOwned(inode, i, s, len, us, below, h);
      r := Halves(Internal(newInode), firstLen);
    } else {
      AdoptWhole(inode, i, s, len, us, below, h);
      r := Whole;
      assert FlatAll(us) + FlatAll([]) == FlatAll(us);
    }
  }

  lemma {:induction false} ShapeHalved<T>(ts: seq<Tree<T>>, i: nat, c: Tree<T>, s: Tree<T>, h: nat)
    requires ShapeAll(ts, h) && i < |ts| && Shape(c, h, ORDER) && Shape(s, h, ORDER)
    ensures ShapeAll(Halved(ts, i, c, s), h)
  {
  }

  lemma {:induction false} ShapeReplaced<T>(ts: seq<Tree<T>>, i: nat, c: Tree<T>, h: nat)
    requires ShapeAll(ts, h) && i < |ts| && Shape(c, h, ORDER)
    ensures ShapeAll(ts[i := c], h)
  {
  }

  /** What becomes of the inner node `t` when its child `at[0]` took in `x`. */
  lemma {:induction false} InsertedWhole<T>(t: Tree<T>, at: seq<nat>, x: Elem<T>, c: Tree<T>, h: nat, lo: nat)
    requires t.Inner? && Shape(t, h, lo) && CursorOk(t, at)
    requires Inserted(t.children[at[0]], at[1..], x, c, [], h - 1, ORDER)
    ensures Inserted(t, at, x, Inner(t.children[at[0] := c], Bump(t.offsets, at[0], x.len)), [], h, lo)
  {
    var ts, i := t.children, at[0];
    assert Flat(c) + FlatAll([]) == Flat(c);
    InsertedBelow(ts, t.offsets, i, Pos(ts[i], at[1..]), x, c);
    ShapeReplaced(ts, i, c, h - 1);
    var d := Inner(ts[i := c], Bump(t.offsets, i, x.len));
    assert Flat(d) + FlatAll([]) == Flat(d);
  }

  /** What becomes of the inner node `t` when its child `at[0]` took in `x` and split. */
  lemma {:induction false} InsertedHalves<T>(t: Tree<T>, at: seq<nat>, x: Elem<T>, c: Tree<T>, s: Tree<T>, h: nat,
                                             lo: nat)
    requires t.Inner? && Shape(t, h, lo) && CursorOk(t, at)
    requires Inserted(t.children[at[0]], at[1..], x, c, [s], h - 1, ORDER)
    ensures Pos(t, at) <= |Flat(t)|
    ensures var us := Halved(t.children, at[0], c, s);
            && FlatAll(us) == InsertAt(Flat(t), Pos(t, at), x)
            && OffsetsOk(us, WithBoundary(Bump(t.offsets, at[0], x.len), at[0], Size(c)))
            && ShapeAll(us, h - 1)
  {
    var i := at[0];
    InsertedPair(t.children[i], at[1..], x, c, s, h - 1, ORDER);
    SplitBelow(t.children, t.offsets, i, Pos(t.children[i], at[1..]), x, c, s);
    ShapeHalved(t.children, i, c, s, h - 1);
  }

  lemma {:induction false} InsertedPair<T>(t: Tree<T>, at: seq<nat>, x: Elem<T>, c: Tree<T>, s: Tree<T>, h: nat,
                                           lo: nat)
    requires CursorOk(t, at) && Inserted(t, at, x, c, [s], h, lo)
    ensures Flat(c) + Flat(s) == InsertAt(Flat(t), Pos(t, at), x)
    ensures Shape(c, h, ORDER) && Shape(s, h, ORDER)
  {
    FlatOne(s);
    assert [s][0] == s;
  }

  ghost predicate InsertPre<T>(n: NodeRef<T>, t: Tree<T>, at: seq<nat>, h: nat, lo: nat)
    reads Repr(n), Top(n)
  {
    Valid(n) && TreeOf(n) == t && Shape(t, h, lo) && CursorOk(t, at) && lo <= ORDER
  }

  /** Inserts `x` at the place `at` leads to; `t` is what `node` stands for
      before.  A node that is too full is split: the result then holds its new
      right sibling and the node's new length. */
  method InsertSub<T>(at: seq<nat>, node: NodeRef<T>, x: Elem<T>, xLen: int, ghost t: Tree<T>, ghost h: nat,
                      ghost lo: nat)
    returns (r: Split<T>)
    requires InsertPre(node, t, at, h, lo) && xLen == x.len
    modifies Repr(node)
    ensures Valid(node) && fresh(Repr(node) - old(Repr(node)))
    ensures r.Halves? ==>
              && Valid(r.sibling)
              && fresh(Repr(r.sibling) - old(Repr(node)))
              && Repr(r.sibling) !! Repr(node)
              && r.len == Size(TreeOf(node))
    ensures Inserted(t, at, x, TreeOf(node), Sibling(r), h, lo)
    decreases |at|, 1
  {
    if |at| == 1 {
      r := InsertLeaf(at[0], node.leaf, x, lo);
      assert at == [at[0]];
    } else {
      r := InsertInner(at, node.inode, x, xLen, t, h, lo);
    }
  }

  lemma {:induction false} ChildPre<T>(t: Tree<T>, at: seq<nat>, h: nat, lo: nat)
    requires t.Inner? && Shape(t, h, lo) && CursorOk(t, at)
    ensures h > 0 && at[0] < |t.children| == |t.offsets| + 1
    ensures Shape(t.children[at[0]], h - 1, ORDER) && CursorOk(t.children[at[0]], at[1..])
  {
    assert ShapeAll(t.children, h - 1);
  }

  method InsertInner<T>(at: seq<nat>, inode: INode<T>, x: Elem<T>, xLen: int, ghost t: Tree<T>, ghost h: nat,
                        ghost lo: nat)
    returns (r: Split<T>)
    requires InsertPre(Internal(inode), t, at, h, lo) && xLen == x.len
    modifies Repr(Internal(inode))
    ensures Valid(Internal(inode)) && fresh(Repr(Internal(inode)) - old(Repr(Internal(inode))))
    ensures r.Halves? ==>
              && Valid(r.sibling)
              && fresh(Repr(r.sibling) - old(Repr(Internal(inode))))
              && Repr(r.sibling) !! Repr(Internal(inode))
              && r.len == Size(TreeOf(Internal(inode)))
    ensures Inserted(t, at, x, TreeOf(Internal(inode)), Sibling(r), h, lo)
    decreases |at|, 0
  {
    hide Flat, FlatAll, Sum, Inserted, Pos, OffsetsOk;
    var i := at[0];
    ChildPre(t, at, h, lo);
    ghost var l, q := OwnsAround(inode.children, t.children, inode.below, i);
    ghost var mine := Repr(inode.children[i]);
    assert l + q + mine <= inode.below;

    ShiftOffsets(inode, i, xLen);
    var split := InsertSub(at[1..], inode.children[i], x, xLen, t.children[i], h - 1, ORDER);
    r := TakeIn(inode, i, split, at, x, t, l, q, h, lo);
  }

  /** Finishes the insertion into an inner node whose child `i` has taken in `x`:
      `l` and `q` are the objects of the other children. */
  method TakeIn<T>(inode: INode<T>, i: nat, split: Split<T>, ghost at: seq<nat>, ghost x: Elem<T>, ghost t: Tree<T>,
                   ghost l: set<object>, ghost q: set<object>, ghost h: nat, ghost lo: nat)
    returns (r: Split<T>)
    requires t.Inner? && Shape(t, h, lo) && CursorOk(t, at) && lo <= ORDER && i == at[0]
    requires |inode.children| == |t.children| && inode.offsets == Bump(t.offsets, i, x.len)
    requires Owns(inode.children[..i], t.children[..i], l) && Owns(inode.children[i + 1..], t.children[i + 1..], q)
    requires var c := inode.children[i];
             && Valid(c) && inode !in l + q + Repr(c) && l !! q && l !! Repr(c) && q !! Repr(c)
             && Inserted(t.children[i], at[1..], x, TreeOf(c), Sibling(split), h - 1, ORDER)
             && (split.Halves? ==>
                   && Valid(split.sibling)
                   && Repr(split.sibling) !! Repr(c)
                   && Repr(split.sibling) !! l
                   && Repr(split.sibling) !! q
                   && inode !in Repr(split.sibling)
                   && split.len == Size(TreeOf(c)))
    modifies inode
    ensures Valid(Internal(inode))
    ensures inode.below <= Around(old(inode.children)[i], split, l, q)
    ensures r.Halves? ==>
              && Valid(r.sibling)
              && fresh(Repr(r.sibling) - Around(old(inode.children)[i], split, l, q))
              && Repr(r.sibling) !! Repr(Internal(inode))
              && r.len == Size(TreeOf(Internal(inode)))
    ensures Inserted(t, at, x, TreeOf(Internal(inode)), Sibling(r), h, lo)
  {
    ghost var ts, cs := t.children, inode.children;
    if split.Halves? {
      InsertedHalves(t, at, x, TreeOf(cs[i]), TreeOf(split.sibling), h, lo);
      OwnsHalved(cs, ts, i, split.sibling, l, q);
      r := AdoptSibling(inode, i, split.sibling, split.len, Halved(ts, i, TreeOf(cs[i]), TreeOf(split.sibling)),
                        l + (Repr(cs[i]) + Repr(split.sibling)) + q, h, lo);
    } else {
      InsertedWhole(t, at, x, TreeOf(cs[i]), h, lo);
      OwnsReplaced(cs, ts, i, l, q);
      inode.trees, inode.below := ts[i := TreeOf(cs[i])], l + Repr(cs[i]) + q;
      r := Whole;
    }
  }

  ghost function Around<T>(c: NodeRef<T>, split: Split<T>, l: set<object>, q: set<object>): set<object>
    reads Top(c), if split.Halves? then {Top(split.sibling)} else {}
  {
    l + Repr(c) + (if split.Halves? then Repr(split.sibling) else {}) + q
  }
}
