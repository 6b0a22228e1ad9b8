/** Removal from the nodes of a rope (`remove_sub`), with the rotations and merges
    that restore the least child count. */
module RopeRemove {
  import opened RopeTree
  import opened RopeNodes
  import opened RopeInsert

  // ----- two neighbours --------------------------------------------------------

  /** `a`, `b` hold what `c`, `d` held, with the boundary moved right by `len`. */
  ghost predicate Shifted<T>(c: Tree<T>, d: Tree<T>, a: Tree<T>, b: Tree<T>, len: int) {
    && Flat(a) + Flat(b) == Flat(c) + Flat(d)
    && Size(a) == Size(c) + len
    && Size(b) == Size(d) - len
  }

  lemma {:induction false} ShiftedSizes<T>(c: Tree<T>, d: Tree<T>, a: Tree<T>, b: Tree<T>, len: int)
    requires Flat(a) + Flat(b) == Flat(c) + Flat(d) && Size(a) == Size(c) + len
    ensures Shifted(c, d, a, b, len)
  {
    SumApp(Flat(a), Flat(b));
    SumApp(Flat(c), Flat(d));
  }

  lemma {:induction false} FlatMoves<T>(cs: seq<Tree<T>>, e: Tree<T>, ds: seq<Tree<T>>)
    ensures FlatAll(cs + [e]) + FlatAll(ds) == FlatAll(cs) + FlatAll([e] + ds)
    ensures Sum(FlatAll(cs + [e])) == Sum(FlatAll(cs)) + Size(e)
  {
    FlatAllApp(cs, [e]);
    FlatAllApp([e], ds);
    FlatOne(e);
    SumApp(FlatAll(cs), Flat(e));
  }

  lemma {:induction false} ShapeMoves<T>(cs: seq<Tree<T>>, e: Tree<T>, ds: seq<Tree<T>>, h: nat)
    ensures ShapeAll(cs, h) && ShapeAll([e] + ds, h) <==> ShapeAll(cs + [e], h) && ShapeAll(ds, h)
  {
    assert ([e] + ds)[0] == e && (cs + [e])[|cs|] == e;
    assert forall i :: 0 <= i < |ds| ==> ds[i] == ([e] + ds)[i + 1];
    assert forall i :: 0 <= i < |cs| ==> cs[i] == (cs + [e])[i];
  }

  /** The first child of `d` becomes the last child of `c`. */
  lemma {:induction false} FirstMovesLeft<T>(c: Tree<T>, d: Tree<T>, a: Tree<T>, b: Tree<T>, h: nat, lo: nat, hi: nat)
    requires c.Inner? && d.Inner? && Shape(c, h, lo) && Shape(d, h, hi) && Count(c) < 2 * ORDER && hi > 1
    requires a == Inner(c.children + [d.children[0]], c.offsets + [Size(c)])
    requires b == Inner(d.children[1..], Rebased(d.offsets[1..], d.offsets[0]))
    ensures Shape(a, h, lo + 1) && Shape(b, h, hi - 1) && Shifted(c, d, a, b, d.offsets[0])
  {
    var e := d.children[0];
    SizeOfInner(c);
    assert d.children == [e] + b.children && [e] == d.children[..1];
    assert OffsetsOk(a.children, a.offsets) by {
      OffsetsJoin(c.children, c.offsets, [e], [], Size(c));
      assert c.offsets + [Size(c)] + Bump([], 0, Size(c)) == a.offsets;
    }
    assert OffsetsOk(b.children, b.offsets) by {
      OffsetsCut(d.children, d.offsets, 1);
    }
    FlatMoves(c.children, e, b.children);
    ShapeMoves(c.children, e, b.children, h - 1);
    assert d.offsets[0] == Before(d.children, 1) == Size(e);
    ShiftedSizes(c, d, a, b, d.offsets[0]);
  }

  /** The last child of `c` becomes the first child of `d`. */
  lemma {:induction false} LastMovesRight<T>(c: Tree<T>, d: Tree<T>, a: Tree<T>, b: Tree<T>, len: int, h: nat, hi: nat,
                                             lo: nat)
    requires c.Inner? && d.Inner? && Shape(c, h, hi) && Shape(d, h, lo) && Count(d) < 2 * ORDER && hi > 1
    requires var n := |c.children|;
             && len == Size(c) - c.offsets[n - 2]
             && a == Inner(c.children[..n - 1], c.offsets[..n - 2])
             && b == Inner([c.children[n - 1]] + d.children, [len] + Bump(d.offsets, 0, len))
    ensures Shape(a, h, hi - 1) && Shape(b, h, lo + 1) && Shifted(c, d, a, b, -len)
  {
    var n := |c.children|;
    var e := c.children[n - 1];
    SizeOfInner(c);
    assert c.children == a.children + [e];
    assert OffsetsOk(a.children, a.offsets) by {
      OffsetsCut(c.children, c.offsets, n - 1);
    }
    assert Before([e], 1) == Size(e) == len;
    assert OffsetsOk(b.children, b.offsets) by {
      OffsetsJoin([e], [], d.children, d.offsets, len);
      assert [] + [len] + Bump(d.offsets, 0, len) == b.offsets;
    }
    FlatMoves(a.children, e, d.children);
    ShapeMoves(a.children, e, d.children, h - 1);
    ShiftedSizes(c, d, a, b, -len);
  }

  /** All children of `d` become children of `c`. */
  lemma {:induction false} AllMoveLeft<T>(c: Tree<T>, d: Tree<T>, a: Tree<T>, h: nat, lo: nat)
    requires c.Inner? && d.Inner? && Shape(c, h, lo) && Shape(d, h, lo) && Count(c) + Count(d) <= 2 * ORDER
    requires a == Inner(c.children + d.children, c.offsets + [Size(c)] + Bump(d.offsets, 0, Size(c)))
    ensures Shape(a, h, 2 * lo) && Flat(a) == Flat(c) + Flat(d)
  {
    SizeOfInner(c);
    OffsetsJoin(c.children, c.offsets, d.children, d.offsets, Size(c));
    FlatAllApp(c.children, d.children);
  }

  /** Moves the first child of `right` to the back of `left`; gives its length. */
  method RotateLeft<T>(left: NodeRef<T>, right: NodeRef<T>, leftLen: int, ghost c: Tree<T>, ghost d: Tree<T>,
                       ghost h: nat)
    returns (len: int)
    requires Valid(left) && Valid(right) && Repr(left) !! Repr(right)
    requires TreeOf(left) == c && TreeOf(right) == d && leftLen == Size(c)
    requires Shape(c, h, ORDER - 1) && Count(c) < 2 * ORDER && Shape(d, h, ORDER + 1)
    modifies Top(left), Top(right)
    ensures Valid(left) && Valid(right) && Repr(left) !! Repr(right)
    ensures Repr(left) + Repr(right) <= old(Repr(left) + Repr(right))
    ensures Shape(TreeOf(left), h, ORDER) && Shape(TreeOf(right), h, ORDER)
    ensures Shifted(c, d, TreeOf(left), TreeOf(right), len)
  {
    match left {
      case LeafRef(leaf1) =>
        var leaf2 := right.leaf;
        var e := leaf2.elements[0];
        len := e.len;
        leaf2.elements := leaf2.elements[1..];
        leaf1.elements := leaf1.elements + [e];
        assert d.elements == [e] + leaf2.elements;
        SumApp(c.elements, [e]);
        assert Sum([e]) == e.len;
        ShiftedSizes(c, d, TreeOf(left), TreeOf(right), len);
      case Internal(inode1) =>
        len := RotateInnerLeft(inode1, right.inode, leftLen, c, d);
        FirstMovesLeft(c, d, TreeOf(left), TreeOf(right), h, ORDER - 1, ORDER + 1);
    }
  }

  /** Two inner nodes that own their children and share nothing. */
  ghost predicate Apart<T>(inode1: INode<T>, inode2: INode<T>)
    reads inode1, inode2, inode1.below, inode2.below
  {
    && Repr(Internal(inode1)) !! Repr(Internal(inode2))
    && inode1 !in inode1.below && Owns(inode1.children, inode1.trees, inode1.below)
    && inode2 !in inode2.below && Owns(inode2.children, inode2.trees, inode2.below)
  }

  method RotateInnerLeft<T>(inode1: INode<T>, inode2: INode<T>, leftLen: int, ghost c: Tree<T>, ghost d: Tree<T>)
    returns (len: int)
    requires Apart(inode1, inode2) && TreeOf(Internal(inode1)) == c && TreeOf(Internal(inode2)) == d
    requires |inode2.children| == |inode2.offsets| + 1 >= 2
    modifies inode1, inode2
    ensures Apart(inode1, inode2) && inode1.below + inode2.below <= old(inode1.below + inode2.below)
    ensures |d.children| == |d.offsets| + 1 >= 2 && len == d.offsets[0]
    ensures TreeOf(Internal(inode1)) == Inner(c.children + [d.children[0]], c.offsets + [leftLen])
    ensures TreeOf(Internal(inode2)) == Inner(d.children[1..], Rebased(d.offsets[1..], d.offsets[0]))
  {
    ghost var l, q := OwnsCut(inode2.children, d.children, inode2.below, 1);
    var e := inode2.children[0];
    assert inode2.children[..1] == [e] && d.children[..1] == [d.children[0]];

    len := inode2.offsets[0];
    OwnsApp(inode1.children, c.children, inode1.below, [e], [d.children[0]], l);
    ghost var below := inode1.below + l;

    Become(inode2, inode2.children[1..], inode2.offsets[1..], d.children[1..], q);
    ShiftOffsets(inode2, 0, -len);
    Become(inode1, inode1.children + [e], inode1.offsets + [leftLen], c.children + [d.children[0]], below);
  }

  /** Moves the last child of `left` to the front of `right`; gives its length. */
  method RotateRight<T>(left: NodeRef<T>, right: NodeRef<T>, leftLen: int, ghost c: Tree<T>, ghost d: Tree<T>,
                        ghost h: nat)
    returns (len: int)
    requires Valid(left) && Valid(right) && Repr(left) !! Repr(right)
    requires TreeOf(left) == c && TreeOf(right) == d && leftLen == Size(c)
    requires Shape(c, h, ORDER + 1) && Shape(d, h, ORDER - 1) && Count(d) < 2 * ORDER
    modifies Top(left), Top(right)
    ensures Valid(left) && Valid(right) && Repr(left) !! Repr(right)
    ensures Repr(left) + Repr(right) <= old(Repr(left) + Repr(right))
    ensures Shape(TreeOf(left), h, ORDER) && Shape(TreeOf(right), h, ORDER)
    ensures Shifted(c, d, TreeOf(left), TreeOf(right), -len)
  {
    match left {
      case LeafRef(leaf1) =>
        var leaf2 := right.leaf;
        var e := leaf1.elements[|leaf1.elements| - 1];
        leaf1.elements := leaf1.elements[..|leaf1.elements| - 1];
        len := e.len;
        leaf2.elements := [e] + leaf2.elements;
        assert c.elements == leaf1.elements + [e];
        SumApp(leaf1.elements, [e]);
        assert Sum([e]) == e.len;
        ShiftedSizes(c, d, TreeOf(left), TreeOf(right), -len);
      case Internal(inode1) =>
        len := RotateInnerRight(inode1, right.inode, leftLen, c, d);
        LastMovesRight(c, d, TreeOf(left), TreeOf(right), len, h, ORDER + 1, ORDER - 1);
    }
  }

  /** The last child of one node, and those of another one after it. */
  lemma {:induction false} LastOwned<T>(cs: seq<NodeRef<T>>, ts: seq<Tree<T>>, r: set<object>,
                                        ds: seq<NodeRef<T>>, us: seq<Tree<T>>, q: set<object>)
    returns (l: set<object>, below: set<object>)
    requires Owns(cs, ts, r) && Owns(ds, us, q) && r !! q && cs != []
    ensures |cs| == |ts|
    ensures var n := |cs| - 1;
            Owns(cs[..n], ts[..n], l) && Owns([cs[n]] + ds, [ts[n]] + us, below) && l <= r && below <= r + q
                && l !! below
  {
    var n := |cs| - 1;
    var last;
    l, last := OwnsCut(cs, ts, r, n);
    assert cs[n..] == [cs[n]] && ts[n..] == [ts[n]];
    OwnsApp([cs[n]], [ts[n]], last, ds, us, q);
    below := last + q;
  }

  method RotateInnerRight<T>(inode1: INode<T>, inode2: INode<T>, leftLen: int, ghost c: Tree<T>, ghost d: Tree<T>)
    returns (len: int)
    requires Apart(inode1, inode2) && TreeOf(Internal(inode1)) == c && TreeOf(Internal(inode2)) == d
    requires |inode1.children| == |inode1.offsets| + 1 >= 2
    modifies inode1, inode2
    ensures Apart(inode1, inode2) && inode1.below + inode2.below <= old(inode1.below + inode2.below)
    ensures var n := |c.children|;
            && |c.offsets| + 1 == n >= 2
            && len == leftLen - c.offsets[n - 2]
            && TreeOf(Internal(inode1)) == Inner(c.children[..n - 1], c.offsets[..n - 2])
            && TreeOf(Internal(inode2)) == Inner([c.children[n - 1]] + d.children, [len] + Bump(d.offsets, 0, len))
  {
    hide Bump, Flat, FlatAll;
    ghost var n := |c.children|;
    ghost var l, below := LastOwned(inode1.children, c.children, inode1.below, inode2.children, d.children,
        inode2.below);
    len := leftLen - inode1.offsets[|inode1.offsets| - 1];
    var e := inode1.children[|inode1.children| - 1];
    Become(inode1, inode1.children[..|inode1.children| - 1], inode1.offsets[..|inode1.offsets| - 1],
        c.children[..n - 1], l);
    ShiftOffsets(inode2, 0, len);
    Become(inode2, [e] + inode2.children, [len] + inode2.offsets, [c.children[n - 1]] + d.children, below);
  }

  /** Moves all children of `right` to the back of `left`. */
  method RotateLeftFull<T>(left: NodeRef<T>, right: NodeRef<T>, leftLen: int, ghost c: Tree<T>, ghost d: Tree<T>,
                           ghost h: nat)
    requires Valid(left) && Valid(right) && Repr(left) !! Repr(right)
    requires TreeOf(left) == c && TreeOf(right) == d && leftLen == Size(c)
    requires Shape(c, h, ORDER - 1) && Shape(d, h, ORDER - 1) && Count(c) + Count(d) <= 2 * ORDER
    modifies Top(left), Top(right)
    ensures Valid(left) && Repr(left) <= old(Repr(left) + Repr(right))
    ensures Shape(TreeOf(left), h, ORDER) && Flat(TreeOf(left)) == Flat(c) + Flat(d)
  {
    match left {
      case LeafRef(leaf1) =>
        leaf1.elements := leaf1.elements + right.leaf.elements;
        right.leaf.elements := [];
      case Internal(inode1) =>
        var inode2 := right.inode;
        OwnsApp(inode1.children, c.children, inode1.below, inode2.children, d.children, inode2.below);
        inode1.children := inode1.children + inode2.children;
        inode1.offsets := inode1.offsets + [leftLen];
        ghost var os := inode1.offsets;
        for i := 0 to |inode2.offsets|
          invariant inode2.offsets == d.offsets
          invariant inode1.offsets == os + Bump(d.offsets[..i], 0, leftLen)
          invariant inode1.children == old(inode1.children) + old(inode2.children) && inode1.below == old(inode1.below)
          invariant inode2.below == old(inode2.below)
          invariant Owns(inode1.children, c.children + d.children, inode1.below + inode2.below)
        {
          inode1.offsets := inode1.offsets + [inode2.offsets[i] + leftLen];
        }
        assert d.offsets[..|d.offsets|] == d.offsets;
        inode2.children, inode2.offsets := [], [];
        inode1.trees, inode1.below := c.children + d.children, inode1.below + inode2.below;
        AllMoveLeft(c, d, TreeOf(left), h, ORDER - 1);
    }
  }

  // ----- one node --------------------------------------------------------------

  /** What removing the element at `at` from the tree `t` leaves in `node`. */
  ghost predicate Removed<T>(t: Tree<T>, at: seq<nat>, elem: Elem<T>, node: Tree<T>, underflow: bool, h: nat, lo: nat)
    requires CursorOk(t, at)
  {
    && Pos(t, at) < |Flat(t)|
    && elem == Flat(t)[Pos(t, at)]
    && Flat(node) == RemoveAt(Flat(t), Pos(t, at))
    && Shape(node, h, if underflow && lo > 0 then lo - 1 else lo)
    && (underflow <==> Count(node) < ORDER && Count(node) != Count(t))
    && Count(t) - 1 <= Count(node) <= Count(t)
  }

  ghost predicate RemovePre<T>(n: NodeRef<T>, t: Tree<T>, at: seq<nat>, h: nat, lo: nat)
    reads Repr(n), Top(n)
  {
    && Valid(n) && TreeOf(n) == t && Shape(t, h, lo) && ElemCursor(t, at)
    && lo <= ORDER && (h > 0 ==> lo >= 2)
  }

  /** Removes the element at `at`; `t` is what `node` stands for before.
      `underflow` tells that `node` lost a child and has less than `ORDER`. */
  method RemoveSub<T>(at: seq<nat>, node: NodeRef<T>, ghost t: Tree<T>, ghost h: nat, ghost lo: nat)
    returns (elem: Elem<T>, len: int, underflow: bool)
    requires RemovePre(node, t, at, h, lo)
    modifies Repr(node)
    ensures Valid(node) && Repr(node) <= old(Repr(node))
    ensures CursorOk(t, at) && len == elem.len
    ensures Removed(t, at, elem, TreeOf(node), underflow, h, lo)
    decreases |at|, 1
  {
    ElemCursorOk(t, at);
    if |at| == 1 {
      var i, leaf := at[0], node.leaf;
      elem := leaf.elements[i];
      leaf.elements := leaf.elements[..i] + leaf.elements[i + 1..];
      len := elem.len;
      underflow := |leaf.elements| < ORDER;
    } else {
      elem, len, underflow := RemoveInner(at, node.inode, t, h, lo);
    }
  }

  /** All trees have the least child count, but for tree `i`, which is one short. */
  ghost predicate OneShort<T>(ts: seq<Tree<T>>, i: nat, h: nat) {
    && i < |ts|
    && (forall j :: 0 <= j < |ts| && j != i ==> Shape(ts[j], h, ORDER))
    && Shape(ts[i], h, ORDER - 1)
    && Count(ts[i]) == ORDER - 1
  }

  /** An inner node in order but for child `i`, which is one short. */
  ghost predicate Short<T>(inode: INode<T>, ts: seq<Tree<T>>, i: nat, h: nat, lo: nat)
    reads Repr(Internal(inode)), inode
  {
    && Valid(Internal(inode)) && inode.trees == ts && OffsetsOk(ts, inode.offsets)
    && h > 0 && 2 <= |ts| <= 2 * ORDER && lo <= |ts| && lo <= ORDER
    && OneShort(ts, i, h - 1)
  }

  /** The same elements in order, with at most one child fewer. */
  ghost predicate Rebalanced<T>(ts: seq<Tree<T>>, node: Tree<T>, underflow: bool, h: nat, lo: nat) {
    && Flat(node) == FlatAll(ts)
    && Shape(node, h, if underflow && lo > 0 then lo - 1 else lo)
    && (underflow <==> Count(node) < ORDER && Count(node) != |ts|)
    && |ts| - 1 <= Count(node) <= |ts|
  }

  function ChildCount<T>(n: NodeRef<T>): nat
    reads Top(n)
  {
    match n
    case Internal(inode) => |inode.children|
    case LeafRef(leaf) => |leaf.elements|
  }

  /** What is known of a child and its neighbours before rebalancing. */
  lemma {:induction false} ShortChild<T>(inode: INode<T>, ts: seq<Tree<T>>, i: nat, h: nat, lo: nat, j: nat)
    requires Short(inode, ts, i, h, lo) && j < |ts|
    ensures |inode.children| == |ts| == |inode.offsets| + 1
    ensures ChildCount(inode.children[j]) == Count(ts[j])
    ensures Shape(ts[j], h - 1, if j == i then ORDER - 1 else ORDER)
    ensures j == i ==> Count(ts[j]) == ORDER - 1
    ensures j + 1 < |ts| ==> Size(ts[j]) == inode.offsets[j] - if j == 0 then 0 else inode.offsets[j - 1]
  {
    assert Valid(Internal(inode));
    assert Owns(inode.children, ts, inode.below);
    assert Valid(inode.children[j]) && TreeOf(inode.children[j]) == ts[j];
    if inode.children[j].Internal? {
      var child := inode.children[j].inode;
      assert Owns(child.children, child.trees, child.below);
    }
    if j + 1 < |ts| {
      assert inode.offsets[j] == Before(ts, j + 1) == Before(ts, j) + Size(ts[j]);
    }
  }

  lemma {:induction false} RotatedOk<T>(ts: seq<Tree<T>>, os: seq<int>, k: nat, i: nat, a: Tree<T>, b: Tree<T>,
                                        len: int, h: nat, lo: nat)
    requires OffsetsOk(ts, os) && h > 0 && lo <= |ts| <= 2 * ORDER && k + 1 < |ts| && k <= i <= k + 1
             && OneShort(ts, i, h - 1)
    requires Shape(a, h - 1, ORDER) && Shape(b, h - 1, ORDER) && Shifted(ts[k], ts[k + 1], a, b, len)
    ensures Rebalanced(ts, Inner(TwoReplaced(ts, k, a, b), os[k := os[k] + len]), false, h, lo)
  {
    RotatedForest(ts, os, k, a, b, len);
  }

  lemma {:induction false} MergedOk<T>(ts: seq<Tree<T>>, os: seq<int>, k: nat, i: nat, c: Tree<T>, h: nat, lo: nat)
    requires OffsetsOk(ts, os) && h > 0 && lo <= |ts| <= 2 * ORDER && lo <= ORDER
    requires k + 1 < |ts| && k <= i <= k + 1 && OneShort(ts, i, h - 1)
    requires Shape(c, h - 1, ORDER) && Flat(c) == Flat(ts[k]) + Flat(ts[k + 1])
    ensures Rebalanced(ts, Inner(Joined(ts, k, c), RemoveAt(os, k)), |ts| - 1 < ORDER, h, lo)
  {
    JoinedForest(ts, os, k, c);
  }

  /** Rotates right or left; gives how far the boundary between the two moves. */
  method RotatePair<T>(left: NodeRef<T>, right: NodeRef<T>, leftLen: int, useLeft: bool,
                       ghost c: Tree<T>, ghost d: Tree<T>, ghost h: nat)
    returns (displacement: int)
    requires Valid(left) && Valid(right) && Repr(left) !! Repr(right)
    requires TreeOf(left) == c && TreeOf(right) == d && leftLen == Size(c)
    requires Shape(c, h, if useLeft then ORDER + 1 else ORDER - 1)
             && Shape(d, h, if useLeft then ORDER - 1 else ORDER + 1)
    requires Count(if useLeft then d else c) < 2 * ORDER
    modifies Top(left), Top(right)
    ensures Valid(left) && Valid(right) && Repr(left) !! Repr(right)
    ensures Repr(left) + Repr(right) <= old(Repr(left) + Repr(right))
    ensures Shape(TreeOf(left), h, ORDER) && Shape(TreeOf(right), h, ORDER)
    ensures Shifted(c, d, TreeOf(left), TreeOf(right), displacement)
  {
    if useLeft {
      displacement := RotateRight(left, right, leftLen, c, d, h);
      displacement := -displacement;
    } else {
      displacement := RotateLeft(left, right, leftLen, c, d, h);
    }
  }

  method RotateAt<T>(inode: INode<T>, k: nat, useLeft: bool, leftLen: int, ghost ts: seq<Tree<T>>, ghost h: nat)
    returns (ghost a: Tree<T>, ghost b: Tree<T>, ghost len: int)
    requires inode !in inode.below && Owns(inode.children, ts, inode.below) && k + 1 < |ts|
             && |inode.offsets| + 1 == |ts|
    requires leftLen == Size(ts[k])
    requires Shape(ts[k], h, if useLeft then ORDER + 1 else ORDER - 1)
             && Shape(ts[k + 1], h, if useLeft then ORDER - 1 else ORDER + 1)
    requires Count(ts[if useLeft then k + 1 else k]) < 2 * ORDER
    modifies Repr(Internal(inode))
    ensures Valid(Internal(inode)) && Repr(Internal(inode)) <= old(Repr(Internal(inode)))
    ensures Shape(a, h, ORDER) && Shape(b, h, ORDER) && Shifted(ts[k], ts[k + 1], a, b, len)
    ensures TreeOf(Internal(inode))
            == Inner(TwoReplaced(ts, k, a, b), old(inode.offsets)[k := old(inode.offsets)[k] + len])
  {
    ghost var cs := inode.children;
    ghost var l, q := OwnsAroundTwo(cs, ts, inode.below, k);
    var displacement := RotatePair(inode.children[k], inode.children[k + 1], leftLen, useLeft, ts[k], ts[k + 1], h);
    a, b, len := TreeOf(cs[k]), TreeOf(cs[k + 1]), displacement;
    OwnsReplacedTwo(cs, ts, k, l, q);
    inode.offsets := inode.offsets[k := inode.offsets[k] + displacement];
    inode.trees, inode.below := TwoReplaced(ts, k, a, b), l + (Repr(cs[k]) + Repr(cs[k + 1])) + q;
  }

  method MergeAt<T>(inode: INode<T>, k: nat, leftLen: int, ghost ts: seq<Tree<T>>, ghost h: nat)
    returns (ghost c: Tree<T>)
    requires inode !in inode.below && Owns(inode.children, ts, inode.below) && k + 1 < |ts|
             && |inode.offsets| + 1 == |ts|
    requires leftLen == Size(ts[k])
    requires Shape(ts[k], h, ORDER - 1) && Shape(ts[k + 1], h, ORDER - 1)
             && Count(ts[k]) + Count(ts[k + 1]) <= 2 * ORDER
    modifies Repr(Internal(inode))
    ensures Valid(Internal(inode)) && Repr(Internal(inode)) <= old(Repr(Internal(inode)))
    ensures |inode.children| == |ts| - 1
    ensures Shape(c, h, ORDER) && Flat(c) == Flat(ts[k]) + Flat(ts[k + 1])
    ensures TreeOf(Internal(inode)) == Inner(Joined(ts, k, c), RemoveAt(old(inode.offsets), k))
  {
    ghost var cs := inode.children;
    ghost var l, q := OwnsAroundTwo(cs, ts, inode.below, k);
    RotateLeftFull(inode.children[k], inode.children[k + 1], leftLen, ts[k], ts[k + 1], h);
    c := TreeOf(cs[k]);
    OwnsJoined(cs, ts, k, l, q);
    inode.children := inode.children[..k + 1] + inode.children[k + 2..];
    inode.offsets := inode.offsets[..k] + inode.offsets[k + 1..];
    inode.trees, inode.below := Joined(ts, k, c), l + Repr(cs[k]) + q;
  }

  /** Chooses how to bring child `i` back to the least count: preferably by taking
      a child from a neighbour, right before left, and otherwise by merging with
      the left neighbour or, for child 0, the right one. */
  method Strategy<T>(inode: INode<T>, i: nat, ghost ts: seq<Tree<T>>, ghost h: nat, ghost lo: nat)
    returns (k: nat, useLeft: bool, rotate: bool, leftLen: int)
    requires Short(inode, ts, i, h, lo)
    ensures |inode.children| == |ts| && k + 1 < |ts| && i == (if useLeft then k + 1 else k) && leftLen == Size(ts[k])
    ensures Owns(inode.children, ts, inode.below)
    ensures Shape(ts[k], h - 1, if i == k then ORDER - 1 else if rotate then ORDER + 1 else ORDER)
    ensures Shape(ts[k + 1], h - 1, if i == k + 1 then ORDER - 1 else if rotate then ORDER + 1 else ORDER)
    ensures Count(ts[i]) == ORDER - 1
    ensures !rotate ==> Count(ts[k]) + Count(ts[k + 1]) == 2 * ORDER - 1
    ensures rotate && !useLeft <==> i + 1 < |ts| && Count(ts[i + 1]) > ORDER
    ensures !rotate ==> (useLeft <==> i > 0)
  {
    ShortChild(inode, ts, i, h, lo, i);
    var hasLeft := i > 0;
    var hasRight := i + 1 < |inode.children|;
    if hasLeft {
      ShortChild(inode, ts, i, h, lo, i - 1);
    }
    if hasRight {
      ShortChild(inode, ts, i, h, lo, i + 1);
    }
    useLeft := hasLeft;
    rotate := false;
    if hasRight && ChildCount(inode.children[i + 1]) > ORDER {
      useLeft := false;
      rotate := true;
    } else if hasLeft && ChildCount(inode.children[i - 1]) > ORDER {
      rotate := true;
    }
    k := if useLeft then i - 1 else i;
    leftLen := if k == 0 then inode.offsets[0] else inode.offsets[k] - inode.offsets[k - 1];
  }

  /** Brings child `i` back to the least count. */
  method Rebalance<T>(inode: INode<T>, i: nat, ghost ts: seq<Tree<T>>, ghost h: nat, ghost lo: nat)
    returns (underflow: bool)
    requires Short(inode, ts, i, h, lo)
    modifies Repr(Internal(inode))
    ensures Valid(Internal(inode)) && Repr(Internal(inode)) <= old(Repr(Internal(inode)))
    ensures Rebalanced(ts, TreeOf(Internal(inode)), underflow, h, lo)
  {
    hide Flat, FlatAll, Sum, Size, Rebalanced;
    var k, useLeft, rotate, leftLen := Strategy(inode, i, ts, h, lo);
    ghost var os := inode.offsets;
    if rotate {
      ghost var a, b, len := RotateAt(inode, k, useLeft, leftLen, ts, h - 1);
      RotatedOk(ts, os, k, i, a, b, len, h, lo);
      underflow := false;
    } else {
      ghost var c := MergeAt(inode, k, leftLen, ts, h - 1);
      MergedOk(ts, os, k, i, c, h, lo);
      underflow := |inode.children| < ORDER;
    }
  }

  method RemoveInner<T>(at: seq<nat>, inode: INode<T>, ghost t: Tree<T>, ghost h: nat, ghost lo: nat)
    returns (elem: Elem<T>, len: int, underflow: bool)
    requires RemovePre(Internal(inode), t, at, h, lo) && |at| > 1 && CursorOk(t, at)
    modifies Repr(Internal(inode))
    ensures Valid(Internal(inode)) && Repr(Internal(inode)) <= old(Repr(Internal(inode)))
    ensures len == elem.len
    ensures Removed(t, at, elem, TreeOf(Internal(inode)), underflow, h, lo)
    decreases |at|, 0
  {
    var i := at[0];
    ghost var l, q := OwnsAround(inode.children, t.children, inode.below, i);
    assert ShapeAll(t.children, h - 1);
    assert Shape(t.children[i], h - 1, ORDER);

    elem, len, underflow := RemoveSub(at[1..], inode.children[i], t.children[i], h - 1, ORDER);
    underflow := GiveUp(inode, i, underflow, at, elem, len, t, l, q, h, lo);
  }

  /** Accounts for child `i` of an inner node, grown by `delta`: `l` and `q` are the
      objects of the other children. */
  method Settle<T>(inode: INode<T>, i: nat, delta: int, ghost ts: seq<Tree<T>>, ghost l: set<object>,
                   ghost q: set<object>)
    requires i < |inode.children| == |ts| == |inode.offsets| + 1 && Valid(inode.children[i])
    requires Owns(inode.children[..i], ts[..i], l) && Owns(inode.children[i + 1..], ts[i + 1..], q)
    requires var r := Repr(inode.children[i]); inode !in l + q + r && l !! q && l !! r && q !! r
    modifies inode
    ensures Valid(Internal(inode)) && inode.below == l + old(Repr(inode.children[i])) + q
    ensures TreeOf(Internal(inode))
            == Inner(ts[i := old(TreeOf(inode.children[i]))], Bump(old(inode.offsets), i, delta))
  {
    OwnsReplaced(inode.children, ts, i, l, q);
    inode.trees, inode.below := ts[i := TreeOf(inode.children[i])], l + Repr(inode.children[i]) + q;
    ShiftOffsets(inode, i, delta);
  }

  /** Finishes the removal from an inner node whose child `i` has lost `elem`: `l`
      and `q` are the objects of the other children. */
  method GiveUp<T>(inode: INode<T>, i: nat, childUnderflow: bool, ghost at: seq<nat>, ghost elem: Elem<T>, len: int,
                   ghost t: Tree<T>, ghost l: set<object>, ghost q: set<object>, ghost h: nat, ghost lo: nat)
    returns (underflow: bool)
    requires t.Inner? && Shape(t, h, lo) && CursorOk(t, at) && i == at[0] && len == elem.len
    requires lo <= ORDER && lo >= 2
    requires |inode.children| == |t.children| && inode.offsets == t.offsets
    requires Owns(inode.children[..i], t.children[..i], l) && Owns(inode.children[i + 1..], t.children[i + 1..], q)
    requires var c := inode.children[i];
             && Valid(c) && inode !in l + q + Repr(c) && l !! q && l !! Repr(c) && q !! Repr(c)
             && Removed(t.children[i], at[1..], elem, TreeOf(c), childUnderflow, h - 1, ORDER)
    modifies inode, l + Repr(inode.children[i]) + q
    ensures Valid(Internal(inode)) && inode.below <= l + old(Repr(inode.children[i])) + q
    ensures Removed(t, at, elem, TreeOf(Internal(inode)), underflow, h, lo)
  {
    ghost var c := TreeOf(inode.children[i]);
    Settle(inode, i, -len, t.children, l, q);
    underflow := childUnderflow;
    if underflow {
      RemovedShort(t, at, elem, c, h, lo);
      underflow := Rebalance(inode, i, inode.trees, h, lo);
      RemovedRebalanced(t, at, elem, c, TreeOf(Internal(inode)), underflow, h, lo);
    } else {
      RemovedWhole(t, at, elem, c, h, lo);
    }
  }

  /** What becomes of the inner node `t` when its child `at[0]` has lost an element. */
  lemma {:induction false} RemovedBelow<T>(t: Tree<T>, at: seq<nat>, elem: Elem<T>, c: Tree<T>, underflow: bool, h: nat,
                                           lo: nat)
    requires t.Inner? && Shape(t, h, lo) && CursorOk(t, at)
    requires Removed(t.children[at[0]], at[1..], elem, c, underflow, h - 1, ORDER)
    ensures Pos(t, at) < |Flat(t)| && elem == Flat(t)[Pos(t, at)]
    ensures FlatAll(t.children[at[0] := c]) == RemoveAt(Flat(t), Pos(t, at))
    ensures OffsetsOk(t.children[at[0] := c], Bump(t.offsets, at[0], -elem.len))
  {
    var ts, i := t.children, at[0];
    var p := Pos(ts[i], at[1..]);
    SumRemove(Flat(ts[i]), p);
    OffsetsReplace(ts, t.offsets, i, c, -elem.len);
    FlatReplace(ts, i, c);
    FlatSplit(ts, i);
    RemoveBelow(FlatAll(ts[..i]), Flat(ts[i]), FlatAll(ts[i + 1..]), p);
  }

  lemma {:induction false} RemovedWhole<T>(t: Tree<T>, at: seq<nat>, elem: Elem<T>, c: Tree<T>, h: nat, lo: nat)
    requires t.Inner? && Shape(t, h, lo) && CursorOk(t, at)
    requires Removed(t.children[at[0]], at[1..], elem, c, false, h - 1, ORDER)
    ensures Removed(t, at, elem, Inner(t.children[at[0] := c], Bump(t.offsets, at[0], -elem.len)), false, h, lo)
  {
    RemovedBelow(t, at, elem, c, false, h, lo);
    ShapeReplaced(t.children, at[0], c, h - 1);
  }

  lemma {:induction false} RemovedShort<T>(t: Tree<T>, at: seq<nat>, elem: Elem<T>, c: Tree<T>, h: nat, lo: nat)
    requires t.Inner? && Shape(t, h, lo) && CursorOk(t, at)
    requires Removed(t.children[at[0]], at[1..], elem, c, true, h - 1, ORDER)
    ensures OneShort(t.children[at[0] := c], at[0], h - 1)
    ensures OffsetsOk(t.children[at[0] := c], Bump(t.offsets, at[0], -elem.len))
  {
    RemovedBelow(t, at, elem, c, true, h, lo);
    assert ShapeAll(t.children, h - 1);
    assert Shape(t.children[at[0]], h - 1, ORDER);
  }

  lemma {:induction false} RemovedRebalanced<T>(t: Tree<T>, at: seq<nat>, elem: Elem<T>, c: Tree<T>, node: Tree<T>,
                                                underflow: bool, h: nat, lo: nat)
    requires t.Inner? && Shape(t, h, lo) && CursorOk(t, at)
    requires Removed(t.children[at[0]], at[1..], elem, c, true, h - 1, ORDER)
    requires Rebalanced(t.children[at[0] := c], node, underflow, h, lo)
    ensures Removed(t, at, elem, node, underflow, h, lo)
  {
    RemovedBelow(t, at, elem, c, true, h, lo);
  }
}
