/** The rope itself: a sequence of elements with lengths, held in a B+ tree. */
module Rope {
  import opened Wrappers
  import opened RopeTree
  import opened RopeCursor
  import opened RopeNodes
  import opened RopeInsert
  import opened RopeRemove
  import opened RopeUpdate

  datatype Ordering = Less | Equal | Greater

  /** Selects one element by comparing offsets with a reference value. */
  datatype One = FirstAfter(cmp: int -> Ordering) | LastBefore(cmp: int -> Ordering)

  /** What the offset of the selected element's end satisfies first. */
  function Beyond(one: One): int -> bool {
    match one
    case FirstAfter(cmp) => (o: int) => cmp(o) == Greater
    case LastBefore(cmp) => (o: int) => cmp(o) != Less
  }

  /** A comparator made from the reference value `x`. */
  function ByOrd(x: int): (cmp: int -> Ordering)
    ensures Compares(cmp, x)
  {
    (probe: int) => if probe < x then Less else if probe == x then Equal else Greater
  }

  /** `cmp` compares offsets with `x`. */
  ghost predicate Compares(cmp: int -> Ordering, x: int) {
    forall o :: (cmp(o) == Less <==> o < x) && (cmp(o) == Greater <==> o > x)
  }

  /** `k` is an element at whose ends the comparator answers as `one` asks, and the
      first such that a scan comes to. */
  ghost predicate Selects<T>(one: One, s: seq<Elem<T>>, k: nat) {
    && k < |s|
    && (match one
        case FirstAfter(cmp) => cmp(Start(s, k)) != Greater && cmp(Start(s, k + 1)) == Greater
        case LastBefore(cmp) => cmp(Start(s, k)) == Less && cmp(Start(s, k + 1)) != Less)
    && (Monotone(Beyond(one)) && NonNegative(s) ==> k == Scan(s, Beyond(one), 0))
  }

  /** The reference value is in the empty place before the rope or in that after it. */
  ghost predicate SelectsNone<T>(one: One, s: seq<Elem<T>>) {
    match one
    case FirstAfter(cmp) => cmp(0) == Greater || cmp(Sum(s)) != Greater
    case LastBefore(cmp) => cmp(0) != Less || cmp(Sum(s)) == Less
  }

  /** What `one` selects if its comparator is made from `x`. */
  lemma {:induction false} SelectsAt<T>(one: One, s: seq<Elem<T>>, k: nat, x: int)
    requires Compares(one.cmp, x)
    ensures SelectsNone(one, s) <==> if one.FirstAfter? then x < 0 || x >= Sum(s) else x <= 0 || x > Sum(s)
    ensures Selects(one, s, k) ==>
              if one.FirstAfter? then Start(s, k) <= x < Start(s, k + 1) else Start(s, k) < x <= Start(s, k + 1)
  {
  }

  /** Where element `k` starts. */
  ghost function Start<T>(s: seq<Elem<T>>, k: nat): int
    requires k <= |s|
  {
    Sum(s[..k])
  }

  lemma {:induction false} StartNext<T>(s: seq<Elem<T>>, k: nat)
    requires k < |s|
    ensures Start(s, k + 1) == Start(s, k) + s[k].len
  {
    assert s[..k + 1] == s[..k] + [s[k]];
    SumApp(s[..k], [s[k]]);
    assert Sum([s[k]]) == s[k].len;
  }

  ghost predicate NonNegative<T>(s: seq<Elem<T>>) {
    forall i :: 0 <= i < |s| ==> s[i].len >= 0
  }

  ghost predicate Monotone(f: int -> bool) {
    forall a, b :: a <= b && f(a) ==> f(b)
  }

  /** A left-to-right scan for the first element whose end, counted from `base`,
      satisfies `f`. */
  ghost function Scan<T>(s: seq<Elem<T>>, f: int -> bool, base: int): nat {
    if s == [] || f(base + s[0].len) then 0 else 1 + Scan(s[1..], f, base + s[0].len)
  }

  /** The scan stops at an element that starts before `f` holds and ends where it
      does; for a monotone `f` there is no other. */
  lemma {:induction false} ScanStops<T>(s: seq<Elem<T>>, f: int -> bool, base: int, k: nat)
    requires Monotone(f) && NonNegative(s) && k <= |s|
    requires !f(base + Start(s, k))
    requires k < |s| ==> f(base + Start(s, k + 1))
    ensures Scan(s, f, base) == k
  {
    if k > 0 {
      var rest := s[1..];
      assert s[..k][1..] == rest[..k - 1];
      if k < |s| {
        assert s[..k + 1][1..] == rest[..k];
      }
      SumNonNegative(rest[..k - 1]);
      assert Start(s, k) == s[0].len + Start(rest, k - 1);
      assert !f(base + s[0].len);
      ScanStops(rest, f, base + s[0].len, k - 1);
    } else if s != [] {
      StartNext(s, 0);
    }
  }

  /** Where a scan stops that finds an element. */
  lemma {:induction false} ScanFinds<T>(s: seq<Elem<T>>, f: int -> bool, base: int)
    requires !f(base) && f(base + Sum(s))
    ensures var k := Scan(s, f, base);
            k < |s| && !f(base + Start(s, k)) && f(base + Start(s, k + 1))
  {
    var k := Scan(s, f, base);
    StartNext(s, 0);
    if k > 0 {
      ScanFinds(s[1..], f, base + s[0].len);
      assert s[..k] == [s[0]] + s[1..][..k - 1] && s[..k + 1] == [s[0]] + s[1..][..k];
    }
  }

  lemma {:induction false} StartUp<T>(s: seq<Elem<T>>, i: nat, j: nat)
    requires NonNegative(s) && i <= j <= |s|
    ensures Start(s, i) <= Start(s, j)
  {
    assert s[..j] == s[..i] + s[i..j];
    SumApp(s[..i], s[i..j]);
    SumNonNegative(s[i..j]);
  }

  lemma {:induction false} SumNonNegative<T>(s: seq<Elem<T>>)
    requires NonNegative(s)
    ensures Sum(s) >= 0
  {
    if s != [] {
      SumNonNegative(s[1..]);
    }
  }

  class Rope<T> {
    var root: NodeRef<T>
    var len: int
    ghost var height: nat

    ghost predicate Valid()
      reads this, Top(root), Repr(root)
    {
      && this !in Repr(root)
      && RopeNodes.Valid(root)
      && RootShape(TreeOf(root), height)
      && len == Size(TreeOf(root))
    }

    ghost function Tree(): Tree<T>
      reads this, Top(root)
    {
      TreeOf(root)
    }

    ghost function Contents(): seq<Elem<T>>
      reads this, Top(root)
    {
      Flat(Tree())
    }

    constructor ()
      ensures Valid() && Contents() == [] && fresh(Repr(root))
    {
      var leaf := new LeafNode<T>([]);
      root := LeafRef(leaf);
      len := 0;
      height := 0;
    }

    // ----- cursors ----------------------------------------------------------------

    predicate IsEmpty()
      reads this, Top(root)
    {
      match root
      case LeafRef(leaf) => leaf.elements == []
      case Internal(_) => false
    }

    lemma EmptyIff()
      requires Valid()
      ensures IsEmpty() <==> Contents() == []
    {
      if root.Internal? {
        TreeSize(Tree(), height, RootMin(height));
        PowMonotone(ORDER, 0, height);
      }
    }

    /** A child on the way down: it is in order, and the path to it is one longer. */
    lemma Descend(path: seq<nat>, node: NodeRef<T>, pos: int, i: nat)
      requires Valid() && RopeNodes.Valid(node) && Leads(Tree(), path, TreeOf(node), pos)
      requires node.Internal? && i < |node.inode.children|
      ensures var ts := node.inode.trees;
              && |ts| == |node.inode.children|
              && RopeNodes.Valid(node.inode.children[i])
              && TreeOf(node.inode.children[i]) == ts[i]
              && Leads(Tree(), path + [i], ts[i], pos + |FlatAll(ts[..i])|)
              && |path| < height
    {
      assert Owns(node.inode.children, node.inode.trees, node.inode.below);
      LeadsChild(Tree(), path, TreeOf(node), pos, i);
      LeadsShape(Tree(), path + [i], node.inode.trees[i], pos + |FlatAll(node.inode.trees[..i])|, height,
          RootMin(height));
    }

    lemma Here(path: seq<nat>, node: NodeRef<T>, pos: int)
      requires Valid() && RopeNodes.Valid(node) && Leads(Tree(), path, TreeOf(node), pos)
      ensures |path| <= height && Shape(TreeOf(node), height - |path|, if path == [] then RootMin(height) else ORDER)
      ensures node.Internal? ==>
                |node.inode.children| == |node.inode.trees| >= 2 && |node.inode.offsets| + 1 == |node.inode.trees|
    {
      LeadsShape(Tree(), path, TreeOf(node), pos, height, RootMin(height));
      if node.Internal? {
        assert Owns(node.inode.children, node.inode.trees, node.inode.below);
      }
    }

    /** The cursor of the last element or of the place past it. */
    method EndGeneric(pastEnd: bool) returns (c: seq<nat>)
      requires Valid() && (pastEnd || Contents() != [])
      ensures CursorOk(Tree(), c)
      ensures pastEnd ==> Pos(Tree(), c) == |Contents()|
      ensures !pastEnd ==> ElemCursor(Tree(), c) && Pos(Tree(), c) == |Contents()| - 1
    {
      c := [];
      var node := root;
      ghost var pos := 0;
      while node.Internal?
        invariant RopeNodes.Valid(node) && Leads(Tree(), c, TreeOf(node), pos)
        invariant pos + |Flat(TreeOf(node))| == |Contents()|
        decreases height - |c|
      {
        Here(c, node, pos);
        var inode := node.inode;
        var i := |inode.children| - 1;
        Descend(c, node, pos, i);
        FlatSplit(inode.trees, i);
        assert inode.trees[i + 1..] == [];
        c := c + [i];
        pos := pos + |FlatAll(inode.trees[..i])|;
        node := inode.children[i];
      }
      Here(c, node, pos);
      var i := |node.leaf.elements| - (if pastEnd then 0 else 1);
      LeadsCursor(Tree(), c, TreeOf(node), pos, i);
      c := c + [i];
    }

    method LastCursor() returns (c: seq<nat>)
      requires Valid() && Contents() != []
      ensures ElemCursor(Tree(), c) && CursorOk(Tree(), c) && Pos(Tree(), c) == |Contents()| - 1
    {
      c := EndGeneric(false);
    }

    method End() returns (c: seq<nat>)
      requires Valid()
      ensures CursorOk(Tree(), c) && Pos(Tree(), c) == |Contents()|
    {
      c := EndGeneric(true);
    }

    method Begin() returns (c: seq<nat>)
      requires Valid()
      ensures CursorOk(Tree(), c) && Pos(Tree(), c) == 0
      ensures Contents() != [] ==> ElemCursor(Tree(), c)
    {
      c := [];
      var node := root;
      while node.Internal?
        invariant RopeNodes.Valid(node) && Leads(Tree(), c, TreeOf(node), 0)
        decreases height - |c|
      {
        Here(c, node, 0);
        Descend(c, node, 0, 0);
        c := c + [0];
        node := node.inode.children[0];
      }
      Here(c, node, 0);
      LeadsCursor(Tree(), c, TreeOf(node), 0, 0);
      c := c + [0];
    }

    method GetAt(at: seq<nat>) returns (x: Elem<T>)
      requires Valid() && ElemCursor(Tree(), at) && CursorOk(Tree(), at)
      ensures Pos(Tree(), at) < |Contents()| && x == Contents()[Pos(Tree(), at)]
    {
      hide CursorOk, ElemCursor, Pos, Shape, Sum, Flat, FlatAll;
      var cur := root;
      var k := 0;
      ghost var pos := 0;
      ghost var leaf, start := CursorLeads(Tree(), at);
      CursorLength(Tree(), at, height, RootMin(height));
      assert Leads(Tree(), at[..0], TreeOf(cur), 0) && at[0..|at| - 1] == at[..|at| - 1];
      hide Leads;
      while cur.Internal?
        invariant k < |at| && RopeNodes.Valid(cur)
        invariant Leads(Tree(), at[..k], TreeOf(cur), pos)
        invariant Leads(TreeOf(cur), at[k..|at| - 1], leaf, start - pos)
        decreases |at| - k
      {
        WayDown(at, k, cur, pos, leaf, start);
        var i := at[k];
        pos := pos + |FlatAll(cur.inode.trees[..i])|;
        cur := cur.inode.children[i];
        k := k + 1;
      }
      LeafElement(at, k, cur, pos, leaf, start);
      x := cur.leaf.elements[at[k]];
    }

    /** A step on the way to an element. */
    lemma {:induction false} WayDown(at: seq<nat>, k: nat, cur: NodeRef<T>, pos: int, leaf: Tree<T>, start: int)
      requires Valid() && k < |at| && RopeNodes.Valid(cur) && cur.Internal? && leaf.Leaf?
      requires Leads(Tree(), at[..k], TreeOf(cur), pos) && Leads(TreeOf(cur), at[k..|at| - 1], leaf, start - pos)
      ensures k + 1 < |at| && at[k] < |cur.inode.children| == |cur.inode.trees|
      ensures var c, p := cur.inode.children[at[k]], pos + |FlatAll(cur.inode.trees[..at[k]])|;
              && RopeNodes.Valid(c)
              && Leads(Tree(), at[..k + 1], TreeOf(c), p)
              && Leads(TreeOf(c), at[k + 1..|at| - 1], leaf, start - p)
    {
      hide Shape, Sum, Flat, FlatAll;
      Here(at[..k], cur, pos);
      var rest := at[k..|at| - 1];
      assert rest != [];
      assert rest[0] == at[k] && rest[1..] == at[k + 1..|at| - 1];
      Descend(at[..k], cur, pos, at[k]);
      assert at[..k] + [at[k]] == at[..k + 1];
    }

    /** The end of the way to an element. */
    lemma {:induction false} LeafElement(at: seq<nat>, k: nat, cur: NodeRef<T>, pos: int, leaf: Tree<T>, start: int)
      requires Valid() && ElemCursor(Tree(), at) && CursorOk(Tree(), at) && k < |at|
      requires RopeNodes.Valid(cur) && cur.LeafRef? && Leads(Tree(), at[..k], TreeOf(cur), pos)
      requires Leads(TreeOf(cur), at[k..|at| - 1], leaf, start - pos)
      requires leaf.Leaf? && Pos(Tree(), at) == start + at[|at| - 1] && at[|at| - 1] < |leaf.elements|
      ensures at[k] < |cur.leaf.elements| && Pos(Tree(), at) < |Contents()|
      ensures cur.leaf.elements[at[k]] == Contents()[Pos(Tree(), at)]
    {
      hide CursorOk, ElemCursor, Pos, Shape, Sum, FlatAll;
      assert at[k..|at| - 1] == [];
      LeadsFlat(Tree(), at[..k], TreeOf(cur), pos);
      assert Flat(TreeOf(cur))[at[k]] == Contents()[pos..pos + |Flat(TreeOf(cur))|][at[k]];
    }

    // ----- changes ------------------------------------------------------------------

    /** Inserts `x` before the place `at` leads to. */
    method Insert(x: Elem<T>, at: seq<nat>)
      requires Valid() && CursorOk(Tree(), at)
      modifies this, Repr(root)
      ensures Valid() && fresh(Repr(root) - old(Repr(root)))
      ensures old(Pos(Tree(), at)) <= |old(Contents())|
      ensures Contents() == InsertAt(old(Contents()), old(Pos(Tree(), at)), x)
    {
      hide Sum, Pos, CursorOk;
      ghost var t := Tree();
      SumInsertAt(t, at, x);
      var split := InsertSub(at, root, x, x.len, t, height, RootMin(height));
      if split.Halves? {
        RootGrows(t, at, x, Tree(), TreeOf(split.sibling), split.len, height);
        GrowRoot(split.sibling, split.len);
      } else {
        assert Flat(Tree()) + FlatAll([]) == Flat(Tree());
      }
      len := len + x.len;
    }

    /** Puts a new root above the current one and its new sibling. */
    method GrowRoot(sibling: NodeRef<T>, newLen: int)
      requires RopeNodes.Valid(root) && RopeNodes.Valid(sibling) && Repr(root) !! Repr(sibling)
      requires this !in Repr(root) + Repr(sibling)
      modifies this`root, this`height
      ensures RopeNodes.Valid(root) && this !in Repr(root)
      ensures fresh(Repr(root) - old(Repr(root)) - Repr(sibling))
      ensures Tree() == Inner([old(Tree()), old(TreeOf(sibling))], [newLen]) && height == old(height) + 1
    {
      var oldRoot := root;
      OwnsOne(oldRoot);
      OwnsOne(sibling);
      OwnsApp([oldRoot], [TreeOf(oldRoot)], Repr(oldRoot), [sibling], [TreeOf(sibling)], Repr(sibling));
      ghost var ts := [TreeOf(oldRoot)] + [TreeOf(sibling)];
      var inode := new INode([oldRoot] + [sibling], [newLen], ts, Repr(oldRoot) + Repr(sibling));
      root := Internal(inode);
      height := height + 1;
      assert ts == [TreeOf(oldRoot), TreeOf(sibling)];
    }

    /** Removes the element at `at`. */
    method RemoveAt(at: seq<nat>) returns (elem: Elem<T>)
      requires Valid() && ElemCursor(Tree(), at) && CursorOk(Tree(), at)
      modifies this, Repr(root)
      ensures Valid() && fresh(Repr(root) - old(Repr(root)))
      ensures old(Pos(Tree(), at)) < |old(Contents())| && elem == old(Contents())[old(Pos(Tree(), at))]
      ensures Contents() == RopeTree.RemoveAt(old(Contents()), old(Pos(Tree(), at)))
    {
      ghost var t := Tree();
      var offset, underflow;
      elem, offset, underflow := RemoveSub(at, root, t, height, RootMin(height));
      SumRemove(Flat(t), Pos(t, at));
      if underflow {
        FlattenRootIfNeeded(RootMin(height));
      }
      len := len + -offset;
    }

    /** Drops a root that is left with one child. */
    method FlattenRootIfNeeded(ghost lo: nat)
      requires RopeNodes.Valid(root) && this !in Repr(root)
      requires Shape(Tree(), height, if lo > 0 then lo - 1 else lo) && lo == RootMin(height)
      modifies this`root, this`height
      ensures RopeNodes.Valid(root) && Repr(root) <= old(Repr(root))
      ensures RootShape(Tree(), height) && Contents() == old(Contents())
    {
      match root {
        case LeafRef(_) =>
        case Internal(inode) =>
          assert Owns(inode.children, inode.trees, inode.below);
          if |inode.children| >= 2 {
            return;
          }
          FlatOne(inode.trees[0]);
          assert inode.trees == [inode.trees[0]];
          assert ShapeAll(inode.trees, height - 1);
          assert Shape(inode.trees[0], height - 1, ORDER);
          root := inode.children[0];
          height := height - 1;
      }
    }

    /** Replaces the element at `at` as `f` says, and gives the other result of `f`. */
    method UpdateAtWith<R>(at: seq<nat>, f: Elem<T> -> (Elem<T>, R)) returns (result: R)
      requires Valid() && ElemCursor(Tree(), at) && CursorOk(Tree(), at)
      modifies this, Repr(root)
      ensures Valid() && fresh(Repr(root) - old(Repr(root)))
      ensures var p := old(Pos(Tree(), at));
              && p < |old(Contents())|
              && (Contents(), result) == (old(Contents())[p := f(old(Contents())[p]).0], f(old(Contents())[p]).1)
    {
      ghost var t := Tree();
      var delta;
      delta, result := UpdateSub(at, root, f, t, height, RootMin(height));
      SumUpdate(Flat(t), Pos(t, at), f(Flat(t)[Pos(t, at)]).0);
      len := len + delta;
    }

    // ----- search -----------------------------------------------------------------

    /** The first child whose end satisfies `f`, or the last child. */
    method SearchChildren(inode: INode<T>, offset: int, f: int -> bool) returns (i: nat, next: int)
      requires !f(offset)
      ensures i <= |inode.offsets| && !f(next)
      ensures next == offset + if i == 0 then 0 else inode.offsets[i - 1]
      ensures i < |inode.offsets| ==> f(offset + inode.offsets[i])
    {
      i := 0;
      next := offset;
      while i < |inode.offsets|
        invariant i <= |inode.offsets| && !f(next)
        invariant next == offset + if i == 0 then 0 else inode.offsets[i - 1]
      {
        var nextChildOffset := offset + inode.offsets[i];
        if f(nextChildOffset) {
          break;
        }
        next := nextChildOffset;
        i := i + 1;
      }
    }

    /** The first element whose end satisfies `f`, or the last element. */
    method SearchElements(es: seq<Elem<T>>, start: int, f: int -> bool) returns (i: nat, offset: int)
      requires es != [] && !f(start) && f(start + Sum(es))
      ensures i < |es| && offset == start + Start(es, i)
      ensures !f(offset) && f(start + Start(es, i + 1))
    {
      i := 0;
      offset := start;
      while i + 1 < |es|
        invariant i < |es| && offset == start + Start(es, i) && !f(offset)
      {
        StartNext(es, i);
        var next := offset + es[i].len;
        if f(next) {
          return;
        }
        offset := next;
        i := i + 1;
      }
      assert es[..i + 1] == es;
    }

    /** Where a search has got to: on the edge of `f` in subtree `node`. */
    ghost predicate Searching(path: seq<nat>, node: NodeRef<T>, pos: int, offset: int, f: int -> bool)
      reads this, Top(root), Repr(node), Top(node)
    {
      && RopeNodes.Valid(node)
      && Leads(Tree(), path, TreeOf(node), pos)
      && 0 <= pos <= |Contents()| && offset == Start(Contents(), pos)
      && !f(offset) && f(offset + Size(TreeOf(node)))
    }

    lemma SearchDescends(path: seq<nat>, node: NodeRef<T>, pos: int, offset: int, f: int -> bool, i: nat, next: int)
      requires Valid() && Searching(path, node, pos, offset, f) && node.Internal?
      requires i <= |node.inode.offsets| && !f(next)
      requires next == offset + if i == 0 then 0 else node.inode.offsets[i - 1]
      requires i < |node.inode.offsets| ==> f(offset + node.inode.offsets[i])
      ensures i < |node.inode.children| == |node.inode.trees| && |path| < height
      ensures Searching(path + [i], node.inode.children[i], pos + |FlatAll(node.inode.trees[..i])|, next, f)
    {
      Here(path, node, pos);
      Descend(path, node, pos, i);
      var ts := node.inode.trees;
      LeadsFlat(Tree(), path + [i], ts[i], pos + |FlatAll(ts[..i])|);
      StartOfChild(Tree(), path, TreeOf(node), pos, i);
      SizeOfInner(TreeOf(node));
    }

    /** Searches for the place where `f` turns true; the ends of the rope are capped
        by `None` and the place past the last element. */
    method SearchBy(f: int -> bool) returns (r: Option<(seq<nat>, int)>)
      requires Valid()
      ensures r.None? <==> f(0)
      ensures r.Some? ==> Found(f, r.value.0, r.value.1)
      ensures r.Some? && Monotone(f) && NonNegative(Contents()) ==> Pos(Tree(), r.value.0) == Scan(Contents(), f, 0)
    {
      assert Start(Contents(), 0) == 0;
      assert Contents()[..|Contents()|] == Contents();
      if f(0) {
        return None;
      }
      if !f(len) {
        var e := End();
        ScanStopsHere(f, |Contents()|);
        return Some((e, len));
      }
      r := SearchDown(f);
    }

    lemma SearchStarts(f: int -> bool)
      requires Valid() && !f(0) && f(len)
      ensures Searching([], root, 0, 0, f)
    {
    }

    method SearchDown(f: int -> bool) returns (r: Option<(seq<nat>, int)>)
      requires Valid() && !f(0) && f(len)
      ensures r.Some? && Found(f, r.value.0, r.value.1)
      ensures Monotone(f) && NonNegative(Contents()) ==> Pos(Tree(), r.value.0) == Scan(Contents(), f, 0)
    {
      hide Scan, Monotone, NonNegative, Flat, FlatAll, Leads, Shape, Sum;
      SearchStarts(f);
      var c: seq<nat>, offset, node := [], 0, root;
      ghost var pos := 0;
      while node.Internal?
        invariant Searching(c, node, pos, offset, f)
        decreases height - |c|
      {
        var inode := node.inode;
        var i, next := SearchChildren(inode, offset, f);
        SearchDescends(c, node, pos, offset, f, i, next);
        c, offset, pos, node := c + [i], next, pos + |FlatAll(inode.trees[..i])|, inode.children[i];
      }
      r := SearchLeaf(c, node, pos, offset, f);
    }

    method SearchLeaf(path: seq<nat>, node: NodeRef<T>, ghost pos: int, offset: int, f: int -> bool)
      returns (r: Option<(seq<nat>, int)>)
      requires Valid() && Searching(path, node, pos, offset, f) && node.LeafRef? && f(len)
      ensures r.Some? && Found(f, r.value.0, r.value.1)
      ensures Monotone(f) && NonNegative(Contents()) ==> Pos(Tree(), r.value.0) == Scan(Contents(), f, 0)
    {
      var es := node.leaf.elements;
      assert es != [];
      var i, at := SearchElements(es, offset, f);
      FoundInLeaf(path, node, pos, offset, f, i, at);
      r := Some((path + [i], at));
    }

    lemma FoundInLeaf(path: seq<nat>, node: NodeRef<T>, pos: int, offset: int, f: int -> bool, i: nat, at: int)
      requires Valid() && Searching(path, node, pos, offset, f) && node.LeafRef? && f(len)
      requires var es := node.leaf.elements;
               i < |es| && at == offset + Start(es, i) && !f(at) && f(offset + Start(es, i + 1))
      ensures Found(f, path + [i], at)
      ensures Monotone(f) && NonNegative(Contents()) ==> Pos(Tree(), path + [i]) == Scan(Contents(), f, 0)
    {
      var es := node.leaf.elements;
      LeadsCursor(Tree(), path, TreeOf(node), pos, i);
      LeadsFlat(Tree(), path, TreeOf(node), pos);
      StartWithin(Contents(), pos, es, i);
      StartWithin(Contents(), pos, es, i + 1);
      ScanStopsHere(f, pos + i);
    }

    /** `c` leads to the place where `f` turns true, which starts at `o`. */
    ghost predicate Found(f: int -> bool, c: seq<nat>, o: int)
      reads this, Top(root)
    {
      && CursorOk(Tree(), c)
      && var k := Pos(Tree(), c);
      && k <= |Contents()|
      && o == Start(Contents(), k)
      && !f(o)
      && (if k < |Contents()| then ElemCursor(Tree(), c) && f(Start(Contents(), k + 1)) else !f(len))
      && (k == |Contents()| <==> !f(len))
    }

    lemma ScanStopsHere(f: int -> bool, k: nat)
      requires k <= |Contents()| && !f(Start(Contents(), k))
      requires k < |Contents()| ==> f(Start(Contents(), k + 1))
      ensures Monotone(f) && NonNegative(Contents()) ==> Scan(Contents(), f, 0) == k
    {
      if Monotone(f) && NonNegative(Contents()) {
        ScanStops(Contents(), f, 0, k);
      }
    }

    /** Finds the element, not the place past the last one, that `one` selects. */
    method FindOne(one: One) returns (r: Option<(seq<nat>, int)>, ghost k: nat)
      requires Valid()
      ensures r.None? <==> SelectsNone(one, Contents())
      ensures r.Some? ==>
                && ElemCursor(Tree(), r.value.0) && CursorOk(Tree(), r.value.0)
                && Selects(one, Contents(), k) && Pos(Tree(), r.value.0) == k && r.value.1 == Start(Contents(), k)
      ensures forall x :: one.FirstAfter? && Compares(one.cmp, x) ==>
                            if r.None? then x < 0 || x >= Sum(Contents())
                            else k < |Contents()| && Start(Contents(), k) <= x < Start(Contents(), k + 1)
      ensures forall x :: one.LastBefore? && Compares(one.cmp, x) ==>
                            if r.None? then x <= 0 || x > Sum(Contents())
                            else k < |Contents()| && Start(Contents(), k) < x <= Start(Contents(), k + 1)
    {
      hide Scan, Monotone, NonNegative, Compares, Flat, Sum, Shape, Pos, CursorOk, ElemCursor;
      k := 0;
      r := SearchBy(Beyond(one));
      if r.Some? {
        k := Pos(Tree(), r.value.0);
        var end := End();
        if r.value.0 == end {
          r := None;
        } else if k == |Contents()| {
          EndUnique(Tree(), r.value.0, end, height, RootMin(height));
        }
      }
      forall x | Compares(one.cmp, x) {
        SelectsAt(one, Contents(), k, x);
      }
    }

    // ----- the operations of a sequence ---------------------------------------------

    method PushBack(x: Elem<T>)
      requires Valid()
      modifies this, Repr(root)
      ensures Valid() && fresh(Repr(root) - old(Repr(root)))
      ensures Contents() == old(Contents()) + [x]
    {
      var at := End();
      Insert(x, at);
    }

    method PushFront(x: Elem<T>)
      requires Valid()
      modifies this, Repr(root)
      ensures Valid() && fresh(Repr(root) - old(Repr(root)))
      ensures Contents() == [x] + old(Contents())
    {
      var at := Begin();
      Insert(x, at);
    }

    method PopBack() returns (r: Option<Elem<T>>)
      requires Valid()
      modifies this, Repr(root)
      ensures Valid() && fresh(Repr(root) - old(Repr(root)))
      ensures r.None? <==> old(Contents()) == []
      ensures r.Some? ==> old(Contents()) == Contents() + [r.value]
      ensures r.None? ==> Contents() == []
    {
      EmptyIff();
      if IsEmpty() {
        return None;
      }
      var at := LastCursor();
      var x := RemoveAt(at);
      r := Some(x);
    }

    method PopFront() returns (r: Option<Elem<T>>)
      requires Valid()
      modifies this, Repr(root)
      ensures Valid() && fresh(Repr(root) - old(Repr(root)))
      ensures r.None? <==> old(Contents()) == []
      ensures r.Some? ==> old(Contents()) == [r.value] + Contents()
      ensures r.None? ==> Contents() == []
    {
      EmptyIff();
      if IsEmpty() {
        return None;
      }
      var at := Begin();
      var x := RemoveAt(at);
      r := Some(x);
    }

    method First() returns (r: Option<Elem<T>>)
      requires Valid()
      ensures r == if Contents() == [] then None else Some(Contents()[0])
    {
      EmptyIff();
      if IsEmpty() {
        return None;
      }
      var at := Begin();
      var x := GetAt(at);
      r := Some(x);
    }

    method Last() returns (r: Option<Elem<T>>)
      requires Valid()
      ensures r == if Contents() == [] then None else Some(Contents()[|Contents()| - 1])
    {
      EmptyIff();
      if IsEmpty() {
        return None;
      }
      var at := LastCursor();
      var x := GetAt(at);
      r := Some(x);
    }

    /** The selected element and where it starts. */
    method GetWithOffset(one: One) returns (r: Option<(Elem<T>, int)>, ghost k: nat)
      requires Valid()
      ensures r.None? <==> SelectsNone(one, Contents())
      ensures r.Some? ==> Selects(one, Contents(), k) && r.value == (Contents()[k], Start(Contents(), k))
      ensures forall x :: one.FirstAfter? && Compares(one.cmp, x) ==>
                            if r.None? then x < 0 || x >= Sum(Contents())
                            else k < |Contents()| && Start(Contents(), k) <= x < Start(Contents(), k + 1)
      ensures forall x :: one.LastBefore? && Compares(one.cmp, x) ==>
                            if r.None? then x <= 0 || x > Sum(Contents())
                            else k < |Contents()| && Start(Contents(), k) < x <= Start(Contents(), k + 1)
    {
      var co;
      co, k := FindOne(one);
      if co.None? {
        return None, k;
      }
      var x := GetAt(co.value.0);
      r := Some((x, co.value.1));
    }

    /** Replaces the selected element as `f` says, which is told where it starts, and
        gives the other result of `f`. */
    method UpdateWith<R>(one: One, f: (Elem<T>, int) -> (Elem<T>, R)) returns (r: Option<R>, ghost k: nat)
      requires Valid()
      modifies this, Repr(root)
      ensures Valid() && fresh(Repr(root) - old(Repr(root)))
      ensures r.None? <==> SelectsNone(one, old(Contents()))
      ensures r.None? ==> Contents() == old(Contents())
      ensures r.Some? ==> var s := old(Contents());
                          && Selects(one, s, k)
                          && (Contents(), r.value) == (s[k := f(s[k], Start(s, k)).0], f(s[k], Start(s, k)).1)
      ensures forall x :: one.FirstAfter? && Compares(one.cmp, x) ==>
                            if r.None? then x < 0 || x >= Sum(old(Contents()))
                            else k < |old(Contents())| && Start(old(Contents()), k) <= x < Start(old(Contents()), k + 1)
      ensures forall x :: one.LastBefore? && Compares(one.cmp, x) ==>
                            if r.None? then x <= 0 || x > Sum(old(Contents()))
                            else k < |old(Contents())| && Start(old(Contents()), k) < x <= Start(old(Contents()), k + 1)
    {
      var co;
      co, k := FindOne(one);
      if co.None? {
        return None, k;
      }
      var offset := co.value.1;
      var result := UpdateAtWith(co.value.0, e => f(e, offset));
      r := Some(result);
    }

    /** Removes the selected element; gives it and where it started. */
    method Remove(one: One) returns (r: Option<(Elem<T>, int)>, ghost k: nat)
      requires Valid()
      modifies this, Repr(root)
      ensures Valid() && fresh(Repr(root) - old(Repr(root)))
      ensures r.None? <==> SelectsNone(one, old(Contents()))
      ensures r.None? ==> Contents() == old(Contents())
      ensures r.Some? ==> var s := old(Contents());
                          && Selects(one, s, k)
                          && r.value == (s[k], Start(s, k))
                          && Contents() == RopeTree.RemoveAt(s, k)
      ensures forall x :: one.FirstAfter? && Compares(one.cmp, x) ==>
                            if r.None? then x < 0 || x >= Sum(old(Contents()))
                            else k < |old(Contents())| && Start(old(Contents()), k) <= x < Start(old(Contents()), k + 1)
      ensures forall x :: one.LastBefore? && Compares(one.cmp, x) ==>
                            if r.None? then x <= 0 || x > Sum(old(Contents()))
                            else k < |old(Contents())| && Start(old(Contents()), k) < x <= Start(old(Contents()), k + 1)
    {
      var co;
      co, k := FindOne(one);
      if co.None? {
        return None, k;
      }
      var x := RemoveAt(co.value.0);
      r := Some((x, co.value.1));
    }

    /** Inserts `x` before the selected element; gives where it starts. */
    method InsertBefore(x: Elem<T>, one: One) returns (r: Option<int>, ghost k: nat)
      requires Valid()
      modifies this, Repr(root)
      ensures Valid() && fresh(Repr(root) - old(Repr(root)))
      ensures r.None? <==> SelectsNone(one, old(Contents()))
      ensures r.None? ==> Contents() == old(Contents())
      ensures r.Some? ==> var s := old(Contents());
                          && Selects(one, s, k)
                          && r.value == Start(s, k)
                          && Contents() == InsertAt(s, k, x)
      ensures forall o :: one.FirstAfter? && Compares(one.cmp, o) ==>
                            if r.None? then o < 0 || o >= Sum(old(Contents()))
                            else k < |old(Contents())| && Start(old(Contents()), k) <= o < Start(old(Contents()), k + 1)
      ensures forall o :: one.LastBefore? && Compares(one.cmp, o) ==>
                            if r.None? then o <= 0 || o > Sum(old(Contents()))
                            else k < |old(Contents())| && Start(old(Contents()), k) < o <= Start(old(Contents()), k + 1)
    {
      var co;
      co, k := FindOne(one);
      if co.None? {
        return None, k;
      }
      Insert(x, co.value.0);
      r := Some(co.value.1);
    }
  }

  lemma {:induction false} StartWithin<T>(s: seq<Elem<T>>, pos: nat, part: seq<Elem<T>>, i: nat)
    requires i <= |part| && pos + |part| <= |s| && s[pos..pos + |part|] == part
    ensures Start(s, pos + i) == Start(s, pos) + Start(part, i)
  {
    assert s[..pos + i] == s[..pos] + part[..i];
    SumApp(s[..pos], part[..i]);
  }

  lemma {:induction false} StartOfChild<T>(t: Tree<T>, path: seq<nat>, sub: Tree<T>, pos: int, i: nat)
    requires Leads(t, path, sub, pos) && sub.Inner? && i < |sub.children|
    ensures 0 <= pos && pos + |FlatAll(sub.children[..i])| <= |Flat(t)|
    ensures Start(Flat(t), pos + |FlatAll(sub.children[..i])|) == Start(Flat(t), pos) + Before(sub.children, i)
  {
    LeadsFlat(t, path, sub, pos);
    BeforeIsSum(sub.children, i);
    FlatSplit(sub.children, i);
    var l := FlatAll(sub.children[..i]);
    assert Flat(sub)[..|l|] == l;
    StartWithin(Flat(t), pos, Flat(sub), |l|);
  }

  lemma {:induction false} SumInsertAt<T>(t: Tree<T>, at: seq<nat>, x: Elem<T>)
    requires CursorOk(t, at)
    ensures Pos(t, at) <= |Flat(t)| && Sum(InsertAt(Flat(t), Pos(t, at), x)) == Size(t) + x.len
  {
    PosInRange(t, at);
    SumInsert(Flat(t), Pos(t, at), x);
  }

  lemma {:induction false} RootGrows<T>(t: Tree<T>, at: seq<nat>, x: Elem<T>, c: Tree<T>, s: Tree<T>, len: int, h: nat)
    requires CursorOk(t, at) && Inserted(t, at, x, c, [s], h, RootMin(h)) && len == Size(c)
    ensures RootShape(Inner([c, s], [len]), h + 1)
    ensures Flat(Inner([c, s], [len])) == InsertAt(Flat(t), Pos(t, at), x)
  {
    InsertedPair(t, at, x, c, s, h, RootMin(h));
    FlatPair(c, s);
    assert Before([c, s], 1) == Size(c);
    assert Inner([c, s], [len]) == Pair(c, s);
  }
}
