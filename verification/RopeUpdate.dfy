/** Updating an element in place, with the offsets above it (`update_at_with`). */
module RopeUpdate {
  import opened RopeTree
  import opened RopeNodes
  import opened RopeInsert
  import opened RopeRemove

  /** What replacing the element at `at` of the tree `t` as `f` says leaves in `node`. */
  ghost predicate Updated<T, R>(t: Tree<T>, at: seq<nat>, f: Elem<T> -> (Elem<T>, R), node: Tree<T>, delta: int, h: nat,
                                lo: nat)
    requires CursorOk(t, at)
  {
    && Pos(t, at) < |Flat(t)|
    && var e := Flat(t)[Pos(t, at)];
    && Flat(node) == Flat(t)[Pos(t, at) := f(e).0]
    && delta == f(e).0.len - e.len
    && Shape(node, h, lo)
  }

  lemma {:induction false} SumUpdate<T>(s: seq<Elem<T>>, p: nat, y: Elem<T>)
    requires p < |s|
    ensures Sum(s[p := y]) == Sum(s) + y.len - s[p].len
  {
    SumRemove(s, p);
    SumInsert(RopeTree.RemoveAt(s, p), p, y);
    assert InsertAt(RopeTree.RemoveAt(s, p), p, y) == s[p := y];
  }

  lemma {:induction false} UpdateBelow<A>(l: seq<A>, m: seq<A>, r: seq<A>, p: nat, y: A)
    requires p < |m|
    ensures l + m[p := y] + r == (l + m + r)[|l| + p := y]
    ensures (l + m + r)[|l| + p] == m[p]
  {
  }

  /** What becomes of the inner node `t` when an element below its child `at[0]` is replaced. */
  lemma {:induction false} UpdatedInner<T, R>(t: Tree<T>, at: seq<nat>, f: Elem<T> -> (Elem<T>, R), c: Tree<T>,
                                              delta: int, h: nat, lo: nat)
    requires t.Inner? && Shape(t, h, lo) && CursorOk(t, at)
    requires Updated(t.children[at[0]], at[1..], f, c, delta, h - 1, ORDER)
    ensures Updated(t, at, f, Inner(t.children[at[0] := c], Bump(t.offsets, at[0], delta)), delta, h, lo)
  {
    var ts, i := t.children, at[0];
    var p := Pos(ts[i], at[1..]);
    var y := f(Flat(ts[i])[p]).0;
    SumUpdate(Flat(ts[i]), p, y);
    OffsetsReplace(ts, t.offsets, i, c, delta);
    FlatReplace(ts, i, c);
    FlatSplit(ts, i);
    UpdateBelow(FlatAll(ts[..i]), Flat(ts[i]), FlatAll(ts[i + 1..]), p, y);
    ShapeReplaced(ts, i, c, h - 1);
  }

  /** Replaces the element at `at` as `f` says; gives the change of its length, and the
      other result of `f`. */
  method UpdateSub<T, R>(at: seq<nat>, node: NodeRef<T>, f: Elem<T> -> (Elem<T>, R), ghost t: Tree<T>, ghost h: nat,
                         ghost lo: nat)
    returns (delta: int, result: R)
    requires Valid(node) && TreeOf(node) == t && Shape(t, h, lo) && ElemCursor(t, at)
    modifies Repr(node)
    ensures Valid(node) && Repr(node) <= old(Repr(node))
    ensures CursorOk(t, at) && Updated(t, at, f, TreeOf(node), delta, h, lo)
    ensures result == f(Flat(t)[Pos(t, at)]).1
    decreases |at|
  {
    ElemCursorOk(t, at);
    var i := at[0];
    match node {
      case LeafRef(leaf) =>
        var e := leaf.elements[i];
        var (e2, res) := f(e);
        leaf.elements := leaf.elements[i := e2];
        delta, result := e2.len - e.len, res;
      case Internal(inode) =>
        ghost var l, q := OwnsAround(inode.children, t.children, inode.below, i);
        assert ShapeAll(t.children, h - 1);
        assert Shape(t.children[i], h - 1, ORDER);
        delta, result := UpdateSub(at[1..], inode.children[i], f, t.children[i], h - 1, ORDER);
        UpdatedInner(t, at, f, TreeOf(inode.children[i]), delta, h, lo);
        AtBelow(t, at);
        Settle(inode, i, delta, t.children, l, q);
    }
  }

  /** An element of a child is that element of its parent. */
  lemma {:induction false} AtBelow<T>(t: Tree<T>, at: seq<nat>)
    requires t.Inner? && CursorOk(t, at) && Pos(t.children[at[0]], at[1..]) < |Flat(t.children[at[0]])|
    ensures Pos(t, at) < |Flat(t)| && Flat(t)[Pos(t, at)] == Flat(t.children[at[0]])[Pos(t.children[at[0]], at[1..])]
  {
    var ts, i := t.children, at[0];
    FlatSplit(ts, i);
    RemoveBelow(FlatAll(ts[..i]), Flat(ts[i]), FlatAll(ts[i + 1..]), Pos(ts[i], at[1..]));
  }
}
