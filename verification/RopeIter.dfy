/** The double-ended iterator over a range of a rope: two places, each held as the
    nodes on the way to it and an index array padded to a fixed length. */
module RopeIter {
  import opened Wrappers
  import opened RopeTree
  import opened RopeCursor
  import opened RopeNodes
  import R = Rope

  const EMPTY_INDEX: nat := 255

  type NodePath<T> = seq<NodeRef<T>>

  /** The rope is small enough for its cursors to fit the index arrays. */
  ghost predicate Fits<T>(rope: R.Rope<T>)
    reads rope, Top(rope.root), Repr(rope.root)
  {
    rope.Valid() && rope.height + 1 <= CURSOR_LEN
  }

  lemma SmallFits<T>(rope: R.Rope<T>)
    requires rope.Valid() && |rope.Contents()| < 2 * Pow(ORDER, CURSOR_LEN)
    ensures Fits(rope)
  {
    DepthBound(rope.Tree(), rope.height);
  }

  ghost predicate Reaches<T>(t: Tree<T>, path: seq<nat>, sub: Tree<T>) {
    exists pos :: Leads(t, path, sub, pos)
  }

  /** `path[j]` is the node that the first `j` indices lead to. */
  ghost predicate PathOk<T>(rope: R.Rope<T>, path: NodePath<T>, indices: seq<nat>)
    reads rope, Top(rope.root), Repr(rope.root)
  {
    && |indices| == CURSOR_LEN
    && |path| <= rope.height + 1 <= CURSOR_LEN
    && (forall j :: 0 <= j < |path| ==>
          && Top(path[j]) in Repr(rope.root)
          && Repr(path[j]) <= Repr(rope.root)
          && Valid(path[j])
          && Reaches(rope.Tree(), indices[..j], TreeOf(path[j])))
    && (forall j :: |path| <= j < CURSOR_LEN ==> indices[j] == EMPTY_INDEX)
  }

  /** `path` and `indices` stand for place `k`; an empty path is the place past the end. */
  ghost predicate IterAt<T>(rope: R.Rope<T>, path: NodePath<T>, indices: seq<nat>, k: nat)
    reads rope, Top(rope.root), Repr(rope.root)
  {
    && PathOk(rope, path, indices)
    && if path == [] then k == |rope.Contents()| else
         && |path| == rope.height + 1
         && ElemCursor(rope.Tree(), indices[..|path|])
         && CursorOk(rope.Tree(), indices[..|path|])
         && Pos(rope.Tree(), indices[..|path|]) == k < |rope.Contents()|
  }

  /** The last node of the path is inner and starts at place `pos`, and child
      `indices[last]` of it ends at (`after`) or starts at (otherwise) place `m`;
      an empty path stands for the end or the start of the rope. */
  ghost predicate Edge<T>(rope: R.Rope<T>, path: NodePath<T>, indices: seq<nat>, pos: int, m: nat, after: bool)
    reads rope, Top(rope.root), Repr(rope.root)
  {
    && PathOk(rope, path, indices)
    && if path == [] then m == (if after then |rope.Contents()| else 0) else
         var d := |path| - 1;
         var t := TreeOf(path[d]);
         && t.Inner? && indices[d] < |t.children|
         && Leads(rope.Tree(), indices[..d], t, pos)
         && m == pos + |FlatAll(t.children[..indices[d] + (if after then 1 else 0)])|
  }

  /** The place of the last node on a path. */
  lemma {:induction false} PathPos<T>(rope: R.Rope<T>, path: NodePath<T>, indices: seq<nat>, j: nat) returns (pos: int)
    requires rope.Valid() && PathOk(rope, path, indices) && j < |path|
    ensures Leads(rope.Tree(), indices[..j], TreeOf(path[j]), pos)
    ensures Shape(TreeOf(path[j]), rope.height - j, if j == 0 then RootMin(rope.height) else ORDER)
    ensures path[j].Internal? ==> |path[j].inode.children| == |path[j].inode.trees| >= 2
    ensures path[j].Internal? <==> j < rope.height
  {
    assert Reaches(rope.Tree(), indices[..j], TreeOf(path[j]));
    pos :| Leads(rope.Tree(), indices[..j], TreeOf(path[j]), pos);
    rope.Here(indices[..j], path[j], pos);
  }

  /** The last index of a path does not bear on its nodes. */
  lemma {:induction false} PathTouch<T>(rope: R.Rope<T>, path: NodePath<T>, indices: seq<nat>, v: nat)
    requires rope.Valid() && PathOk(rope, path, indices) && path != []
    ensures PathOk(rope, path, indices[|path| - 1 := v])
  {
    var ix := indices[|path| - 1 := v];
    forall j | 0 <= j < |path| ensures Reaches(rope.Tree(), ix[..j], TreeOf(path[j])) {
      assert ix[..j] == indices[..j];
    }
  }

  lemma {:induction false} PathPop<T>(rope: R.Rope<T>, path: NodePath<T>, indices: seq<nat>)
    requires rope.Valid() && PathOk(rope, path, indices) && path != []
    ensures PathOk(rope, path[..|path| - 1], indices[|path| - 1 := EMPTY_INDEX])
  {
    PathTouch(rope, path, indices, EMPTY_INDEX);
  }

  /** Appending the child that the last index names to a path. */
  lemma {:induction false} PathPush<T>(rope: R.Rope<T>, path: NodePath<T>, indices: seq<nat>, pos: int)
    requires rope.Valid() && PathOk(rope, path, indices) && path != []
    requires var n := path[|path| - 1];
             && n.Internal? && indices[|path| - 1] < |n.inode.children|
             && Leads(rope.Tree(), indices[..|path| - 1], TreeOf(n), pos)
    ensures var n, i := path[|path| - 1].inode, indices[|path| - 1];
            && |n.children| == |n.trees|
            && PathOk(rope, path + [n.children[i]], indices)
            && TreeOf(n.children[i]) == n.trees[i]
            && Leads(rope.Tree(), indices[..|path|], n.trees[i], pos + |FlatAll(n.trees[..i])|)
  {
    var d := |path| - 1;
    var n, i := path[d].inode, indices[d];
    rope.Descend(indices[..d], path[d], pos, i);
    assert indices[..d] + [i] == indices[..d + 1];
    assert Owns(n.children, n.trees, n.below);
    var q := path + [n.children[i]];
    forall j | 0 <= j < |q| ensures Top(q[j]) in Repr(rope.root) && Repr(q[j]) <= Repr(rope.root) && Valid(q[j])
                                    && Reaches(rope.Tree(), indices[..j], TreeOf(q[j])) {
      if j <= d {
        assert q[j] == path[j];
      }
    }
  }

  /** A path to a leaf and an index into it. */
  lemma {:induction false} PathToLeaf<T>(rope: R.Rope<T>, path: NodePath<T>, indices: seq<nat>, pos: int)
    requires rope.Valid() && PathOk(rope, path, indices) && path != []
    requires var n := path[|path| - 1];
             && n.LeafRef? && indices[|path| - 1] < |n.leaf.elements|
             && Leads(rope.Tree(), indices[..|path| - 1], TreeOf(n), pos)
    ensures pos >= 0 && IterAt(rope, path, indices, pos + indices[|path| - 1])
    ensures path[|path| - 1].leaf.elements[indices[|path| - 1]] == rope.Contents()[pos + indices[|path| - 1]]
  {
    var d := |path| - 1;
    var _ := PathPos(rope, path, indices, d);
    assert indices[..d] + [indices[d]] == indices[..d + 1];
    LeadsCursor(rope.Tree(), indices[..d], TreeOf(path[d]), pos, indices[d]);
    LeadsFlat(rope.Tree(), indices[..d], TreeOf(path[d]), pos);
    var es := path[d].leaf.elements;
    assert rope.Contents()[pos..pos + |es|][indices[d]] == es[indices[d]];
  }

  /** Where the path of a place in the rope ends. */
  lemma {:induction false} LeafOfPath<T>(rope: R.Rope<T>, path: NodePath<T>, indices: seq<nat>, k: nat)
    returns (pos: int)
    requires rope.Valid() && IterAt(rope, path, indices, k) && path != []
    ensures var d := |path| - 1;
            && path[d].LeafRef? && Leads(rope.Tree(), indices[..d], TreeOf(path[d]), pos)
            && indices[d] < |path[d].leaf.elements| && k == pos + indices[d]
            && path[d].leaf.elements[indices[d]] == rope.Contents()[k]
  {
    var d := |path| - 1;
    pos := PathPos(rope, path, indices, d);
    var leaf, start := CursorLeads(rope.Tree(), indices[..d + 1]);
    assert indices[..d + 1][..d] == indices[..d];
    LeadsUnique(rope.Tree(), indices[..d], leaf, start, TreeOf(path[d]), pos);
    PathToLeaf(rope, path, indices, pos);
  }

  /** Goes down to the first element below the last node of a path. */
  method FirstBelow<T>(ghost rope: R.Rope<T>, path0: NodePath<T>, indices0: seq<nat>, ghost m: nat)
    returns (path: NodePath<T>, indices: seq<nat>)
    requires rope.Valid() && PathOk(rope, path0, indices0) && path0 != [] && rope.Contents() != []
    requires Leads(rope.Tree(), indices0[..|path0| - 1], TreeOf(path0[|path0| - 1]), m)
    ensures IterAt(rope, path, indices, m) && path != []
  {
    path, indices := path0, indices0;
    var cur := path[|path| - 1];
    indices := indices[|path| - 1 := 0];
    PathTouch(rope, path0, indices0, 0);
    assert indices[..|path| - 1] == indices0[..|path| - 1];
    while cur.Internal?
      invariant PathOk(rope, path, indices) && path != [] && cur == path[|path| - 1] && indices[|path| - 1] == 0
      invariant Leads(rope.Tree(), indices[..|path| - 1], TreeOf(cur), m)
      decreases rope.height - |path| + 1
    {
      var _ := PathPos(rope, path, indices, |path| - 1);
      PathPush(rope, path, indices, m);
      cur := cur.inode.children[0];
      path := path + [cur];
      PathTouch(rope, path, indices, 0);
      ghost var was := indices;
      indices := indices[|path| - 1 := 0];
      assert indices[..|path| - 1] == was[..|path| - 1];
    }
    LeafNotEmpty(rope, path, indices);
    PathToLeaf(rope, path, indices, m);
  }

  lemma {:induction false} LeafNotEmpty<T>(rope: R.Rope<T>, path: NodePath<T>, indices: seq<nat>)
    requires rope.Valid() && PathOk(rope, path, indices) && path != [] && rope.Contents() != []
    requires path[|path| - 1].LeafRef?
    ensures path[|path| - 1].leaf.elements != []
  {
    var pos := PathPos(rope, path, indices, |path| - 1);
  }

  /** One step down to the last child. */
  lemma {:induction false} StepLast<T>(rope: R.Rope<T>, path: NodePath<T>, indices: seq<nat>, pos: int)
    requires rope.Valid() && PathOk(rope, path, indices) && path != [] && path[|path| - 1].Internal?
    requires Leads(rope.Tree(), indices[..|path| - 1], TreeOf(path[|path| - 1]), pos)
    ensures var d, n := |path| - 1, path[|path| - 1].inode;
            var i := |n.children| - 1;
            && 0 <= i && |n.children| == |n.trees|
            && var ix := indices[d := i];
            && PathOk(rope, path + [n.children[i]], ix)
            && TreeOf(n.children[i]) == n.trees[i]
            && Leads(rope.Tree(), ix[..d + 1], n.trees[i], pos + |FlatAll(n.trees[..i])|)
            && |Flat(TreeOf(path[d]))| == |FlatAll(n.trees[..i])| + |Flat(n.trees[i])|
  {
    var d, n := |path| - 1, path[|path| - 1].inode;
    var _ := PathPos(rope, path, indices, d);
    var i := |n.children| - 1;
    PathTouch(rope, path, indices, i);
    var ix := indices[d := i];
    assert ix[..d] == indices[..d];
    PathPush(rope, path, ix, pos);
    FlatSplit(n.trees, i);
    assert n.trees[i + 1..] == [];
  }

  /** Goes down to the last element below the last node of a path. */
  method LastBelow<T>(ghost rope: R.Rope<T>, path0: NodePath<T>, indices0: seq<nat>, ghost start: int, ghost m: nat)
    returns (path: NodePath<T>, indices: seq<nat>)
    requires rope.Valid() && PathOk(rope, path0, indices0) && path0 != [] && rope.Contents() != []
    requires Leads(rope.Tree(), indices0[..|path0| - 1], TreeOf(path0[|path0| - 1]), start)
    requires m + 1 == start + |Flat(TreeOf(path0[|path0| - 1]))|
    ensures IterAt(rope, path, indices, m) && path != []
  {
    hide Leads, FlatAll, IterAt;
    path, indices := path0, indices0;
    var cur := path[|path| - 1];
    ghost var pos := start;
    while cur.Internal?
      invariant PathOk(rope, path, indices) && path != [] && cur == path[|path| - 1]
      invariant Leads(rope.Tree(), indices[..|path| - 1], TreeOf(cur), pos) && m + 1 == pos + |Flat(TreeOf(cur))|
      decreases rope.height - |path| + 1
    {
      StepLast(rope, path, indices, pos);
      var i := |cur.inode.children| - 1;
      pos := pos + |FlatAll(cur.inode.trees[..i])|;
      indices := indices[|path| - 1 := i];
      cur := cur.inode.children[i];
      path := path + [cur];
    }
    LeafEnd(rope, path, indices, pos);
    indices := indices[|path| - 1 := |cur.leaf.elements| - 1];
  }

  lemma {:induction false} LeafEnd<T>(rope: R.Rope<T>, path: NodePath<T>, indices: seq<nat>, pos: int)
    requires rope.Valid() && PathOk(rope, path, indices) && path != [] && rope.Contents() != []
    requires path[|path| - 1].LeafRef? && Leads(rope.Tree(), indices[..|path| - 1], TreeOf(path[|path| - 1]), pos)
    ensures var d := |path| - 1;
            var n := |path[d].leaf.elements|;
            n > 0 && pos + n > 0 && IterAt(rope, path, indices[d := n - 1], pos + n - 1)
  {
    var d := |path| - 1;
    LeafNotEmpty(rope, path, indices);
    var i := |path[d].leaf.elements| - 1;
    PathTouch(rope, path, indices, i);
    assert indices[d := i][..d] == indices[..d];
    PathToLeaf(rope, path, indices[d := i], pos);
  }

  /** Popping a node off a path whose last node ends, or starts, at place `m`. */
  lemma {:induction false} EdgeUp<T>(rope: R.Rope<T>, path: NodePath<T>, indices: seq<nat>, pos: int, m: nat,
                                     after: bool)
    returns (up: int)
    requires rope.Valid() && PathOk(rope, path, indices) && path != []
    requires Leads(rope.Tree(), indices[..|path| - 1], TreeOf(path[|path| - 1]), pos)
    requires m == pos + if after then |Flat(TreeOf(path[|path| - 1]))| else 0
    ensures Edge(rope, path[..|path| - 1], indices[|path| - 1 := EMPTY_INDEX], up, m, after)
  {
    var d, t := |path| - 1, rope.Tree();
    PathPop(rope, path, indices);
    up := 0;
    if d == 0 {
      assert indices[..0] == [];
      assert Reaches(t, [], TreeOf(path[0]));
    } else {
      assert indices[..d - 1] + [indices[d - 1]] == indices[..d];
      var parent, start := LeadsParent(t, indices[..d - 1], indices[d - 1], TreeOf(path[d]), pos);
      up := PathPos(rope, path, indices, d - 1);
      LeadsUnique(t, indices[..d - 1], parent, start, TreeOf(path[d - 1]), up);
      var ix := indices[d := EMPTY_INDEX];
      assert ix[..d - 1] == indices[..d - 1];
      FlatNext(parent.children, indices[d - 1]);
    }
  }

  lemma {:induction false} FlatNext<T>(ts: seq<Tree<T>>, i: nat)
    requires i < |ts|
    ensures |FlatAll(ts[..i + 1])| == |FlatAll(ts[..i])| + |Flat(ts[i])|
  {
    FlatSplit(ts[..i + 1], i);
    assert ts[..i + 1][..i] == ts[..i] && ts[..i + 1][i + 1..] == [];
  }

  /** The child after the one that ends at place `m`, if there is one. */
  lemma {:induction false} EdgeNext<T>(rope: R.Rope<T>, path: NodePath<T>, indices: seq<nat>, pos: int, m: nat)
    requires rope.Valid() && Edge(rope, path, indices, pos, m, true) && path != []
    ensures var d := |path| - 1;
            var i, ix := indices[d] + 1, indices[d := indices[d] + 1];
            && path[d].Internal? && i <= |path[d].inode.children| == |path[d].inode.trees|
            && PathOk(rope, path, ix) && Leads(rope.Tree(), ix[..d], TreeOf(path[d]), pos)
            && m == pos + |FlatAll(path[d].inode.trees[..i])|
            && (i == |path[d].inode.children| ==> m == pos + |Flat(TreeOf(path[d]))|)
  {
    var d := |path| - 1;
    var _ := PathPos(rope, path, indices, d);
    PathTouch(rope, path, indices, indices[d] + 1);
    assert indices[d := indices[d] + 1][..d] == indices[..d];
    var ts := path[d].inode.trees;
    assert ts[..|ts|] == ts;
  }

  /** The child before the one that starts at place `k`, if there is one. */
  lemma {:induction false} EdgePrev<T>(rope: R.Rope<T>, path: NodePath<T>, indices: seq<nat>, pos: int, k: nat)
    requires rope.Valid() && Edge(rope, path, indices, pos, k, false) && path != []
    ensures var d := |path| - 1;
            && path[d].Internal? && indices[d] < |path[d].inode.children| == |path[d].inode.trees|
            && (indices[d] == 0 ==> k == pos)
            && (indices[d] > 0 ==>
                  var i, ix := indices[d] - 1, indices[d := indices[d] - 1];
                  && PathOk(rope, path, ix) && Leads(rope.Tree(), ix[..d], TreeOf(path[d]), pos)
                  && k == pos + |FlatAll(path[d].inode.trees[..i])| + |Flat(path[d].inode.trees[i])|)
  {
    var d := |path| - 1;
    var _ := PathPos(rope, path, indices, d);
    var ts := path[d].inode.trees;
    if indices[d] > 0 {
      PathTouch(rope, path, indices, indices[d] - 1);
      assert indices[d := indices[d] - 1][..d] == indices[..d];
      FlatNext(ts, indices[d] - 1);
    } else {
      assert ts[..0] == [];
    }
  }

  /** Moves on by one element. */
  method MoveForward<T>(ghost rope: R.Rope<T>, path0: NodePath<T>, indices0: seq<nat>, ghost k: nat)
    returns (path: NodePath<T>, indices: seq<nat>)
    requires rope.Valid() && IterAt(rope, path0, indices0, k) && path0 != []
    ensures IterAt(rope, path, indices, k + 1)
  {
    path, indices := path0, indices0;
    ghost var pos := LeafOfPath(rope, path, indices, k);
    var level := |path| - 1;
    PathTouch(rope, path, indices, indices[level] + 1);
    indices := indices[level := indices[level] + 1];
    assert indices[..level] == indices0[..level];
    if indices[level] < |path[level].leaf.elements| {
      PathToLeaf(rope, path, indices, pos);
      return;
    }
    pos := EdgeUp(rope, path, indices, pos, k + 1, true);
    indices := indices[level := EMPTY_INDEX];
    path := path[..level];
    path, indices := NextLeaf(rope, path, indices, pos, k + 1);
  }

  /** Climbs from a leaf that ends at place `m` until there is a child to the right,
      and goes down to the first element below it. */
  method NextLeaf<T>(ghost rope: R.Rope<T>, path0: NodePath<T>, indices0: seq<nat>, ghost start: int, ghost m: nat)
    returns (path: NodePath<T>, indices: seq<nat>)
    requires rope.Valid() && rope.Contents() != [] && Edge(rope, path0, indices0, start, m, true)
    ensures IterAt(rope, path, indices, m)
  {
    hide Leads, Flat, FlatAll, Shape, RootShape, ElemCursor, CursorOk, Pos, Reaches;
    path, indices := path0, indices0;
    ghost var pos := start;
    while |path| > 0
      invariant Edge(rope, path, indices, pos, m, true)
      decreases |path|
    {
      var level := |path| - 1;
      EdgeNext(rope, path, indices, pos, m);
      indices := indices[level := indices[level] + 1];
      var children := path[level].inode.children;
      var i := indices[level];
      if i >= |children| {
        pos := EdgeUp(rope, path, indices, pos, m, true);
        indices := indices[level := EMPTY_INDEX];
        path := path[..level];
      } else {
        PathPush(rope, path, indices, pos);
        path := path + [children[i]];
        path, indices := FirstBelow(rope, path, indices, m);
        return;
      }
    }
  }

  /** Moves back by one element; from the first element, past the end. */
  method MoveBackward<T>(ghost rope: R.Rope<T>, path0: NodePath<T>, indices0: seq<nat>, ghost k: nat)
    returns (path: NodePath<T>, indices: seq<nat>)
    requires rope.Valid() && IterAt(rope, path0, indices0, k) && path0 != []
    ensures IterAt(rope, path, indices, if k == 0 then |rope.Contents()| else k - 1)
    ensures path == [] <==> k == 0
  {
    path, indices := path0, indices0;
    ghost var pos := LeafOfPath(rope, path, indices, k);
    var level := |path| - 1;
    if indices[level] > 0 {
      PathTouch(rope, path, indices, indices[level] - 1);
      indices := indices[level := indices[level] - 1];
      assert indices[..level] == indices0[..level];
      PathToLeaf(rope, path, indices, pos);
      return;
    }
    pos := EdgeUp(rope, path, indices, pos, k, false);
    indices := indices[level := EMPTY_INDEX];
    path := path[..level];
    path, indices := PrevLeaf(rope, path, indices, pos, k);
  }

  /** Climbs from a leaf that starts at place `k` until there is a child to the left,
      and goes down to the last element below it. */
  method PrevLeaf<T>(ghost rope: R.Rope<T>, path0: NodePath<T>, indices0: seq<nat>, ghost start: int, ghost k: nat)
    returns (path: NodePath<T>, indices: seq<nat>)
    requires rope.Valid() && rope.Contents() != [] && Edge(rope, path0, indices0, start, k, false)
    ensures IterAt(rope, path, indices, if k == 0 then |rope.Contents()| else k - 1)
    ensures path == [] <==> k == 0
  {
    hide Leads, Flat, FlatAll, Shape, RootShape, ElemCursor, CursorOk, Pos, Reaches;
    path, indices := path0, indices0;
    ghost var pos := start;
    while |path| > 0
      invariant Edge(rope, path, indices, pos, k, false)
      decreases |path|
    {
      var level := |path| - 1;
      EdgePrev(rope, path, indices, pos, k);
      var children := path[level].inode.children;
      if indices[level] == 0 {
        pos := EdgeUp(rope, path, indices, pos, k, false);
        indices := indices[level := EMPTY_INDEX];
        path := path[..level];
      } else {
        var i := indices[level] - 1;
        indices := indices[level := i];
        ghost var at := EnterPrev(rope, path, indices, pos, k);
        path := path + [children[i]];
        path, indices := LastBelow(rope, path, indices, at, k - 1);
        return;
      }
    }
  }

  /** Entering the child before place `k`. */
  lemma {:induction false} EnterPrev<T>(rope: R.Rope<T>, path: NodePath<T>, indices: seq<nat>, pos: int, k: nat)
    returns (at: int)
    requires rope.Valid() && PathOk(rope, path, indices) && path != []
    requires var d := |path| - 1;
             && path[d].Internal? && indices[d] < |path[d].inode.children| == |path[d].inode.trees|
             && Leads(rope.Tree(), indices[..d], TreeOf(path[d]), pos)
             && k == pos + |FlatAll(path[d].inode.trees[..indices[d]])| + |Flat(path[d].inode.trees[indices[d]])|
    ensures var d := |path| - 1;
            var c := path[d].inode.children[indices[d]];
            && PathOk(rope, path + [c], indices) && Leads(rope.Tree(), indices[..d + 1], TreeOf(c), at)
            && k > 0 && k == at + |Flat(TreeOf(c))|
  {
    var d := |path| - 1;
    PathPush(rope, path, indices, pos);
    at := pos + |FlatAll(path[d].inode.trees[..indices[d]])|;
    NodeNotEmpty(rope, path + [path[d].inode.children[indices[d]]], indices, at);
  }

  lemma {:induction false} NodeNotEmpty<T>(rope: R.Rope<T>, path: NodePath<T>, indices: seq<nat>, pos: int)
    requires rope.Valid() && PathOk(rope, path, indices) && |path| > 1
    requires Leads(rope.Tree(), indices[..|path| - 1], TreeOf(path[|path| - 1]), pos)
    ensures Flat(TreeOf(path[|path| - 1])) != [] && pos >= 0
  {
    var d := |path| - 1;
    var _ := PathPos(rope, path, indices, d);
    NotEmpty(TreeOf(path[d]), rope.height - d);
    LeadsFlat(rope.Tree(), indices[..d], TreeOf(path[d]), pos);
  }

  // ----- order of places --------------------------------------------------------

  lemma {:induction false} LexPadded(a: seq<nat>, b: seq<nat>, x: seq<nat>, y: seq<nat>)
    requires |a| == |b|
    ensures LexLess(a + x, b + y) <==> LexLess(a, b) || (a == b && LexLess(x, y))
  {
    if a == [] {
      assert a + x == x && b + y == y;
    } else {
      assert (a + x)[1..] == a[1..] + x && (b + y)[1..] == b[1..] + y;
      LexPadded(a[1..], b[1..], x, y);
      assert a == [a[0]] + a[1..] && b == [b[0]] + b[1..];
    }
  }

  lemma {:induction false} LexIrreflexive(a: seq<nat>)
    ensures !LexLess(a, a)
  {
    if a != [] {
      LexIrreflexive(a[1..]);
    }
  }

  /** Comparing index arrays compares places, the place past the end included. */
  lemma {:induction false} PlaceOrder<T>(rope: R.Rope<T>, p: NodePath<T>, a: seq<nat>, j: nat, q: NodePath<T>,
                                         b: seq<nat>, k: nat)
    requires rope.Valid() && IterAt(rope, p, a, j) && IterAt(rope, q, b, k)
    ensures LexLess(a, b) <==> j < k
    ensures a == b <==> j == k
    ensures j <= |rope.Contents()|
  {
    var t, h := rope.Tree(), rope.height;
    if p != [] {
      CursorLength(t, a[..h + 1], h, RootMin(h));
      assert a[0] == a[..h + 1][0];
    }
    if q != [] {
      CursorLength(t, b[..h + 1], h, RootMin(h));
      assert b[0] == b[..h + 1][0];
    }
    if p != [] && q != [] {
      CursorOrder(t, a[..h + 1], b[..h + 1], h, RootMin(h));
      assert a == a[..h + 1] + a[h + 1..] && b == b[..h + 1] + b[h + 1..];
      assert a[h + 1..] == b[h + 1..];
      LexPadded(a[..h + 1], b[..h + 1], a[h + 1..], b[h + 1..]);
      LexIrreflexive(a[h + 1..]);
    } else if p == [] && q == [] {
      assert a == b;
      LexIrreflexive(a);
    }
  }

  // ----- ranges -----------------------------------------------------------------

  /** An end of a range; a position inside an element is rounded down or up. */
  datatype RangeEdge = Floor(cmp: int -> R.Ordering) | Ceil(cmp: int -> R.Ordering)

  /** Floor stops at the first element ending after the position, Ceil after the
      last element starting before it, that is, after the first ending at or
      after it. */
  function EdgeTest(e: RangeEdge): int -> bool {
    match e
    case Floor(cmp) => R.Beyond(R.FirstAfter(cmp))
    case Ceil(cmp) => R.Beyond(R.LastBefore(cmp))
  }

  /** The place an end of a range is rounded to, by scanning from the left. */
  ghost function Rounded<T>(e: RangeEdge, s: seq<Elem<T>>): nat {
    var f := EdgeTest(e);
    if f(0) then 0
    else if !f(Sum(s)) then |s|
    else R.Scan(s, f, 0) + if e.Ceil? then 1 else 0
  }

  /** Floor is the last place that starts at or before the reference value, Ceil the
      first that starts at or after it. */
  lemma {:induction false} RoundedPlace<T>(e: RangeEdge, s: seq<Elem<T>>, x: int)
    requires R.NonNegative(s) && R.Compares(e.cmp, x)
    ensures Rounded(e, s) <= |s|
    ensures e.Floor? ==> forall j :: 0 < j <= |s| ==> (R.Start(s, j) <= x <==> j <= Rounded(e, s))
    ensures e.Ceil? ==> forall j :: 0 <= j < |s| ==> (x <= R.Start(s, j) <==> Rounded(e, s) <= j)
  {
    var f, k := EdgeTest(e), Rounded(e, s);
    assert forall o :: f(o) <==> if e.Floor? then o > x else o >= x;
    assert s[..|s|] == s;
    assert R.Start(s, 0) == 0 && R.Start(s, |s|) == Sum(s);
    hide R.Compares, R.Start, R.NonNegative, Sum;
    if !f(0) && f(Sum(s)) {
      R.ScanFinds(s, f, 0);
    }
    forall j | 0 <= j <= |s|
      ensures e.Floor? && j > 0 ==> (R.Start(s, j) <= x <==> j <= k)
      ensures e.Ceil? && j < |s| ==> (x <= R.Start(s, j) <==> k <= j)
    {
      R.StartUp(s, 0, j);
      R.StartUp(s, j, |s|);
      if !f(0) && f(Sum(s)) {
        var m := R.Scan(s, f, 0);
        if j <= m {
          R.StartUp(s, j, m);
        } else {
          R.StartUp(s, m + 1, j);
        }
      }
    }
  }

  /** Place `k` is the last that starts at or before `x`, or 0; where it starts is the
      greatest element boundary that is at most `x`, or 0. */
  ghost predicate FloorAt<T>(s: seq<Elem<T>>, x: int, k: nat, o: int) {
    && k <= |s| && o == R.Start(s, k)
    && (forall j :: 0 < j <= |s| ==> (R.Start(s, j) <= x <==> j <= k))
    && (o <= x || o == 0)
    && (forall j :: 0 <= j <= |s| && R.Start(s, j) <= x ==> R.Start(s, j) <= o)
  }

  /** Place `k` is the first that starts at or after `x`, or the end; where it starts
      is the least element boundary that is at least `x`, or the end. */
  ghost predicate CeilAt<T>(s: seq<Elem<T>>, x: int, k: nat, o: int) {
    && k <= |s| && o == R.Start(s, k)
    && (forall j :: 0 <= j < |s| ==> (x <= R.Start(s, j) <==> k <= j))
    && (x <= o || o == Sum(s))
    && (forall j :: 0 <= j <= |s| && x <= R.Start(s, j) ==> o <= R.Start(s, j))
  }

  /** What an end of a range is rounded to if its comparator is made from `x`. */
  lemma {:induction false} RoundedAt<T>(e: RangeEdge, s: seq<Elem<T>>, x: int)
    requires R.NonNegative(s) && R.Compares(e.cmp, x)
    ensures Rounded(e, s) <= |s|
    ensures e.Floor? ==> FloorAt(s, x, Rounded(e, s), R.Start(s, Rounded(e, s)))
    ensures e.Ceil? ==> CeilAt(s, x, Rounded(e, s), R.Start(s, Rounded(e, s)))
  {
    assert s[..|s|] == s && R.Start(s, 0) == 0;
    hide R.Compares, R.NonNegative, Sum, Rounded;
    RoundedPlace(e, s, x);
    var k := Rounded(e, s);
    forall j | 0 <= j <= |s|
      ensures j <= k ==> R.Start(s, j) <= R.Start(s, k)
      ensures k <= j ==> R.Start(s, k) <= R.Start(s, j)
    {
      if j <= k {
        R.StartUp(s, j, k);
      } else {
        R.StartUp(s, k, j);
      }
    }
    R.StartUp(s, 0, k);
  }

  lemma {:induction false} RoundedByRef<T>(e: RangeEdge, s: seq<Elem<T>>)
    requires R.NonNegative(s)
    ensures R.Start(s, 0) == 0 && (EdgeTest(e)(0) ==> Rounded(e, s) == 0)
    ensures forall x :: R.Compares(e.cmp, x) ==>
                          && Rounded(e, s) <= |s|
                          && (EdgeTest(e)(0) <==> x < 0 || (e.Ceil? && x == 0))
                          && (e.Floor? ==> FloorAt(s, x, Rounded(e, s), R.Start(s, Rounded(e, s))))
                          && (e.Ceil? ==> CeilAt(s, x, Rounded(e, s), R.Start(s, Rounded(e, s))))
  {
    forall x | R.Compares(e.cmp, x)
      ensures Rounded(e, s) <= |s| && (EdgeTest(e)(0) <==> x < 0 || (e.Ceil? && x == 0))
      ensures e.Floor? ==> FloorAt(s, x, Rounded(e, s), R.Start(s, Rounded(e, s)))
      ensures e.Ceil? ==> CeilAt(s, x, Rounded(e, s), R.Start(s, Rounded(e, s)))
    {
      RoundedAt(e, s, x);
    }
  }

  ghost function RangeStart<T>(e: Option<RangeEdge>, s: seq<Elem<T>>): nat {
    if e.None? then 0 else Rounded(e.value, s)
  }

  ghost function RangeEnd<T>(e: Option<RangeEdge>, s: seq<Elem<T>>): nat {
    if e.None? then |s| else Rounded(e.value, s)
  }

  ghost predicate Increasing(e: Option<RangeEdge>) {
    e.Some? ==> R.Monotone(EdgeTest(e.value))
  }

  /** The ends of a range if their comparators are made from reference values. */
  lemma {:induction false} RangeByRef<T>(start: Option<RangeEdge>, end: Option<RangeEdge>, s: seq<Elem<T>>)
    requires R.NonNegative(s)
    ensures R.Start(s, 0) == 0
    ensures s == [] ==> RangeStart(start, s) == RangeEnd(end, s) == 0
    ensures forall x :: start.Some? && R.Compares(start.value.cmp, x) ==>
              var k := RangeStart(start, s);
              k <= |s| && if start.value.Floor? then FloorAt(s, x, k, R.Start(s, k)) else CeilAt(s, x, k, R.Start(s, k))
    ensures forall x :: end.Some? && R.Compares(end.value.cmp, x) ==>
              var k := RangeEnd(end, s);
              k <= |s| && if end.value.Floor? then FloorAt(s, x, k, R.Start(s, k)) else CeilAt(s, x, k, R.Start(s, k))
  {
    if start.Some? {
      RoundedByRef(start.value, s);
    }
    if end.Some? {
      RoundedByRef(end.value, s);
    }
    hide FloorAt, CeilAt, R.Compares;
  }

  function Padding(): seq<nat> {
    seq(CURSOR_LEN, _ => EMPTY_INDEX)
  }

  /** Turns the cursor of element `k` into a path and a padded index array. */
  method CursorToIterCursor<T>(rope: R.Rope<T>, cursor: seq<nat>, ghost k: nat)
    returns (path: NodePath<T>, indices: seq<nat>)
    requires Fits(rope) && ElemCursor(rope.Tree(), cursor) && CursorOk(rope.Tree(), cursor)
             && Pos(rope.Tree(), cursor) == k
    ensures IterAt(rope, path, indices, k) && path != []
  {
    CursorLength(rope.Tree(), cursor, rope.height, RootMin(rope.height));
    PosInRange(rope.Tree(), cursor);
    indices := Padding();
    var cur := rope.root;
    path := [cur];
    indices := indices[0 := cursor[0]];
    assert Leads(rope.Tree(), indices[..0], rope.Tree(), 0);
    ghost var leaf, start := CursorLeads(rope.Tree(), cursor);
    for i := 1 to |cursor|
      invariant PathOk(rope, path, indices) && |path| == i && indices[..i] == cursor[..i]
    {
      CursorStep(rope, path, indices, cursor, leaf, start);
      cur := path[i - 1].inode.children[indices[i - 1]];
      path := path + [cur];
      indices := indices[i := cursor[i]];
    }
    assert cursor[..|cursor|] == cursor;
  }

  lemma {:induction false} CursorStep<T>(rope: R.Rope<T>, path: NodePath<T>, indices: seq<nat>, cursor: seq<nat>,
                                         leaf: Tree<T>, start: int)
    requires rope.Valid() && PathOk(rope, path, indices)
    requires 0 < |path| < |cursor| == rope.height + 1 && indices[..|path|] == cursor[..|path|]
    requires Leads(rope.Tree(), cursor[..|cursor| - 1], leaf, start)
    ensures var d, i := |path| - 1, indices[|path| - 1];
            && path[d].Internal? && i < |path[d].inode.children|
            && PathOk(rope, path + [path[d].inode.children[i]], indices[d + 1 := cursor[d + 1]])
            && indices[d + 1 := cursor[d + 1]][..d + 2] == cursor[..d + 2]
  {
    var d := |path| - 1;
    var pos := PathPos(rope, path, indices, d);
    IndexInRange(rope, path, indices, cursor, pos, leaf, start);
    assert indices[d] == indices[..d + 1][d] == cursor[..d + 1][d];
    PathPush(rope, path, indices, pos);
    PathTouch(rope, path + [path[d].inode.children[indices[d]]], indices, cursor[d + 1]);
    assert indices[d + 1 := cursor[d + 1]][..d + 2] == indices[..d + 1] + [cursor[d + 1]] == cursor[..d + 2];
  }

  lemma {:induction false} IndexInRange<T>(rope: R.Rope<T>, path: NodePath<T>, indices: seq<nat>, cursor: seq<nat>,
                                           pos: int, leaf: Tree<T>, start: int)
    requires rope.Valid() && PathOk(rope, path, indices) && 0 < |path| < |cursor|
             && indices[..|path|] == cursor[..|path|]
    requires |cursor| == rope.height + 1
    requires Leads(rope.Tree(), cursor[..|cursor| - 1], leaf, start)
    requires Leads(rope.Tree(), indices[..|path| - 1], TreeOf(path[|path| - 1]), pos)
    ensures path[|path| - 1].Internal? && |path[|path| - 1].inode.children| == |path[|path| - 1].inode.trees|
    ensures cursor[|path| - 1] < |path[|path| - 1].inode.children|
  {
    var d := |path| - 1;
    var _ := PathPos(rope, path, indices, d);
    var sub, p := PathPrefix(rope.Tree(), cursor[..|cursor| - 1], leaf, start, d);
    assert cursor[..|cursor| - 1][..d] == indices[..d] by {
      assert indices[..|path|][..d] == indices[..d];
      assert cursor[..|path|][..d] == cursor[..d];
    }
    LeadsUnique(rope.Tree(), indices[..d], sub, p, TreeOf(path[d]), pos);
    assert cursor[..|cursor| - 1][d] == cursor[d];
  }

  lemma {:induction false} PathPrefix<T>(t: Tree<T>, path: seq<nat>, leaf: Tree<T>, start: int, d: nat)
    returns (sub: Tree<T>, pos: int)
    requires Leads(t, path, leaf, start) && d < |path|
    ensures Leads(t, path[..d], sub, pos) && sub.Inner? && path[d] < |sub.children|
  {
    if d == 0 {
      sub, pos := t, 0;
    } else {
      var before := |FlatAll(t.children[..path[0]])|;
      sub, pos := PathPrefix(t.children[path[0]], path[1..], leaf, start - before, d - 1);
      pos := pos + before;
      assert path[..d][1..] == path[1..][..d - 1];
    }
  }

  /** The element a path leads to. */
  method IterCursorGet<T>(ghost rope: R.Rope<T>, path: NodePath<T>, indices: seq<nat>, ghost k: nat)
    returns (x: Elem<T>)
    requires rope.Valid() && IterAt(rope, path, indices, k) && path != []
    ensures k < |rope.Contents()| && x == rope.Contents()[k]
  {
    ghost var pos := LeafOfPath(rope, path, indices, k);
    x := path[|path| - 1].leaf.elements[indices[|path| - 1]];
  }

  /** The start of the element that a search has found, or its end for Ceil. */
  method ElementEdge<T>(rope: R.Rope<T>, e: RangeEdge, c: seq<nat>, o: int, ghost p: nat)
    returns (path: NodePath<T>, indices: seq<nat>, at: int)
    requires Fits(rope) && ElemCursor(rope.Tree(), c) && CursorOk(rope.Tree(), c) && Pos(rope.Tree(), c) == p
    requires p < |rope.Contents()| && o == R.Start(rope.Contents(), p)
    ensures var k := p + if e.Ceil? then 1 else 0;
            IterAt(rope, path, indices, k) && at == R.Start(rope.Contents(), k)
  {
    hide Shape, Flat, FlatAll, Reaches, Leads;
    path, indices := CursorToIterCursor(rope, c, p);
    at := o;
    if e.Ceil? {
      var elem := IterCursorGet(rope, path, indices, p);
      R.StartNext(rope.Contents(), p);
      at := at + elem.len;
      path, indices := MoveForward(rope, path, indices, p);
    }
  }

  /** The place past the last element, or the edge of the element that was found. */
  method FoundEdge<T>(rope: R.Rope<T>, e: RangeEdge, c: seq<nat>, o: int)
    returns (path: NodePath<T>, indices: seq<nat>, at: int)
    requires Fits(rope) && rope.Found(EdgeTest(e), c, o)
    ensures var s, p := rope.Contents(), Pos(rope.Tree(), c);
            var k := if EdgeTest(e)(rope.len) then p + if e.Ceil? then 1 else 0 else |s|;
            k <= |s| && IterAt(rope, path, indices, k) && at == R.Start(s, k)
  {
    hide Shape, Flat, FlatAll, Reaches, Leads, R.Start, EdgeTest;
    var end := rope.End();
    if c == end {
      return [], Padding(), o;
    }
    ghost var p := Pos(rope.Tree(), c);
    if p == |rope.Contents()| {
      EndUnique(rope.Tree(), c, end, rope.height, RootMin(rope.height));
    }
    path, indices, at := ElementEdge(rope, e, c, o, p);
  }

  /** Finds the place an end of a range is rounded to, and where it is; nothing if
      it lies before the rope. */
  method RoundEdge<T>(rope: R.Rope<T>, e: RangeEdge)
    returns (r: Option<(NodePath<T>, seq<nat>, int)>, ghost k: nat)
    requires Fits(rope) && rope.Contents() != [] && R.NonNegative(rope.Contents()) && R.Monotone(EdgeTest(e))
    ensures k == Rounded(e, rope.Contents()) <= |rope.Contents()|
    ensures r.None? <==> EdgeTest(e)(0)
    ensures r.None? ==> k == 0
    ensures r.Some? ==> IterAt(rope, r.value.0, r.value.1, k) && r.value.2 == R.Start(rope.Contents(), k)
    ensures forall x :: R.Compares(e.cmp, x) ==> (r.None? <==> x < 0 || (e.Ceil? && x == 0))
    ensures forall x :: e.Floor? && R.Compares(e.cmp, x) ==>
                          FloorAt(rope.Contents(), x, k, if r.None? then 0 else r.value.2)
    ensures forall x :: e.Ceil? && R.Compares(e.cmp, x) ==>
                          CeilAt(rope.Contents(), x, k, if r.None? then 0 else r.value.2)
  {
    ghost var s := rope.Contents();
    k := Rounded(e, s);
    RoundedByRef(e, s);
    hide Shape, Flat, FlatAll, Reaches, Leads, FloorAt, CeilAt, R.Compares, R.Scan, R.Monotone, R.NonNegative, Sum,
        EdgeTest, CursorOk, ElemCursor, Pos, PathOk, R.Start;
    var search := rope.SearchBy(EdgeTest(e));
    if search.None? {
      return None, k;
    }
    var (c, o) := search.value;
    assert s[..|s|] == s;
    var path, indices, at := FoundEdge(rope, e, c, o);
    r := Some((path, indices, at));
  }

  class IterWithCursor<T> {
    const rope: R.Rope<T>
    var path1: NodePath<T>
    var indices1: seq<nat>
    var path2: NodePath<T>
    var indices2: seq<nat>
    // The first place is not worked out yet: it is the start of the rope.
    var startUnbounded: bool
    // The elements still to come are those from place `lo` up to place `hi`.
    ghost var lo: nat
    ghost var hi: nat

    ghost predicate Valid()
      reads this, rope, Top(rope.root), Repr(rope.root)
    {
      && Fits(rope)
      && this !in Repr(rope.root)
      && (if startUnbounded then lo == 0 else rope.Contents() != [] && IterAt(rope, path1, indices1, lo))
      && IterAt(rope, path2, indices2, hi)
      && lo <= hi <= |rope.Contents()|
    }

    constructor (rope: R.Rope<T>, path1: NodePath<T>, indices1: seq<nat>, path2: NodePath<T>, indices2: seq<nat>,
                 startUnbounded: bool, ghost lo: nat, ghost hi: nat)
      requires Fits(rope) && lo <= hi <= |rope.Contents()| && IterAt(rope, path2, indices2, hi)
      requires if startUnbounded then lo == 0 else rope.Contents() != [] && IterAt(rope, path1, indices1, lo)
      ensures Valid() && this.rope == rope && this.lo == lo && this.hi == hi
      ensures this.startUnbounded == startUnbounded
    {
      this.rope := rope;
      this.path1, this.indices1, this.path2, this.indices2 := path1, indices1, path2, indices2;
      this.startUnbounded := startUnbounded;
      this.lo, this.hi := lo, hi;
    }

    method StoreFront(path: NodePath<T>, indices: seq<nat>, ghost k: nat)
      requires Valid() && k <= hi && rope.Contents() != [] && IterAt(rope, path, indices, k)
      modifies this
      ensures Valid() && lo == k && hi == old(hi) && !startUnbounded
      ensures rope.Contents() == old(rope.Contents())
    {
      hide ElemCursor, CursorOk, Pos, Flat, FlatAll, RootShape, Shape, Reaches;
      path1, indices1, startUnbounded, lo := path, indices, false, k;
      assert Fits(rope);
      assert IterAt(rope, path, indices, k);
      assert IterAt(rope, path2, indices2, hi);
    }

    method StoreBack(path: NodePath<T>, indices: seq<nat>, ghost k: nat)
      requires Valid() && lo <= k <= |rope.Contents()| && IterAt(rope, path, indices, k)
      modifies this
      ensures Valid() && lo == old(lo) && hi == k && startUnbounded == old(startUnbounded)
      ensures rope.Contents() == old(rope.Contents())
    {
      hide ElemCursor, CursorOk, Pos, Flat, FlatAll, RootShape, Shape, Reaches;
      path2, indices2, hi := path, indices, k;
      assert Fits(rope);
      assert IterAt(rope, path, indices, k);
      assert !startUnbounded ==> IterAt(rope, path1, indices1, lo);
    }

    ghost predicate IsElement(c: seq<nat>, x: Elem<T>, k: nat)
      reads rope, Top(rope.root)
    {
      && k < |rope.Contents()| && x == rope.Contents()[k]
      && ElemCursor(rope.Tree(), c) && CursorOk(rope.Tree(), c) && Pos(rope.Tree(), c) == k
    }

    /** The path to the first element still to come. */
    method Front() returns (path: NodePath<T>, indices: seq<nat>)
      requires Valid() && rope.Contents() != []
      ensures IterAt(rope, path, indices, lo)
    {
      if startUnbounded {
        var c := rope.Begin();
        path, indices := CursorToIterCursor(rope, c, 0);
      } else {
        path, indices := path1, indices1;
      }
    }

    /** The path to the element before place `hi`, or past the end if there is none. */
    method Back() returns (path: NodePath<T>, indices: seq<nat>)
      requires Valid() && rope.Contents() != []
      ensures IterAt(rope, path, indices, if hi == 0 then |rope.Contents()| else hi - 1)
      ensures path == [] <==> hi == 0
    {
      if |path2| == 0 {
        var c := rope.LastCursor();
        path, indices := CursorToIterCursor(rope, c, |rope.Contents()| - 1);
      } else {
        path, indices := MoveBackward(rope, path2, indices2, hi);
      }
    }

    /** The first of the elements still to come, with its cursor, and the path to
        the one after it. */
    method PeekFront() returns (r: Option<(seq<nat>, Elem<T>)>, path: NodePath<T>, indices: seq<nat>)
      requires Valid() && rope.Contents() != []
      ensures r.None? <==> lo == hi
      ensures r.Some? ==> IsElement(r.value.0, r.value.1, lo)
      ensures IterAt(rope, path, indices, if r.None? then lo else lo + 1)
    {
      path, indices := Front();
      PlaceOrder(rope, path, indices, lo, path2, indices2, hi);
      if indices == indices2 {
        return None, path, indices;
      }
      var cursor := indices[..|path|];
      var elem := IterCursorGet(rope, path, indices, lo);
      r := Some((cursor, elem));
      path, indices := MoveForward(rope, path, indices, lo);
    }

    /** The last of the elements still to come, with its cursor and path. */
    method PeekBack() returns (r: Option<(seq<nat>, Elem<T>)>, path: NodePath<T>, indices: seq<nat>)
      requires Valid() && rope.Contents() != []
      ensures r.None? <==> lo == hi
      ensures r.Some? ==> IsElement(r.value.0, r.value.1, hi - 1)
      ensures IterAt(rope, path, indices, if r.Some? then hi - 1 else if startUnbounded then |rope.Contents()| else hi)
    {
      if !startUnbounded {
        PlaceOrder(rope, path1, indices1, lo, path2, indices2, hi);
        if indices1 == indices2 {
          return None, path2, indices2;
        }
      }
      path, indices := Back();
      if |path| == 0 {
        return None, path, indices;
      }
      var cursor := indices[..|path|];
      var elem := IterCursorGet(rope, path, indices, hi - 1);
      r := Some((cursor, elem));
    }

    /** Takes the first of the elements still to come, with its cursor.  The start of
        the range is worked out at the latest then. */
    method Next() returns (r: Option<(seq<nat>, Elem<T>)>)
      requires Valid()
      modifies this
      ensures Valid() && rope.Contents() == old(rope.Contents())
      ensures hi == old(hi)
      ensures startUnbounded <==> old(startUnbounded) && rope.Contents() == []
      ensures r.None? <==> old(lo) == old(hi)
      ensures lo == if r.None? then old(lo) else old(lo) + 1
      ensures r.Some? ==> IsElement(r.value.0, r.value.1, old(lo))
    {
      rope.EmptyIff();
      if rope.IsEmpty() {
        return None;
      }
      var path, indices;
      r, path, indices := PeekFront();
      StoreFront(path, indices, if r.None? then lo else lo + 1);
    }

    /** Takes the last of the elements still to come, with its cursor.  When there
        are none and the start of the range was never worked out, the iterator goes
        back to the end of the rope: it is not fused. */
    method NextBack() returns (r: Option<(seq<nat>, Elem<T>)>)
      requires Valid()
      modifies this
      ensures Valid() && rope.Contents() == old(rope.Contents())
      ensures lo == old(lo) && startUnbounded == old(startUnbounded)
      ensures r.None? <==> old(lo) == old(hi)
      ensures hi == if r.Some? then old(hi) - 1 else if old(startUnbounded) then |rope.Contents()| else old(hi)
      ensures r.Some? ==> IsElement(r.value.0, r.value.1, old(hi) - 1)
    {
      rope.EmptyIff();
      if rope.IsEmpty() {
        return None;
      }
      var path, indices;
      r, path, indices := PeekBack();
      StoreBack(path, indices, if r.Some? then hi - 1 else if startUnbounded then |rope.Contents()| else hi);
    }
  }

  ghost function Max(a: nat, b: nat): nat {
    if a < b then b else a
  }

  /** An iterator over the elements between the two ends, and the offsets of the
      range; an end that would come before the start is moved to it. */
  method RangeWithCursor<T>(rope: R.Rope<T>, start: Option<RangeEdge>, end: Option<RangeEdge>)
    returns (iter: IterWithCursor<T>, startOffset: int, endOffset: int, ghost endPlace: nat)
    requires Fits(rope) && R.NonNegative(rope.Contents()) && Increasing(start) && Increasing(end)
    ensures fresh(iter) && iter.Valid() && iter.rope == rope
    ensures var s := rope.Contents();
            && iter.lo == RangeStart(start, s)
            && endPlace == RangeEnd(end, s) <= |s| && iter.hi == Max(iter.lo, endPlace)
            && startOffset == R.Start(s, iter.lo)
            && endOffset == R.Start(s, iter.hi)
    ensures iter.startUnbounded <==> rope.Contents() == [] || start.None? || EdgeTest(start.value)(0)
    ensures start.None? ==> iter.lo == 0
    ensures end.None? ==> endPlace == |rope.Contents()|
    ensures forall x :: start.Some? && R.Compares(start.value.cmp, x) ==>
              if start.value.Floor? then FloorAt(rope.Contents(), x, iter.lo, startOffset)
              else CeilAt(rope.Contents(), x, iter.lo, startOffset)
    ensures forall x :: end.Some? && R.Compares(end.value.cmp, x) ==>
              if end.value.Floor? then FloorAt(rope.Contents(), x, endPlace, R.Start(rope.Contents(), endPlace))
              else CeilAt(rope.Contents(), x, endPlace, R.Start(rope.Contents(), endPlace))
  {
    ghost var s := rope.Contents();
    endPlace := RangeEnd(end, s);
    RangeByRef(start, end, s);
    hide FloorAt, CeilAt, R.Compares, R.Start, Rounded;
    rope.EmptyIff();
    if rope.IsEmpty() {
      iter := new IterWithCursor<T>(rope, [], Padding(), [], Padding(), true, 0, 0);
      return iter, 0, 0, 0;
    }
    var startUnbounded, path1, indices1, path2, indices2;
    ghost var lo, hi;
    startUnbounded, path1, indices1, startOffset, path2, indices2, endOffset, lo, hi := RangePlaces(rope, start, end);
    iter := new IterWithCursor<T>(rope, path1, indices1, path2, indices2, startUnbounded, lo, hi);
  }

  method RangePlaces<T>(rope: R.Rope<T>, start: Option<RangeEdge>, end: Option<RangeEdge>)
    returns (unbounded: bool, path1: NodePath<T>, indices1: seq<nat>, startOffset: int,
             path2: NodePath<T>, indices2: seq<nat>, endOffset: int, ghost lo: nat, ghost hi: nat)
    requires Fits(rope) && rope.Contents() != [] && R.NonNegative(rope.Contents()) && Increasing(start)
             && Increasing(end)
    ensures var s := rope.Contents();
            && lo == RangeStart(start, s) && hi == Max(lo, RangeEnd(end, s)) <= |s|
            && startOffset == R.Start(s, lo) && endOffset == R.Start(s, hi)
    ensures unbounded <==> start.None? || EdgeTest(start.value)(0)
    ensures if unbounded then lo == 0 else IterAt(rope, path1, indices1, lo)
    ensures IterAt(rope, path2, indices2, hi)
  {
    unbounded, path1, indices1, startOffset := RangeStartPlace(rope, start);
    path2, indices2, endOffset := RangeEndPlace(rope, end);
    lo, hi := RangeStart(start, rope.Contents()), RangeEnd(end, rope.Contents());
    if !unbounded {
      PlaceOrder(rope, path2, indices2, hi, path1, indices1, lo);
      if LexLess(indices2, indices1) {
        indices2, path2, endOffset := indices1, path1, startOffset;
      }
    }
    hi := Max(lo, hi);
  }

  method RangeStartPlace<T>(rope: R.Rope<T>, start: Option<RangeEdge>)
    returns (unbounded: bool, path: NodePath<T>, indices: seq<nat>, offset: int)
    requires Fits(rope) && rope.Contents() != [] && R.NonNegative(rope.Contents()) && Increasing(start)
    ensures RangeStart(start, rope.Contents()) <= |rope.Contents()|
    ensures unbounded <==> start.None? || EdgeTest(start.value)(0)
    ensures if unbounded then RangeStart(start, rope.Contents()) == 0
            else IterAt(rope, path, indices, RangeStart(start, rope.Contents()))
    ensures offset == R.Start(rope.Contents(), RangeStart(start, rope.Contents()))
  {
    unbounded, path, indices, offset := true, [], Padding(), 0;
    if start.Some? {
      var found, _ := RoundEdge(rope, start.value);
      if found.Some? {
        unbounded, path, indices, offset := false, found.value.0, found.value.1, found.value.2;
      }
    }
  }

  method RangeEndPlace<T>(rope: R.Rope<T>, end: Option<RangeEdge>)
    returns (path: NodePath<T>, indices: seq<nat>, offset: int)
    requires Fits(rope) && rope.Contents() != [] && R.NonNegative(rope.Contents()) && Increasing(end)
    ensures RangeEnd(end, rope.Contents()) <= |rope.Contents()|
    ensures IterAt(rope, path, indices, RangeEnd(end, rope.Contents()))
    ensures offset == R.Start(rope.Contents(), RangeEnd(end, rope.Contents()))
  {
    assert rope.Contents()[..|rope.Contents()|] == rope.Contents();
    path, indices, offset := [], Padding(), rope.len;
    if end.Some? {
      var found, _ := RoundEdge(rope, end.value);
      if found.Some? {
        path, indices, offset := found.value.0, found.value.1, found.value.2;
      } else {
        var c := rope.Begin();
        path, indices := CursorToIterCursor(rope, c, 0);
        offset := 0;
      }
    }
  }

  /** Asks for an element from the back after there was none: there is none again if
      and only if the start of the range has been worked out, or the rope is empty.
      The front is not reached again either way. */
  method AfterNone<T>(iter: IterWithCursor<T>)
    returns (first: Option<(seq<nat>, Elem<T>)>, second: Option<(seq<nat>, Elem<T>)>)
    requires iter.Valid()
    modifies iter
    ensures iter.Valid() && iter.rope.Contents() == old(iter.rope.Contents())
            && iter.startUnbounded == old(iter.startUnbounded)
    ensures first.None? <==> old(iter.lo) == old(iter.hi)
    ensures first.None? ==> (second.None? <==> !old(iter.startUnbounded) || iter.rope.Contents() == [])
    ensures first.None? && second.Some? ==> iter.IsElement(second.value.0, second.value.1, |iter.rope.Contents()| - 1)
  {
    hide R.NonNegative, RootShape, Flat, FlatAll;
    first := iter.NextBack();
    second := iter.NextBack();
  }

  /** The range of all of a rope of one element gives that element twice from the
      back, with nothing between, if nothing is taken from the front; and so does a
      range whose start is rounded to before the rope. */
  method NotFused(x: int, start: Option<RangeEdge>)
    returns (first: Option<int>, second: Option<int>, third: Option<int>)
    requires Increasing(start) && (start.Some? ==> EdgeTest(start.value)(0))
    ensures first == Some(x) && second == None && third == Some(x)
  {
    hide FloorAt, CeilAt, R.Compares, Rounded, EdgeTest, R.Monotone, Shape, RootShape, ElemCursor, CursorOk, Pos;
    var rope := new R.Rope<int>();
    rope.PushBack(Elem(x, 1));
    assert rope.Contents() == [Elem(x, 1)];
    OneFits(rope);
    var iter, _, _, _ := RangeWithCursor(rope, start, None);
    var a := iter.NextBack();
    var b, c := AfterNone(iter);
    first, second, third := Value(a), Value(b), Value(c);
  }

  function Value<T>(r: Option<(seq<nat>, Elem<T>)>): Option<T> {
    if r.None? then None else Some(r.value.1.value)
  }

  lemma {:induction false} OneFits<T>(rope: R.Rope<T>)
    requires rope.Valid() && |rope.Contents()| == 1
    ensures Fits(rope)
  {
    PowMonotone(ORDER, 0, CURSOR_LEN);
    SmallFits(rope);
  }

  ghost function Reversed<A>(s: seq<A>): seq<A> {
    if s == [] then [] else Reversed(s[1..]) + [s[0]]
  }

  /** Takes one element from the front or the back. */
  method TakeOne<T>(iter: IterWithCursor<T>, fromFront: bool, ghost s: seq<Elem<T>>) returns (r: Option<Elem<T>>)
    requires iter.Valid() && iter.rope.Contents() == s
    modifies iter
    ensures iter.Valid() && iter.rope.Contents() == s
    ensures old(iter.lo) <= old(iter.hi) <= |s| && (r.None? <==> old(iter.lo) == old(iter.hi))
    ensures r.Some? ==>
              && iter.lo == old(iter.lo) + (if fromFront then 1 else 0)
              && iter.hi == old(iter.hi) - (if fromFront then 0 else 1)
              && r.value == s[if fromFront then old(iter.lo) else iter.hi]
  {
    var cx;
    if fromFront {
      cx := iter.Next();
    } else {
      cx := iter.NextBack();
    }
    r := if cx.None? then None else Some(cx.value.1);
  }

  /** Takes elements from the front (`true`) or the back (`false`) until one side
      gives none or the choices run out: the elements of the range are those taken
      from the front, those left, and those taken from the back, in that order. */
  method TakeBothEnds<T>(iter: IterWithCursor<T>, choices: seq<bool>, ghost s: seq<Elem<T>>)
    returns (front: seq<Elem<T>>, back: seq<Elem<T>>, exhausted: bool)
    requires iter.Valid() && iter.rope.Contents() == s
    modifies iter
    ensures old(iter.lo) <= old(iter.hi) <= |s|
    ensures exhausted ==> s[old(iter.lo)..old(iter.hi)] == front + Reversed(back)
    ensures !exhausted ==>
              && iter.Valid() && iter.rope.Contents() == s && iter.lo <= iter.hi
              && s[old(iter.lo)..old(iter.hi)] == front + s[iter.lo..iter.hi] + Reversed(back)
    ensures |choices| > old(iter.hi) - old(iter.lo) ==> exhausted
  {
    hide IterAt, PathOk, Shape, RootShape, Flat, FlatAll;
    front, back, exhausted := [], [], false;
    ghost var lo, hi := iter.lo, iter.hi;
    ghost var j, k := lo, hi;
    for i := 0 to |choices|
      invariant iter.Valid() && iter.rope.Contents() == s
      invariant iter.lo == j && iter.hi == k && lo <= j <= k <= hi <= |s|
      invariant front == s[lo..j] && s[k..hi] == Reversed(back)
      invariant i == (j - lo) + (hi - k)
    {
      var r := TakeOne(iter, choices[i], s);
      if r.None? {
        TakenAll(s, lo, j, k, hi);
        return front, back, true;
      }
      if choices[i] {
        TakenFront(s, lo, j);
        front := front + [r.value];
        j := j + 1;
      } else {
        TakenBack(s, k - 1, hi, back);
        back := back + [r.value];
        k := k - 1;
      }
    }
    TakenAll(s, lo, j, k, hi);
  }

  lemma {:induction false} TakenAll<A>(s: seq<A>, a: nat, b: nat, c: nat, d: nat)
    requires a <= b <= c <= d <= |s|
    ensures s[a..d] == s[a..b] + s[b..c] + s[c..d]
    ensures b == c ==> s[a..d] == s[a..b] + s[c..d]
  {
  }

  lemma {:induction false} TakenFront<A>(s: seq<A>, lo: nat, j: nat)
    requires lo <= j < |s|
    ensures s[lo..j] + [s[j]] == s[lo..j + 1]
  {
  }

  lemma {:induction false} TakenBack<A>(s: seq<A>, k: nat, hi: nat, back: seq<A>)
    requires k < hi <= |s| && s[k + 1..hi] == Reversed(back)
    ensures s[k..hi] == Reversed(back + [s[k]])
  {
    ReversedSnoc(back, s[k]);
  }

  lemma {:induction false} ReversedSnoc<A>(s: seq<A>, x: A)
    ensures Reversed(s + [x]) == [x] + Reversed(s)
  {
    if s != [] {
      ReversedSnoc(s[1..], x);
      assert (s + [x])[1..] == s[1..] + [x];
    }
  }
}
