/** Cursors: the paths from the root of a tree, where they lead, and their order. */
module RopeCursor {
  import opened RopeTree

  /** `path` leads from `t` to its subtree `sub`, which starts `pos` elements into `t`. */
  ghost predicate Leads<T>(t: Tree<T>, path: seq<nat>, sub: Tree<T>, pos: int) {
    if path == [] then
      t == sub && pos == 0
    else
      && t.Inner?
      && path[0] < |t.children|
      && Leads(t.children[path[0]], path[1..], sub, pos - |FlatAll(t.children[..path[0]])|)
  }

  /** The subtree's elements are where `Leads` says. */
  lemma {:induction false} LeadsFlat<T>(t: Tree<T>, path: seq<nat>, sub: Tree<T>, pos: int)
    requires Leads(t, path, sub, pos)
    ensures 0 <= pos && pos + |Flat(sub)| <= |Flat(t)|
    ensures Flat(t)[pos..pos + |Flat(sub)|] == Flat(sub)
  {
    if path != [] {
      var cs, i := t.children, path[0];
      var c, p := cs[i], pos - |FlatAll(cs[..i])|;
      LeadsFlat(c, path[1..], sub, p);
      FlatSplit(cs, i);
      var l := FlatAll(cs[..i]);
      assert Flat(t)[|l|..|l| + |Flat(c)|] == Flat(c);
      assert Flat(t)[pos..pos + |Flat(sub)|] == Flat(c)[p..p + |Flat(sub)|];
    }
  }

  /** One step further down. */
  lemma {:induction false} LeadsChild<T>(t: Tree<T>, path: seq<nat>, sub: Tree<T>, pos: int, i: nat)
    requires Leads(t, path, sub, pos) && sub.Inner? && i < |sub.children|
    ensures Leads(t, path + [i], sub.children[i], pos + |FlatAll(sub.children[..i])|)
  {
    if path == [] {
      assert (path + [i])[1..] == [];
    } else {
      LeadsChild(t.children[path[0]], path[1..], sub, pos - |FlatAll(t.children[..path[0]])|, i);
      assert (path + [i])[1..] == path[1..] + [i];
    }
  }

  /** One step back up. */
  lemma {:induction false} LeadsParent<T>(t: Tree<T>, path: seq<nat>, i: nat, sub: Tree<T>, pos: int)
    returns (parent: Tree<T>, start: int)
    requires Leads(t, path + [i], sub, pos)
    ensures parent.Inner? && i < |parent.children| && parent.children[i] == sub
    ensures Leads(t, path, parent, start) && pos == start + |FlatAll(parent.children[..i])|
  {
    if path == [] {
      parent, start := t, 0;
      assert (path + [i])[1..] == [];
    } else {
      assert (path + [i])[1..] == path[1..] + [i];
      var before := |FlatAll(t.children[..path[0]])|;
      parent, start := LeadsParent(t.children[path[0]], path[1..], i, sub, pos - before);
      start := start + before;
    }
  }

  lemma {:induction false} LeadsShape<T>(t: Tree<T>, path: seq<nat>, sub: Tree<T>, pos: int, h: nat, lo: nat)
    requires Leads(t, path, sub, pos) && Shape(t, h, lo)
    ensures |path| <= h && Shape(sub, h - |path|, if path == [] then lo else ORDER)
  {
    if path != [] {
      assert ShapeAll(t.children, h - 1);
      assert Shape(t.children[path[0]], h - 1, ORDER);
      LeadsShape(t.children[path[0]], path[1..], sub, pos - |FlatAll(t.children[..path[0]])|, h - 1, ORDER);
    }
  }

  lemma {:induction false} LeadsUnique<T>(t: Tree<T>, path: seq<nat>, a: Tree<T>, p: int, b: Tree<T>, q: int)
    requires Leads(t, path, a, p) && Leads(t, path, b, q)
    ensures a == b && p == q
  {
    if path != [] {
      var before := |FlatAll(t.children[..path[0]])|;
      LeadsUnique(t.children[path[0]], path[1..], a, p - before, b, q - before);
    }
  }

  /** A path to a leaf and an index into the leaf make a cursor. */
  lemma {:induction false} LeadsCursor<T>(t: Tree<T>, path: seq<nat>, sub: Tree<T>, pos: int, i: nat)
    requires Leads(t, path, sub, pos) && sub.Leaf? && i <= |sub.elements|
    ensures CursorOk(t, path + [i]) && Pos(t, path + [i]) == pos + i
    ensures ElemCursor(t, path + [i]) <==> i < |sub.elements|
  {
    if path == [] {
      assert path + [i] == [i];
    } else {
      var at := path + [i];
      assert at[1..] == path[1..] + [i];
      LeadsCursor(t.children[path[0]], path[1..], sub, pos - |FlatAll(t.children[..path[0]])|, i);
    }
  }

  /** And every cursor is made so. */
  lemma {:induction false} CursorLeads<T>(t: Tree<T>, at: seq<nat>) returns (leaf: Tree<T>, pos: int)
    requires CursorOk(t, at)
    ensures leaf.Leaf? && Leads(t, at[..|at| - 1], leaf, pos)
    ensures at[|at| - 1] <= |leaf.elements| && Pos(t, at) == pos + at[|at| - 1]
    ensures ElemCursor(t, at) <==> at[|at| - 1] < |leaf.elements|
  {
    if t.Leaf? {
      leaf, pos := t, 0;
    } else {
      leaf, pos := CursorLeads(t.children[at[0]], at[1..]);
      pos := pos + |FlatAll(t.children[..at[0]])|;
      assert at[..|at| - 1][1..] == at[1..][..|at| - 2];
    }
  }

  lemma {:induction false} CursorLength<T>(t: Tree<T>, at: seq<nat>, h: nat, lo: nat)
    requires CursorOk(t, at) && Shape(t, h, lo)
    ensures |at| == h + 1
    ensures forall i :: 0 <= i < |at| ==> at[i] <= 2 * ORDER
  {
    if t.Inner? {
      assert ShapeAll(t.children, h - 1);
      assert Shape(t.children[at[0]], h - 1, ORDER);
      CursorLength(t.children[at[0]], at[1..], h - 1, ORDER);
      forall i | 0 <= i < |at| ensures at[i] <= 2 * ORDER {
        if i > 0 {
          assert at[i] == at[1..][i - 1];
        }
      }
    }
  }

  // ----- order ------------------------------------------------------------------

  /** The lexicographic order in which Rust compares arrays. */
  predicate LexLess(a: seq<nat>, b: seq<nat>) {
    if b == [] then false
    else if a == [] then true
    else a[0] < b[0] || (a[0] == b[0] && LexLess(a[1..], b[1..]))
  }

  lemma {:induction false} FlatPrefixGrows<T>(ts: seq<Tree<T>>, i: nat, j: nat)
    requires i < j <= |ts|
    ensures |FlatAll(ts[..i])| + |Flat(ts[i])| <= |FlatAll(ts[..j])|
  {
    FlatSplit(ts[..j], i);
    assert ts[..j][..i] == ts[..i] && ts[..j][i] == ts[i];
  }

  /** Comparing the cursors of two elements compares their places. */
  lemma {:induction false} CursorOrder<T>(t: Tree<T>, a: seq<nat>, b: seq<nat>, h: nat, lo: nat)
    requires ElemCursor(t, a) && ElemCursor(t, b) && Shape(t, h, lo)
    ensures CursorOk(t, a) && CursorOk(t, b)
    ensures LexLess(a, b) <==> Pos(t, a) < Pos(t, b)
    ensures a == b <==> Pos(t, a) == Pos(t, b)
  {
    ElemCursorOk(t, a);
    ElemCursorOk(t, b);
    if t.Leaf? {
      assert a == [a[0]] && b == [b[0]];
    } else {
      var cs := t.children;
      assert ShapeAll(cs, h - 1);
      PosInRange(cs[a[0]], a[1..]);
      PosInRange(cs[b[0]], b[1..]);
      if a[0] < b[0] {
        FlatPrefixGrows(cs, a[0], b[0]);
      } else if b[0] < a[0] {
        FlatPrefixGrows(cs, b[0], a[0]);
      } else {
        assert Shape(cs[a[0]], h - 1, ORDER);
        CursorOrder(cs[a[0]], a[1..], b[1..], h - 1, ORDER);
        assert a == [a[0]] + a[1..] && b == [b[0]] + b[1..];
      }
    }
  }

  // ----- depth ------------------------------------------------------------------

  ghost function Pow(b: nat, n: nat): nat {
    if n == 0 then 1 else b * Pow(b, n - 1)
  }

  lemma {:induction false} ForestSize<T>(ts: seq<Tree<T>>, m: nat)
    requires forall i :: 0 <= i < |ts| ==> |Flat(ts[i])| >= m
    ensures |FlatAll(ts)| >= |ts| * m
  {
    if ts != [] {
      ForestSize(ts[1..], m);
    }
  }

  lemma ProductGrows(a: nat, b: nat, c: nat)
    requires a <= b
    ensures a * c <= b * c
  {
  }

  /** A tree of height `h` holds at least `lo * ORDER^h` elements. */
  lemma {:induction false} TreeSize<T>(t: Tree<T>, h: nat, lo: nat)
    requires Shape(t, h, lo)
    ensures |Flat(t)| >= lo * Pow(ORDER, h)
  {
    if h > 0 {
      var cs, m := t.children, ORDER * Pow(ORDER, h - 1);
      assert ShapeAll(cs, h - 1);
      forall i | 0 <= i < |cs| ensures |Flat(cs[i])| >= m {
        assert Shape(cs[i], h - 1, ORDER);
        TreeSize(cs[i], h - 1, ORDER);
      }
      ForestSize(cs, m);
      ProductGrows(lo, |cs|, m);
    }
  }

  lemma {:induction false} PowMonotone(b: nat, m: nat, n: nat)
    requires b > 0 && m <= n
    ensures Pow(b, m) <= Pow(b, n)
  {
    if m < n {
      PowMonotone(b, m, n - 1);
      assert Pow(b, n - 1) <= b * Pow(b, n - 1);
    }
  }

  /** A rope of less than `2 * ORDER^16` elements has at most 16 levels, so that
      every cursor fits. */
  lemma {:induction false} DepthBound<T>(t: Tree<T>, h: nat)
    requires RootShape(t, h) && |Flat(t)| < 2 * Pow(ORDER, CURSOR_LEN)
    ensures h + 1 <= CURSOR_LEN
  {
    TreeSize(t, h, RootMin(h));
    if h >= CURSOR_LEN {
      PowMonotone(ORDER, CURSOR_LEN, h);
    }
  }

  lemma {:induction false} NotEmpty<T>(t: Tree<T>, h: nat)
    requires Shape(t, h, ORDER)
    ensures Flat(t) != []
  {
    TreeSize(t, h, ORDER);
    PowMonotone(ORDER, 0, h);
  }

  /** The place past the last element is in the last child. */
  lemma {:induction false} EndIsLast<T>(t: Tree<T>, at: seq<nat>, h: nat, lo: nat)
    requires t.Inner? && CursorOk(t, at) && Shape(t, h, lo) && Pos(t, at) == |Flat(t)|
    ensures at[0] == |t.children| - 1
    ensures Pos(t.children[at[0]], at[1..]) == |Flat(t.children[at[0]])|
  {
    var cs, i := t.children, at[0];
    PosInRange(cs[i], at[1..]);
    FlatSplit(cs, i);
    if i + 1 < |cs| {
      assert ShapeAll(cs, h - 1);
      assert Shape(cs[i + 1], h - 1, ORDER);
      NotEmpty(cs[i + 1], h - 1);
    }
  }

  lemma {:induction false} EndUnique<T>(t: Tree<T>, a: seq<nat>, b: seq<nat>, h: nat, lo: nat)
    requires CursorOk(t, a) && CursorOk(t, b) && Shape(t, h, lo)
    requires Pos(t, a) == Pos(t, b) == |Flat(t)|
    ensures a == b
  {
    if t.Leaf? {
      assert a == [a[0]] && b == [b[0]];
    } else {
      EndIsLast(t, a, h, lo);
      EndIsLast(t, b, h, lo);
      assert ShapeAll(t.children, h - 1);
      assert Shape(t.children[a[0]], h - 1, ORDER);
      EndUnique(t.children[a[0]], a[1..], b[1..], h - 1, ORDER);
      assert a == [a[0]] + a[1..] && b == [b[0]] + b[1..];
    }
  }
}
