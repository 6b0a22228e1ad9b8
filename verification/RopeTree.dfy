/** The value of a rope: the tree a node stands for, the sequence of elements
    the tree stands for, the shape rules every node obeys, and what cursors
    (paths of indices) address.  Heap nodes are in module `Rope`. */
module RopeTree {

  // The least number of children of a node that is not the root; no node has
  // more than twice as many.
  const ORDER: nat := 8

  // The longest path a cursor can hold.
  const CURSOR_LEN: nat := 16

  /** An element together with its length (`ToOffset::to_offset`). */
  datatype Elem<T> = Elem(value: T, len: int)

  datatype Tree<T> =
    | Leaf(elements: seq<Elem<T>>)
    | Inner(children: seq<Tree<T>>, offsets: seq<int>)

  // ----- contents -------------------------------------------------------------

  ghost function Flat<T>(t: Tree<T>): seq<Elem<T>>
    decreases t, 0
  {
    match t
    case Leaf(es) => es
    case Inner(cs, _) => FlatAll(cs)
  }

  ghost function FlatAll<T>(ts: seq<Tree<T>>): seq<Elem<T>>
    decreases ts, 1
  {
    if ts == [] then [] else Flat(ts[0]) + FlatAll(ts[1..])
  }

  /** The total length of a sequence of elements. */
  ghost function Sum<T>(s: seq<Elem<T>>): int {
    if s == [] then 0 else s[0].len + Sum(s[1..])
  }

  ghost function Size<T>(t: Tree<T>): int {
    Sum(Flat(t))
  }

  /** The total length of the first `k` trees. */
  ghost function Before<T>(ts: seq<Tree<T>>, k: nat): int
    requires k <= |ts|
  {
    if k == 0 then 0 else Before(ts, k - 1) + Size(ts[k - 1])
  }

  ghost function Count<T>(t: Tree<T>): nat {
    if t.Leaf? then |t.elements| else |t.children|
  }

  ghost function InsertAt<A>(s: seq<A>, p: nat, x: A): seq<A>
    requires p <= |s|
  {
    s[..p] + [x] + s[p..]
  }

  ghost function RemoveAt<A>(s: seq<A>, p: nat): seq<A>
    requires p < |s|
  {
    s[..p] + s[p + 1..]
  }

  // ----- shape ----------------------------------------------------------------

  /** `offsets[i]` is where child `i + 1` starts relative to child 0. */
  ghost predicate OffsetsOk<T>(cs: seq<Tree<T>>, offsets: seq<int>) {
    && |offsets| + 1 == |cs|
    && forall i :: 0 <= i < |offsets| ==> offsets[i] == Before(cs, i + 1)
  }

  /** Every tree of a forest has height `h` and the child counts of inner nodes. */
  ghost predicate ShapeAll<T>(ts: seq<Tree<T>>, h: nat)
    decreases h, 1
  {
    forall i :: 0 <= i < |ts| ==> Shape(ts[i], h, ORDER)
  }

  /** `t` is a tree of height `h` whose top node has at least `lo` children and
      whose other nodes have at least `ORDER`. */
  ghost predicate Shape<T>(t: Tree<T>, h: nat, lo: nat)
    decreases h, 0
  {
    && lo <= Count(t) <= 2 * ORDER
    && (h == 0 <==> t.Leaf?)
    && (t.Inner? ==> OffsetsOk(t.children, t.offsets) && ShapeAll(t.children, h - 1))
  }

  ghost function RootMin(h: nat): nat {
    if h == 0 then 0 else 2
  }

  ghost predicate RootShape<T>(t: Tree<T>, h: nat) {
    Shape(t, h, RootMin(h))
  }

  // ----- cursors --------------------------------------------------------------

  /** `at` leads from the top of `t` to a place in a leaf where an element is or
      could be inserted. */
  ghost predicate CursorOk<T>(t: Tree<T>, at: seq<nat>) {
    match t
    case Leaf(es) => |at| == 1 && at[0] <= |es|
    case Inner(cs, _) => |at| >= 2 && at[0] < |cs| && CursorOk(cs[at[0]], at[1..])
  }

  /** `at` leads to an element. */
  ghost predicate ElemCursor<T>(t: Tree<T>, at: seq<nat>) {
    match t
    case Leaf(es) => |at| == 1 && at[0] < |es|
    case Inner(cs, _) => |at| >= 2 && at[0] < |cs| && ElemCursor(cs[at[0]], at[1..])
  }

  /** The number of elements before the place `at` leads to. */
  ghost function Pos<T>(t: Tree<T>, at: seq<nat>): nat
    requires CursorOk(t, at)
  {
    match t
    case Leaf(es) => at[0]
    case Inner(cs, _) => |FlatAll(cs[..at[0]])| + Pos(cs[at[0]], at[1..])
  }

  // ----- contents of forests --------------------------------------------------

  lemma {:induction false} FlatAllApp<T>(a: seq<Tree<T>>, b: seq<Tree<T>>)
    ensures FlatAll(a + b) == FlatAll(a) + FlatAll(b)
  {
    if a == [] {
      assert a + b == b;
    } else {
      FlatAllApp(a[1..], b);
      assert (a + b)[1..] == a[1..] + b;
    }
  }

  lemma {:induction false} FlatOne<T>(t: Tree<T>)
    ensures FlatAll([t]) == Flat(t)
  {
  }

  lemma {:induction false} FlatCons<T>(t: Tree<T>, ts: seq<Tree<T>>)
    ensures FlatAll([t] + ts) == Flat(t) + FlatAll(ts)
  {
    assert ([t] + ts)[1..] == ts;
  }

  /** A forest, seen around its tree `i`. */
  lemma {:induction false} FlatSplit<T>(ts: seq<Tree<T>>, i: nat)
    requires i < |ts|
    ensures FlatAll(ts) == FlatAll(ts[..i]) + Flat(ts[i]) + FlatAll(ts[i + 1..])
  {
    var l, t, r := ts[..i], ts[i], ts[i + 1..];
    FlatAllApp(l, [t] + r);
    FlatCons(t, r);
    assert FlatAll(l) + (Flat(t) + FlatAll(r)) == FlatAll(l) + Flat(t) + FlatAll(r);
    assert ts == l + ([t] + r);
  }

  lemma {:induction false} SumApp<T>(a: seq<Elem<T>>, b: seq<Elem<T>>)
    ensures Sum(a + b) == Sum(a) + Sum(b)
  {
    if a == [] {
      assert a + b == b;
    } else {
      SumApp(a[1..], b);
      assert (a + b)[1..] == a[1..] + b;
    }
  }

  lemma {:induction false} SumInsert<T>(s: seq<Elem<T>>, p: nat, x: Elem<T>)
    requires p <= |s|
    ensures Sum(InsertAt(s, p, x)) == Sum(s) + x.len
  {
    SumApp(s[..p], s[p..]);
    assert s == s[..p] + s[p..];
    SumApp(s[..p] + [x], s[p..]);
    SumApp(s[..p], [x]);
    assert Sum([x]) == x.len;
  }

  lemma {:induction false} SumRemove<T>(s: seq<Elem<T>>, p: nat)
    requires p < |s|
    ensures Sum(RemoveAt(s, p)) == Sum(s) - s[p].len
  {
    SumInsert(RemoveAt(s, p), p, s[p]);
    assert InsertAt(RemoveAt(s, p), p, s[p]) == s;
  }

  lemma {:induction false} BeforeIsSum<T>(ts: seq<Tree<T>>, k: nat)
    requires k <= |ts|
    ensures Before(ts, k) == Sum(FlatAll(ts[..k]))
  {
    if k > 0 {
      BeforeIsSum(ts, k - 1);
      assert ts[..k] == ts[..k - 1] + [ts[k - 1]];
      FlatAllApp(ts[..k - 1], [ts[k - 1]]);
      FlatOne(ts[k - 1]);
      SumApp(FlatAll(ts[..k - 1]), Flat(ts[k - 1]));
    }
  }

  /** Equal stretches of trees take equal room. */
  lemma {:induction false} BeforeShift<T>(a: seq<Tree<T>>, i: nat, b: seq<Tree<T>>, j: nat, n: nat)
    requires i + n <= |a| && j + n <= |b|
    requires a[i..i + n] == b[j..j + n]
    ensures Before(a, i + n) - Before(a, i) == Before(b, j + n) - Before(b, j)
  {
    if n > 0 {
      assert a[i..i + n - 1] == a[i..i + n][..n - 1] == b[j..j + n - 1];
      assert a[i + n - 1] == a[i..i + n][n - 1] == b[j + n - 1];
      BeforeShift(a, i, b, j, n - 1);
    }
  }

  lemma {:induction false} SizeOfInner<T>(t: Tree<T>)
    requires t.Inner?
    ensures Size(t) == Before(t.children, |t.children|)
  {
    BeforeIsSum(t.children, |t.children|);
    assert t.children[..|t.children|] == t.children;
  }

  // ----- replacing one child --------------------------------------------------

  ghost function Bump(offsets: seq<int>, i: nat, delta: int): seq<int>
    requires i <= |offsets|
  {
    seq(|offsets|, k requires 0 <= k < |offsets| => if k < i then offsets[k] else offsets[k] + delta)
  }

  /** Adding a child's growth to every offset from `i` on keeps offsets exact. */
  lemma {:induction false} OffsetsReplace<T>(cs: seq<Tree<T>>, offsets: seq<int>, i: nat, c: Tree<T>, delta: int)
    requires OffsetsOk(cs, offsets) && i < |cs| && Size(c) == Size(cs[i]) + delta
    ensures OffsetsOk(cs[i := c], Bump(offsets, i, delta))
  {
    var ds := cs[i := c];
    forall k | 0 <= k < |offsets| ensures Bump(offsets, i, delta)[k] == Before(ds, k + 1) {
      if k < i {
        BeforeShift(cs, 0, ds, 0, k + 1);
      } else {
        BeforeShift(cs, 0, ds, 0, i);
        BeforeShift(cs, i + 1, ds, i + 1, k - i);
      }
    }
  }

  lemma {:induction false} FlatReplace<T>(cs: seq<Tree<T>>, i: nat, c: Tree<T>)
    requires i < |cs|
    ensures FlatAll(cs[i := c]) == FlatAll(cs[..i]) + Flat(c) + FlatAll(cs[i + 1..])
  {
    var ds := cs[i := c];
    FlatSplit(ds, i);
    assert ds[..i] == cs[..i] && ds[i + 1..] == cs[i + 1..];
  }

  /** Elements keep their place when the child they are inserted into is put back. */
  lemma {:induction false} InsertBelow<A>(l: seq<A>, m: seq<A>, r: seq<A>, p: nat, x: A)
    requires p <= |m|
    ensures l + InsertAt(m, p, x) + r == InsertAt(l + m + r, |l| + p, x)
  {
  }

  lemma {:induction false} RemoveBelow<A>(l: seq<A>, m: seq<A>, r: seq<A>, p: nat)
    requires p < |m|
    ensures l + RemoveAt(m, p) + r == RemoveAt(l + m + r, |l| + p)
    ensures (l + m + r)[|l| + p] == m[p]
  {
  }

  lemma {:induction false} PosInRange<T>(t: Tree<T>, at: seq<nat>)
    requires CursorOk(t, at)
    ensures Pos(t, at) <= |Flat(t)|
    ensures ElemCursor(t, at) ==> Pos(t, at) < |Flat(t)|
  {
    if t.Inner? {
      PosInRange(t.children[at[0]], at[1..]);
      FlatSplit(t.children, at[0]);
    }
  }

  lemma {:induction false} ElemCursorOk<T>(t: Tree<T>, at: seq<nat>)
    requires ElemCursor(t, at)
    ensures CursorOk(t, at)
  {
    if t.Inner? {
      ElemCursorOk(t.children[at[0]], at[1..]);
    }
  }

  // ----- splitting and joining inner nodes ------------------------------------

  /** Two neighbouring trees seen as one. */
  ghost function Pair<T>(c: Tree<T>, s: Tree<T>): Tree<T> {
    Inner([c, s], [Size(c)])
  }

  lemma {:induction false} FlatPair<T>(c: Tree<T>, s: Tree<T>)
    ensures Flat(Pair(c, s)) == Flat(c) + Flat(s)
    ensures Size(Pair(c, s)) == Size(c) + Size(s)
  {
    FlatCons(c, [s]);
    FlatOne(s);
    SumApp(Flat(c), Flat(s));
  }

  /** `offsets` with a boundary added after a child `i` of length `len`. */
  ghost function WithBoundary(offsets: seq<int>, i: nat, len: int): seq<int>
    requires i <= |offsets|
  {
    InsertAt(offsets, i, if i == 0 then len else offsets[i - 1] + len)
  }

  /** Child `i` is replaced by two. */
  ghost function Halved<T>(ts: seq<Tree<T>>, i: nat, c: Tree<T>, s: Tree<T>): seq<Tree<T>>
    requires i < |ts|
  {
    ts[..i] + [c, s] + ts[i + 1..]
  }

  lemma {:induction false} BeforeHalved<T>(ts: seq<Tree<T>>, i: nat, c: Tree<T>, s: Tree<T>, k: nat)
    requires i < |ts| && Size(ts[i]) == Size(c) + Size(s) && k <= |ts| + 1
    ensures Before(Halved(ts, i, c, s), k) ==
            if k <= i then Before(ts, k)
            else if k == i + 1 then Before(ts, i) + Size(c)
            else Before(ts, k - 1)
  {
    hide Size;
    var us := Halved(ts, i, c, s);
    if k <= i {
      BeforeShift(us, 0, ts, 0, k);
    } else {
      BeforeShift(us, 0, ts, 0, i);
      assert Before(us, i + 1) == Before(us, i) + Size(c);
      if k > i + 1 {
        assert Before(us, i + 2) == Before(us, i + 1) + Size(s);
        assert us[i + 2..i + 2 + (k - i - 2)] == ts[i + 1..i + 1 + (k - i - 2)];
        BeforeShift(us, i + 2, ts, i + 1, k - i - 2);
      }
    }
  }

  lemma {:induction false} OffsetsHalved<T>(ts: seq<Tree<T>>, offsets: seq<int>, i: nat, c: Tree<T>, s: Tree<T>)
    requires OffsetsOk(ts, offsets) && i < |ts| && Size(ts[i]) == Size(c) + Size(s)
    ensures OffsetsOk(Halved(ts, i, c, s), WithBoundary(offsets, i, Size(c)))
  {
    var os := WithBoundary(offsets, i, Size(c));
    forall k | 0 <= k < |os| ensures os[k] == Before(Halved(ts, i, c, s), k + 1) {
      BeforeHalved(ts, i, c, s, k + 1);
    }
  }

  lemma {:induction false} OffsetsJoined<T>(ts: seq<Tree<T>>, offsets: seq<int>, i: nat, c: Tree<T>, s: Tree<T>)
    requires i < |ts| && Size(ts[i]) == Size(c) + Size(s) && OffsetsOk(Halved(ts, i, c, s), offsets)
    ensures OffsetsOk(ts, RemoveAt(offsets, i))
  {
    var os := RemoveAt(offsets, i);
    forall k | 0 <= k < |os| ensures os[k] == Before(ts, k + 1) {
      BeforeHalved(ts, i, c, s, if k < i then k + 1 else k + 2);
    }
  }

  lemma {:induction false} Regroup<A>(a: seq<A>, b: seq<A>, c: seq<A>, d: seq<A>)
    ensures a + (b + (c + d)) == a + (b + c) + d
  {
  }

  lemma {:induction false} FlatHalved<T>(ts: seq<Tree<T>>, i: nat, c: Tree<T>, s: Tree<T>)
    requires i < |ts| && Flat(ts[i]) == Flat(c) + Flat(s)
    ensures FlatAll(Halved(ts, i, c, s)) == FlatAll(ts)
  {
    var l, r := ts[..i], ts[i + 1..];
    calc {
      FlatAll(Halved(ts, i, c, s));
    ==  { assert Halved(ts, i, c, s) == l + ([c] + ([s] + r)); FlatAllApp(l, [c] + ([s] + r)); }
      FlatAll(l) + FlatAll([c] + ([s] + r));
    ==  { FlatCons(c, [s] + r); FlatCons(s, r); }
      FlatAll(l) + (Flat(c) + (Flat(s) + FlatAll(r)));
    ==  { Regroup(FlatAll(l), Flat(c), Flat(s), FlatAll(r)); }
      FlatAll(l) + (Flat(c) + Flat(s)) + FlatAll(r);
    ==  { FlatSplit(ts, i); }
      FlatAll(ts);
    }
  }

  /** Trees `k` and `k + 1` are replaced by one. */
  ghost function Joined<T>(ts: seq<Tree<T>>, k: nat, c: Tree<T>): seq<Tree<T>>
    requires k + 1 < |ts|
  {
    ts[..k] + [c] + ts[k + 2..]
  }

  lemma {:induction false} JoinedForest<T>(ts: seq<Tree<T>>, offsets: seq<int>, k: nat, c: Tree<T>)
    requires OffsetsOk(ts, offsets) && k + 1 < |ts| && Flat(c) == Flat(ts[k]) + Flat(ts[k + 1])
    ensures OffsetsOk(Joined(ts, k, c), RemoveAt(offsets, k))
    ensures FlatAll(Joined(ts, k, c)) == FlatAll(ts)
  {
    var us := Joined(ts, k, c);
    assert Halved(us, k, ts[k], ts[k + 1]) == ts;
    SumApp(Flat(ts[k]), Flat(ts[k + 1]));
    OffsetsJoined(us, offsets, k, ts[k], ts[k + 1]);
    FlatHalved(us, k, ts[k], ts[k + 1]);
  }

  ghost function TwoReplaced<T>(ts: seq<Tree<T>>, k: nat, a: Tree<T>, b: Tree<T>): seq<Tree<T>>
    requires k + 1 < |ts|
  {
    ts[k := a][k + 1 := b]
  }

  lemma {:induction false} RotatedForest<T>(ts: seq<Tree<T>>, offsets: seq<int>, k: nat, a: Tree<T>, b: Tree<T>,
                                            len: int)
    requires OffsetsOk(ts, offsets) && k + 1 < |ts|
    requires Flat(a) + Flat(b) == Flat(ts[k]) + Flat(ts[k + 1])
    requires Size(a) == Size(ts[k]) + len && Size(b) == Size(ts[k + 1]) - len
    ensures OffsetsOk(TwoReplaced(ts, k, a, b), offsets[k := offsets[k] + len])
    ensures FlatAll(TwoReplaced(ts, k, a, b)) == FlatAll(ts)
  {
    var us := TwoReplaced(ts, k, a, b);
    OffsetsReplace(ts, offsets, k, a, len);
    OffsetsReplace(ts[k := a], Bump(offsets, k, len), k + 1, b, -len);
    assert Bump(Bump(offsets, k, len), k + 1, -len) == offsets[k := offsets[k] + len];
    var w := Pair(a, b);
    FlatPair(a, b);
    var vs := Joined(ts, k, w);
    assert Halved(vs, k, a, b) == us;
    FlatHalved(vs, k, a, b);
    JoinedForest(ts, offsets, k, w);
  }

  ghost function Rebased(offsets: seq<int>, base: int): seq<int> {
    Bump(offsets, 0, -base)
  }

  /** Cutting an inner node in two: the second half's offsets are rebased. */
  lemma {:induction false} OffsetsCut<T>(ts: seq<Tree<T>>, offsets: seq<int>, m: nat)
    requires OffsetsOk(ts, offsets) && 0 < m < |ts|
    ensures OffsetsOk(ts[..m], offsets[..m - 1])
    ensures OffsetsOk(ts[m..], Rebased(offsets[m..], offsets[m - 1]))
    ensures offsets[m - 1] == Before(ts[..m], m)
  {
    var l, r := ts[..m], ts[m..];
    assert ts == l + r;
    forall k | 0 <= k <= |ts|
      ensures Before(ts, k) == if k <= m then Before(l, k) else Before(l, m) + Before(r, k - m)
    {
      BeforeApp(l, r, k);
    }
  }

  lemma {:induction false} BeforeApp<T>(l: seq<Tree<T>>, r: seq<Tree<T>>, k: nat)
    requires k <= |l| + |r|
    ensures Before(l + r, k) == if k <= |l| then Before(l, k) else Before(l, |l|) + Before(r, k - |l|)
  {
    var ts := l + r;
    var m := if k <= |l| then k else |l|;
    assert l[0..0 + m] == ts[0..0 + m];
    BeforeShift(l, 0, ts, 0, m);
    if k > |l| {
      assert r[0..0 + (k - |l|)] == ts[|l|..|l| + (k - |l|)];
      BeforeShift(r, 0, ts, |l|, k - |l|);
    }
  }

  /** Joining two inner nodes: the second half's offsets move past the first. */
  lemma {:induction false} OffsetsJoin<T>(l: seq<Tree<T>>, ls: seq<int>, r: seq<Tree<T>>, rs: seq<int>, len: int)
    requires OffsetsOk(l, ls) && OffsetsOk(r, rs) && len == Before(l, |l|)
    ensures OffsetsOk(l + r, ls + [len] + Bump(rs, 0, len))
  {
    var ts, os := l + r, ls + [len] + Bump(rs, 0, len);
    forall k | 0 <= k < |os| ensures os[k] == Before(ts, k + 1) {
      BeforeApp(l, r, k + 1);
    }
  }
}
