/** The nodes of a rope on the heap and the operations that change them in place.
    Each node owns its subtree: `Repr` is the set of objects below it, and the
    ghost value `TreeOf` is the tree they stand for. */
module RopeNodes {
  import opened RopeTree

  class LeafNode<T> {
    var elements: seq<Elem<T>>

    constructor (elements: seq<Elem<T>>)
      ensures this.elements == elements
    {
      this.elements := elements;
    }
  }

  class INode<T> {
    var children: seq<NodeRef<T>>
    var offsets: seq<int>
    ghost var trees: seq<Tree<T>>
    ghost var below: set<object>

    constructor (children: seq<NodeRef<T>>, offsets: seq<int>, ghost trees: seq<Tree<T>>, ghost below: set<object>)
      ensures this.children == children && this.offsets == offsets
      ensures this.trees == trees && this.below == below
    {
      this.children, this.offsets := children, offsets;
      this.trees, this.below := trees, below;
    }
  }

  datatype NodeRef<T> = Internal(inode: INode<T>) | LeafRef(leaf: LeafNode<T>)

  ghost function Top<T>(n: NodeRef<T>): object {
    match n
    case Internal(inode) => inode
    case LeafRef(leaf) => leaf
  }

  ghost function Repr<T>(n: NodeRef<T>): set<object>
    reads Top(n)
  {
    match n
    case Internal(inode) => {inode} + inode.below
    case LeafRef(leaf) => {leaf}
  }

  ghost function TreeOf<T>(n: NodeRef<T>): Tree<T>
    reads Top(n)
  {
    match n
    case Internal(inode) => Inner(inode.trees, inode.offsets)
    case LeafRef(leaf) => Leaf(leaf.elements)
  }

  /** The objects reachable from a node are laid out as a tree. */
  ghost predicate Valid<T>(n: NodeRef<T>)
    reads Repr(n)
    decreases Repr(n), 0
  {
    n.Internal? ==>
      && n.inode !in n.inode.below
      && Owns(n.inode.children, n.inode.trees, n.inode.below)
  }

  /** The nodes `cs` stand for the trees `ts`, live in `r` and share nothing. */
  ghost predicate Owns<T>(cs: seq<NodeRef<T>>, ts: seq<Tree<T>>, r: set<object>)
    reads r
    decreases r, 1
  {
    && |cs| == |ts|
    && (forall i :: 0 <= i < |cs| ==>
          && Top(cs[i]) in r
          && Repr(cs[i]) <= r
          && Valid(cs[i])
          && TreeOf(cs[i]) == ts[i])
    && (forall i, j :: 0 <= i < j < |cs| ==> Repr(cs[i]) !! Repr(cs[j]))
  }

  /** Gives an inner node its children, their offsets, trees and objects. */
  method Become<T>(inode: INode<T>, children: seq<NodeRef<T>>, offsets: seq<int>, ghost trees: seq<Tree<T>>,
                   ghost below: set<object>)
    requires inode !in below && Owns(children, trees, below)
    modifies inode
    ensures inode.children == children && inode.offsets == offsets && inode.trees == trees && inode.below == below
    ensures Valid(Internal(inode)) && Owns(children, trees, below)
  {
    inode.children, inode.offsets := children, offsets;
    inode.trees, inode.below := trees, below;
  }

  /** Records the trees and the objects of an inner node's children. */
  ghost method Record<T>(inode: INode<T>, trees: seq<Tree<T>>, below: set<object>)
    requires inode !in below && Owns(inode.children, trees, below)
    modifies inode`trees, inode`below
    ensures inode.trees == trees && inode.below == below
    ensures Valid(Internal(inode))
  {
    inode.trees, inode.below := trees, below;
  }

  /** The objects of the nodes `cs`. */
  ghost function Reprs<T>(cs: seq<NodeRef<T>>): set<object>
    reads set c | c in cs :: Top(c)
  {
    set c, o | c in cs && o in Repr(c) :: o
  }

  lemma {:induction false} ReprsMember<T>(cs: seq<NodeRef<T>>, i: nat)
    requires i < |cs|
    ensures Repr(cs[i]) <= Reprs(cs) && Top(cs[i]) in Reprs(cs)
  {
    assert cs[i] in cs;
    assert Top(cs[i]) in Repr(cs[i]);
  }

  lemma {:induction false} ReprsWithin<T>(cs: seq<NodeRef<T>>, r: set<object>)
    requires forall i :: 0 <= i < |cs| ==> Repr(cs[i]) <= r
    ensures Reprs(cs) <= r
  {
  }

  /** A forest lives in its own objects. */
  lemma {:induction false} OwnsTight<T>(cs: seq<NodeRef<T>>, ts: seq<Tree<T>>, r: set<object>)
    requires Owns(cs, ts, r)
    ensures Owns(cs, ts, Reprs(cs)) && Reprs(cs) <= r
  {
    forall i | 0 <= i < |cs| ensures Repr(cs[i]) <= Reprs(cs) && Top(cs[i]) in Reprs(cs) {
      ReprsMember(cs, i);
    }
    ReprsWithin(cs, r);
  }

  lemma {:induction false} OwnsSlice<T>(cs: seq<NodeRef<T>>, ts: seq<Tree<T>>, r: set<object>, a: nat, b: nat)
    requires Owns(cs, ts, r) && a <= b <= |cs|
    ensures Owns(cs[a..b], ts[a..b], r)
  {
  }

  lemma {:induction false} OwnsPart<T>(cs: seq<NodeRef<T>>, ts: seq<Tree<T>>, r: set<object>, a: nat, b: nat)
    requires Owns(cs, ts, r) && a <= b <= |cs|
    ensures Owns(cs[a..b], ts[a..b], Reprs(cs[a..b])) && Reprs(cs[a..b]) <= r
  {
    OwnsSlice(cs, ts, r, a, b);
    OwnsTight(cs[a..b], ts[a..b], r);
  }

  lemma {:induction false} OwnsApp<T>(cs: seq<NodeRef<T>>, ts: seq<Tree<T>>, r: set<object>,
                   ds: seq<NodeRef<T>>, us: seq<Tree<T>>, q: set<object>)
    requires Owns(cs, ts, r) && Owns(ds, us, q) && r !! q
    ensures Owns(cs + ds, ts + us, r + q)
  {
  }

  lemma {:induction false} OwnsOne<T>(n: NodeRef<T>)
    requires Valid(n)
    ensures Owns([n], [TreeOf(n)], Repr(n))
  {
  }

  /** Cutting a forest in two leaves nothing shared. */
  lemma {:induction false} OwnsCut<T>(cs: seq<NodeRef<T>>, ts: seq<Tree<T>>, r: set<object>, m: nat)
    returns (l: set<object>, q: set<object>)
    requires Owns(cs, ts, r) && m <= |cs|
    ensures Owns(cs[..m], ts[..m], l) && Owns(cs[m..], ts[m..], q)
    ensures l <= r && q <= r && l !! q
  {
    l, q := Reprs(cs[..m]), Reprs(cs[m..]);
    OwnsPart(cs, ts, r, 0, m);
    OwnsPart(cs, ts, r, m, |cs|);
    assert cs[m..|cs|] == cs[m..] && ts[m..|ts|] == ts[m..];
  }

  /** The trees on either side of tree `i`, and tree `i`. */
  lemma {:induction false} OwnsAround<T>(cs: seq<NodeRef<T>>, ts: seq<Tree<T>>, r: set<object>, i: nat)
    returns (l: set<object>, q: set<object>)
    requires Owns(cs, ts, r) && i < |cs|
    ensures Owns(cs[..i], ts[..i], l) && Owns(cs[i + 1..], ts[i + 1..], q)
    ensures l <= r && q <= r && l !! q && l !! Repr(cs[i]) && q !! Repr(cs[i])
  {
    l, q := Reprs(cs[..i]), Reprs(cs[i + 1..]);
    OwnsPart(cs, ts, r, 0, i);
    OwnsPart(cs, ts, r, i + 1, |cs|);
    assert cs[i + 1..|cs|] == cs[i + 1..] && ts[i + 1..|ts|] == ts[i + 1..];
  }

  /** Puts the trees `us` between two forests. */
  lemma {:induction false} OwnsBetween<T>(cs: seq<NodeRef<T>>, ts: seq<Tree<T>>, l: set<object>,
                       ms: seq<NodeRef<T>>, us: seq<Tree<T>>, m: set<object>,
                       ds: seq<NodeRef<T>>, vs: seq<Tree<T>>, q: set<object>)
    requires Owns(cs, ts, l) && Owns(ms, us, m) && Owns(ds, vs, q)
    requires l !! m && l !! q && m !! q
    ensures Owns(cs + ms + ds, ts + us + vs, l + m + q)
  {
    OwnsApp(cs, ts, l, ms, us, m);
    OwnsApp(cs + ms, ts + us, l + m, ds, vs, q);
  }

  /** Tree `i` has changed and is now `TreeOf(cs[i])`. */
  lemma {:induction false} OwnsReplaced<T>(cs: seq<NodeRef<T>>, ts: seq<Tree<T>>, i: nat, l: set<object>,
                                           q: set<object>)
    requires i < |cs| == |ts| && Valid(cs[i])
    requires Owns(cs[..i], ts[..i], l) && Owns(cs[i + 1..], ts[i + 1..], q)
    requires l !! q && l !! Repr(cs[i]) && q !! Repr(cs[i])
    ensures Owns(cs, ts[i := TreeOf(cs[i])], l + Repr(cs[i]) + q)
  {
    OwnsOne(cs[i]);
    OwnsBetween(cs[..i], ts[..i], l, [cs[i]], [TreeOf(cs[i])], Repr(cs[i]), cs[i + 1..], ts[i + 1..], q);
    assert cs == cs[..i] + [cs[i]] + cs[i + 1..];
    assert ts[i := TreeOf(cs[i])] == ts[..i] + [TreeOf(cs[i])] + ts[i + 1..];
  }

  /** Tree `i` has changed and has got the right sibling `s`. */
  lemma {:induction false} OwnsHalved<T>(cs: seq<NodeRef<T>>, ts: seq<Tree<T>>, i: nat, s: NodeRef<T>, l: set<object>,
                                         q: set<object>)
    requires i < |cs| == |ts| && Valid(cs[i]) && Valid(s) && Repr(s) !! Repr(cs[i])
    requires Owns(cs[..i], ts[..i], l) && Owns(cs[i + 1..], ts[i + 1..], q)
    requires l !! q && l !! Repr(cs[i]) && q !! Repr(cs[i]) && l !! Repr(s) && q !! Repr(s)
    ensures Owns(InsertAt(cs, i + 1, s), Halved(ts, i, TreeOf(cs[i]), TreeOf(s)), l + (Repr(cs[i]) + Repr(s)) + q)
  {
    OwnsOne(cs[i]);
    OwnsOne(s);
    OwnsApp([cs[i]], [TreeOf(cs[i])], Repr(cs[i]), [s], [TreeOf(s)], Repr(s));
    OwnsBetween(cs[..i], ts[..i], l, [cs[i]] + [s], [TreeOf(cs[i])] + [TreeOf(s)], Repr(cs[i]) + Repr(s),
                cs[i + 1..], ts[i + 1..], q);
    assert cs[..i] + ([cs[i]] + [s]) + cs[i + 1..] == InsertAt(cs, i + 1, s);
    assert ts[..i] + ([TreeOf(cs[i])] + [TreeOf(s)]) + ts[i + 1..] == Halved(ts, i, TreeOf(cs[i]), TreeOf(s));
  }

  /** Trees `k` and `k + 1`, and the trees on either side of them. */
  lemma {:induction false} OwnsAroundTwo<T>(cs: seq<NodeRef<T>>, ts: seq<Tree<T>>, r: set<object>, k: nat)
    returns (l: set<object>, q: set<object>)
    requires Owns(cs, ts, r) && k + 1 < |cs|
    ensures Owns(cs[..k], ts[..k], l) && Owns(cs[k + 2..], ts[k + 2..], q)
    ensures var m := Repr(cs[k]) + Repr(cs[k + 1]);
            l + m + q <= r && l !! q && l !! m && q !! m && Repr(cs[k]) !! Repr(cs[k + 1])
  {
    l, q := Reprs(cs[..k]), Reprs(cs[k + 2..]);
    OwnsPart(cs, ts, r, 0, k);
    OwnsPart(cs, ts, r, k + 2, |cs|);
    assert cs[k + 2..|cs|] == cs[k + 2..] && ts[k + 2..|ts|] == ts[k + 2..];
  }

  /** Trees `k` and `k + 1` have changed. */
  lemma {:induction false} OwnsReplacedTwo<T>(cs: seq<NodeRef<T>>, ts: seq<Tree<T>>, k: nat, l: set<object>,
                                              q: set<object>)
    requires k + 1 < |cs| == |ts| && Valid(cs[k]) && Valid(cs[k + 1]) && Repr(cs[k]) !! Repr(cs[k + 1])
    requires Owns(cs[..k], ts[..k], l) && Owns(cs[k + 2..], ts[k + 2..], q)
    requires var m := Repr(cs[k]) + Repr(cs[k + 1]); l !! q && l !! m && q !! m
    ensures Owns(cs, TwoReplaced(ts, k, TreeOf(cs[k]), TreeOf(cs[k + 1])), l + (Repr(cs[k]) + Repr(cs[k + 1])) + q)
  {
    OwnsOne(cs[k]);
    OwnsOne(cs[k + 1]);
    OwnsApp([cs[k]], [TreeOf(cs[k])], Repr(cs[k]), [cs[k + 1]], [TreeOf(cs[k + 1])], Repr(cs[k + 1]));
    OwnsBetween(cs[..k], ts[..k], l, [cs[k]] + [cs[k + 1]], [TreeOf(cs[k])] + [TreeOf(cs[k + 1])],
                Repr(cs[k]) + Repr(cs[k + 1]), cs[k + 2..], ts[k + 2..], q);
    assert cs == cs[..k] + ([cs[k]] + [cs[k + 1]]) + cs[k + 2..];
    assert ts[k := TreeOf(cs[k])][k + 1 := TreeOf(cs[k + 1])]
        == ts[..k] + ([TreeOf(cs[k])] + [TreeOf(cs[k + 1])]) + ts[k + 2..];
  }

  /** Trees `k` and `k + 1` have become the one tree `cs[k]`. */
  lemma {:induction false} OwnsJoined<T>(cs: seq<NodeRef<T>>, ts: seq<Tree<T>>, k: nat, l: set<object>, q: set<object>)
    requires k + 1 < |cs| == |ts| && Valid(cs[k])
    requires Owns(cs[..k], ts[..k], l) && Owns(cs[k + 2..], ts[k + 2..], q)
    requires l !! q && l !! Repr(cs[k]) && q !! Repr(cs[k])
    ensures Owns(RemoveAt(cs, k + 1), Joined(ts, k, TreeOf(cs[k])), l + Repr(cs[k]) + q)
  {
    OwnsOne(cs[k]);
    OwnsBetween(cs[..k], ts[..k], l, [cs[k]], [TreeOf(cs[k])], Repr(cs[k]), cs[k + 2..], ts[k + 2..], q);
    assert cs[..k] + [cs[k]] + cs[k + 2..] == RemoveAt(cs, k + 1);
  }
}
