/** The cache of rasterized images: each bitmap is in the list of its image and in
    the list of its DPI scale at once. */
module ImageCache {
  import opened Wrappers
  import opened LeakyPool
  import opened IntrusiveList
  import opened ListIndex
  import opened CacheState

  /** `scales` is the vector of known DPI scales as a map. */
  ghost predicate ScalesOk<S>(ds: seq<CacheDpiScale<S>>, scales: map<S, CacheDpiScale<S>>) {
    && (forall i :: 0 <= i < |ds| ==> ds[i].dpiScale in scales && scales[ds[i].dpiScale] == ds[i])
    && (forall s :: s in scales ==> exists i :: 0 <= i < |ds| && ds[i].dpiScale == s)
    && (forall i, j :: 0 <= i < j < |ds| ==> ds[i].dpiScale != ds[j].dpiScale)
  }

  // ----- the vector of DPI scales -----------------------------------------------

  lemma {:induction false} ScalesSet<S>(ds: seq<CacheDpiScale<S>>, scales: map<S, CacheDpiScale<S>>, i: nat,
                                        d: CacheDpiScale<S>)
    requires ScalesOk(ds, scales) && i < |ds| && d.dpiScale == ds[i].dpiScale
    ensures ScalesOk(ds[i := d], scales[d.dpiScale := d])
  {
    var es := ds[i := d];
    forall s | s in scales ensures exists j :: 0 <= j < |es| && es[j].dpiScale == s {
      var j :| 0 <= j < |ds| && ds[j].dpiScale == s;
      assert es[j].dpiScale == s;
    }
  }

  lemma {:induction false} ScalesPush<S>(ds: seq<CacheDpiScale<S>>, scales: map<S, CacheDpiScale<S>>,
                                         d: CacheDpiScale<S>)
    requires ScalesOk(ds, scales) && d.dpiScale !in scales
    ensures ScalesOk(ds + [d], scales[d.dpiScale := d])
  {
    var es, after := ds + [d], scales[d.dpiScale := d];
    forall s | s in after ensures exists j :: 0 <= j < |es| && es[j].dpiScale == s {
      if s == d.dpiScale {
        assert es[|ds|].dpiScale == s;
      } else {
        var j :| 0 <= j < |ds| && ds[j].dpiScale == s;
        assert es[j].dpiScale == s;
      }
    }
  }

  /** The last element takes the place of element `i` (`swap_remove`). */
  function SwapRemove<A>(s: seq<A>, i: nat): seq<A>
    requires i < |s|
  {
    s[i := s[|s| - 1]][..|s| - 1]
  }

  lemma {:induction false} ScalesSwapRemove<S>(ds: seq<CacheDpiScale<S>>, scales: map<S, CacheDpiScale<S>>, i: nat)
    requires ScalesOk(ds, scales) && i < |ds|
    ensures ScalesOk(SwapRemove(ds, i), scales - {ds[i].dpiScale})
  {
    var es, after := SwapRemove(ds, i), scales - {ds[i].dpiScale};
    forall s | s in after ensures exists j :: 0 <= j < |es| && es[j].dpiScale == s {
      var j :| 0 <= j < |ds| && ds[j].dpiScale == s;
      assert es[if j == |ds| - 1 then i else j].dpiScale == s;
    }
  }

  /** How many clients use each DPI scale. */
  ghost function CountsOf<S>(scales: map<S, CacheDpiScale<S>>): map<S, nat> {
    map s | s in scales :: scales[s].refCount
  }

  ghost predicate AllUsed<S>(scales: map<S, CacheDpiScale<S>>) {
    forall s :: s in scales ==> scales[s].refCount > 0
  }

  lemma {:induction false} CountsAt<S>(scales: map<S, CacheDpiScale<S>>, sc: S, d: CacheDpiScale<S>)
    ensures CountsOf(scales[sc := d]) == CountsOf(scales)[sc := d.refCount]
    ensures d.refCount > 0 && AllUsed(scales) ==> AllUsed(scales[sc := d])
    ensures sc in scales <==> sc in CountsOf(scales)
    ensures sc in scales ==> CountsOf(scales)[sc] == scales[sc].refCount
  {
  }

  lemma {:induction false} CountsLess<S>(scales: map<S, CacheDpiScale<S>>, sc: S)
    ensures CountsOf(scales - {sc}) == CountsOf(scales) - {sc}
  {
  }

  ghost predicate Sound<S, B>(st: State<S, B>, ds: seq<CacheDpiScale<S>>) {
    Consistent(st, None, None) && ScalesOk(ds, st.scales)
  }

  ghost function WithCount<S, B>(st: State<S, B>, sc: S, count: nat): State<S, B>
    requires sc in st.scales
  {
    st.(scales := st.scales[sc := st.scales[sc].(refCount := count)])
  }

  lemma {:induction false} CountSet<S, B>(st: State<S, B>, ds: seq<CacheDpiScale<S>>, i: nat, count: nat)
    requires Sound(st, ds) && i < |ds|
    ensures var sc := ds[i].dpiScale;
            && sc in st.scales && sc in st.scaleOrder
            && sc in CountsOf(st.scales) && CountsOf(st.scales)[sc] == ds[i].refCount
            && Sound(WithCount(st, sc, count), ds[i := ds[i].(refCount := count)])
            && CountsOf(WithCount(st, sc, count).scales) == CountsOf(st.scales)[sc := count]
            && (count > 0 && AllUsed(st.scales) ==> AllUsed(WithCount(st, sc, count).scales))
  {
    var sc := ds[i].dpiScale;
    ScaleCounted(st, sc, count);
    ScalesSet(ds, st.scales, i, ds[i].(refCount := count));
    CountsAt(st.scales, sc, ds[i].(refCount := count));
  }

  ghost function WithScale<S, B>(st: State<S, B>, sc: S): State<S, B> {
    st.(scales := st.scales[sc := CacheDpiScale(sc, 1, None)], scaleOrder := st.scaleOrder[sc := []])
  }

  lemma {:induction false} NewScale<S, B>(st: State<S, B>, ds: seq<CacheDpiScale<S>>, sc: S)
    requires Sound(st, ds) && sc !in st.scales
    ensures Sound(WithScale(st, sc), ds + [CacheDpiScale(sc, 1, None)])
    ensures sc !in CountsOf(st.scales) && CountsOf(WithScale(st, sc).scales) == CountsOf(st.scales)[sc := 1]
    ensures AllUsed(st.scales) ==> AllUsed(WithScale(st, sc).scales)
  {
    ScaleAdded(st, sc);
    ScalesPush(ds, st.scales, CacheDpiScale(sc, 1, None));
    CountsAt(st.scales, sc, CacheDpiScale(sc, 1, None));
  }

  ghost function WithImg<S, B>(st: State<S, B>, img: PoolPtr): State<S, B> {
    st.(imgs := st.imgs[img := CacheImg(None)], imgOrder := st.imgOrder[img := []])
  }

  ghost function LessImg<S, B>(st: State<S, B>, img: PoolPtr): State<S, B> {
    st.(imgs := st.imgs - {img}, imgOrder := st.imgOrder - {img})
  }

  lemma {:induction false} NewImg<S, B>(st: State<S, B>, ds: seq<CacheDpiScale<S>>, img: PoolPtr)
    requires Sound(st, ds) && img !in st.imgs
    ensures Sound(WithImg(st, img), ds) && WithImg(st, img).imgs.Keys == st.imgs.Keys + {img}
  {
    ImgAdded(st, img);
  }

  lemma {:induction false} DropImg<S, B>(st: State<S, B>, ds: seq<CacheDpiScale<S>>, scales: map<S, CacheDpiScale<S>>,
                                         img: PoolPtr)
    requires Consistent(st, Some(img), None) && ScalesOk(ds, st.scales) && img in st.imgOrder && st.imgOrder[img] == []
    requires SameCounts(st.scales, scales) && AllUsed(scales)
    ensures var after := LessImg(st, img);
            && Sound(after, ds) && after.imgs.Keys == st.imgs.Keys - {img}
            && TableOf(after.bmps, after.slot) == TableOf(st.bmps, st.slot)
            && AllUsed(after.scales) && CountsOf(after.scales) == CountsOf(scales)
  {
    ImgRemoved(st, img);
    SameCountsOf(st.scales, scales);
  }

  /** The lists of an image and of a DPI scale. */
  lemma {:induction false} ListsOf<S, B>(st: State<S, B>, ds: seq<CacheDpiScale<S>>, i: nat, img: PoolPtr)
    requires Sound(st, ds) && i < |ds| && img in st.imgs
    ensures var sc := ds[i].dpiScale;
            && sc in st.scales && st.scales[sc] == ds[i] && sc in st.scaleOrder && img in st.imgOrder
            && IsList(LinksOf(st.bmps, LINK_DPI_SCALE), ds[i].bmps, st.scaleOrder[sc])
            && IsList(LinksOf(st.bmps, LINK_IMG), st.imgs[img].bmps, st.imgOrder[img])
  {
    assert img in ImgHeads(st.imgs) && ds[i].dpiScale in ScaleHeads(st.scales);
  }

  lemma {:induction false} NewHead<S>(ds: seq<CacheDpiScale<S>>, scales: map<S, CacheDpiScale<S>>, i: nat,
                                      first: Option<PoolPtr>)
    requires ScalesOk(ds, scales) && i < |ds|
    ensures var after := scales[ds[i].dpiScale := ds[i].(bmps := first)];
            && ds[i].dpiScale in scales && scales[ds[i].dpiScale] == ds[i]
                && ScalesOk(ds[i := ds[i].(bmps := first)], after)
            && CountsOf(after) == CountsOf(scales) && (AllUsed(scales) ==> AllUsed(after))
  {
    ScalesSet(ds, scales, i, ds[i].(bmps := first));
    SameCountsOf(scales[ds[i].dpiScale := ds[i].(bmps := first)], scales);
  }

  lemma {:induction false} NoSlot<S, B>(st: State<S, B>, img: PoolPtr, sc: S)
    requires Consistent(st, None, None) && (img, sc) !in TableOf(st.bmps, st.slot)
    ensures (img, sc) !in st.slot
  {
    hide ImgLists, ScaleLists;
  }

  lemma {:induction false} WithBmpIs<S, B>(st: State<S, B>, n: Bmps<S, B>, p: PoolPtr, sc: S, first: Option<PoolPtr>,
                                           img: PoolPtr, second: Option<PoolPtr>)
    requires sc in st.scales && sc in st.scaleOrder && img in st.imgs && img in st.imgOrder
    ensures var after := WithBmp(st, n, p, sc, first, img, second);
            && after.scales == st.scales[sc := st.scales[sc].(bmps := first)] && after.imgs.Keys == st.imgs.Keys
            && after.slot == st.slot[(img, sc) := p] && after.bmps == n
  {
  }

  lemma {:induction false} NewBmp<S, B>(st: State<S, B>, ds: seq<CacheDpiScale<S>>, i: nat, e: Node<CacheBmp<S, B>>,
                                        a: Bmps<S, B>, n: Bmps<S, B>, p: PoolPtr, first: Option<PoolPtr>, img: PoolPtr,
                                        second: Option<PoolPtr>)
    requires Sound(st, ds) && i < |ds| && img in st.imgs && img in st.imgOrder
    requires var sc := ds[i].dpiScale;
             && sc in st.scales && sc in st.scaleOrder && p !in st.bmps && KeyOf(e) == (img, sc)
             && (img, sc) !in TableOf(st.bmps, st.slot)
             && OnlyLinks(st.bmps[p := e], a, LINK_DPI_SCALE, st.scaleOrder[sc] + [p])
             && IsList(LinksOf(a, LINK_DPI_SCALE), first, st.scaleOrder[sc] + [p])
    requires OnlyLinks(a, n, LINK_IMG, st.imgOrder[img] + [p])
    requires IsList(LinksOf(n, LINK_IMG), second, st.imgOrder[img] + [p])
    ensures var sc := ds[i].dpiScale;
            var after := WithBmp(st, n, p, sc, first, img, second);
            && Sound(after, ds[i := ds[i].(bmps := first)]) && after.imgs.Keys == st.imgs.Keys
            && CountsOf(after.scales) == CountsOf(st.scales) && (AllUsed(st.scales) ==> AllUsed(after.scales))
            && TableOf(n, after.slot) == TableOf(st.bmps, st.slot)[(img, sc) := e.data.bmp]
  {
    var sc := ds[i].dpiScale;
    NoSlot(st, img, sc);
    NewHead(ds, st.scales, i, first);
    WithBmpIs(st, n, p, sc, first, img, second);
    hide Consistent, ScalesOk, TableOf, OnlyLinks, IsList, WithBmp, CountsOf, AllUsed;
    BmpAdded(st, e, a, n, p, sc, first, img, second);
  }

  ghost function LessScale<S, B>(st: State<S, B>, sc: S): State<S, B> {
    st.(scales := st.scales - {sc}, scaleOrder := st.scaleOrder - {sc})
  }

  lemma {:induction false} DropScale<S, B>(st: State<S, B>, ds: seq<CacheDpiScale<S>>, i: nat)
    requires i < |ds| && Consistent(st, None, Some(ds[i].dpiScale)) && ScalesOk(ds, st.scales)
    requires ds[i].dpiScale in st.scaleOrder && st.scaleOrder[ds[i].dpiScale] == []
    ensures Sound(LessScale(st, ds[i].dpiScale), SwapRemove(ds, i))
    ensures CountsOf(LessScale(st, ds[i].dpiScale).scales) == CountsOf(st.scales) - {ds[i].dpiScale}
  {
    ScaleRemoved(st, ds[i].dpiScale);
    ScalesSwapRemove(ds, st.scales, i);
    CountsLess(st.scales, ds[i].dpiScale);
  }

  lemma {:induction false} OthersUsed<S, B>(a: State<S, B>, sc: S)
    requires sc in a.scales && AllUsed(a.scales)
    ensures forall count :: AllUsed(LessScale(WithCount(a, sc, count), sc).scales)
    ensures forall count :: CountsOf(WithCount(a, sc, count).scales) - {sc} == CountsOf(a.scales) - {sc}
  {
  }

  lemma {:induction false} SetTwice<K, V>(m: map<K, V>, k: K, a: V, b: V)
    ensures m[k := a][k := b] == m[k := b]
  {
  }

  lemma {:induction false} SetSame<K, V>(m: map<K, seq<V>>, k: K, l: seq<V>)
    ensures l[0..] == l && (k in m && m[k] == l ==> m[k := l[0..]] == m)
  {
  }

  lemma {:induction false} NothingSound<S, B>()
    ensures var st: State<S, B> := State(map[], map[], map[], map[], map[], map[]);
            && Sound(st, []) && AllUsed(st.scales) && TableOf(st.bmps, st.slot) == map[] && CountsOf(st.scales) == map[]
  {
  }

  class Cache<S(==), B> {
    const imgs: LeakyPool<CacheImg>
    const bmps: LeakyPool<Node<CacheBmp<S, B>>>
    var dpiScales: seq<CacheDpiScale<S>>
    // The contents of the two pools and of the vector, and the order of the lists.
    ghost var st: State<S, B>

    ghost predicate Pools()
      reads this, imgs, bmps
    {
      && imgs as object != bmps as object && this as object != imgs && this as object != bmps
      && imgs.Valid() && bmps.Valid()
      && st.imgs == imgs.contents && st.bmps == bmps.contents
    }

    ghost predicate Valid()
      reads this, imgs, bmps
    {
      Pools() && Sound(st, dpiScales) && AllUsed(st.scales)
    }

    /** What the cache stands for. */
    ghost function Table(): map<Key<S>, B>
      reads this
    {
      TableOf(st.bmps, st.slot)
    }

    /** How many clients use each DPI scale. */
    ghost function Counts(): map<S, nat>
      reads this
    {
      CountsOf(st.scales)
    }

    ghost function Imgs(): set<PoolPtr>
      reads this
    {
      st.imgs.Keys
    }

    /** Bitmaps are cached for the images of the cache only, and for DPI scales with a
        positive reference count only. */
    lemma {:induction false} OnlyKnown()
      requires Valid()
      ensures forall k :: k in Table() ==> k.0 in Imgs() && k.1 in Counts() && Counts()[k.1] > 0
    {
      forall k | k in Table() ensures k.0 in Imgs() && k.1 in Counts() && Counts()[k.1] > 0 {
        KnownKeys(st, k);
      }
    }

    lemma {:induction false} AllCounted()
      requires Valid()
      ensures forall s :: s in Counts() ==> Counts()[s] > 0
    {
    }

    constructor ()
      ensures Valid() && fresh(imgs) && fresh(bmps)
      ensures Table() == map[] && Counts() == map[] && Imgs() == {}
    {
      imgs := new LeakyPool<CacheImg>();
      bmps := new LeakyPool<Node<CacheBmp<S, B>>>();
      dpiScales := [];
      st := State(map[], map[], map[], map[], map[], map[]);
      NothingSound<S, B>();
      hide Sound, TableOf, CountsOf, AllUsed;
    }

    /** Takes bitmap `p`, which is at place `i`, out of a list. */
    method UnlinkFrom(head: Option<PoolPtr>, f: Field, ghost order: seq<PoolPtr>, p: PoolPtr, ghost i: nat)
      returns (first: Option<PoolPtr>)
      requires bmps.Valid() && IsList(LinksOf(bmps.contents, f), head, order) && i < |order| && order[i] == p
      modifies bmps
      ensures bmps.Valid() && TakenOut(old(bmps.contents), bmps.contents, f, order, p, i, first)
      ensures |bmps.entries| == |old(bmps.entries)|
    {
      assert RingAt(LinksOf(bmps.contents, f), order, i);
      var accessor := new ListAccessorMut(head, bmps, f, order);
      accessor.Remove(p, i);
      first := accessor.first;
    }

    method DeleteOfScale(p: PoolPtr, img: PoolPtr, first: Option<PoolPtr>, ghost after: State<S, B>)
      requires this as object != imgs && this as object != bmps && imgs as object != bmps as object
      requires imgs.Valid() && bmps.Valid() && img in imgs.contents && p in bmps.contents
      requires after.imgs == imgs.contents[img := CacheImg(first)] && after.bmps == bmps.contents - {p}
      modifies this`st, imgs, bmps
      ensures Pools() && st == after
    {
      imgs.Store(img, CacheImg(first));
      var _ := bmps.Deallocate(p);
      st := after;
    }

    /** Deletes the next bitmap of a DPI scale, taking it out of the list of its image
        first; gives the bitmap linked after it. */
    method DestroyNextOfScale(p: PoolPtr, ghost l: seq<PoolPtr>, ghost links: Links, ghost j: nat, ghost sc: S,
                              ghost table: map<Key<S>, B>)
      returns (next: PoolPtr)
      requires Pools() && LeftOfScale(st, l, links, j, sc, table) && j < |l| && p == l[j]
      modifies this`st, imgs, bmps
      ensures Pools() && LeftOfScale(st, l, links, j + 1, sc, table)
      ensures if j + 1 < |l| then next == l[j + 1] != l[0] else next == l[0]
      ensures st.imgs.Keys == old(st.imgs.Keys) && st.scales == old(st.scales)
      ensures st.scaleOrder == old(st.scaleOrder)[sc := l[j + 1..]]
    {
      hide Sorted, Linked, SlotsOk, ScalesOk, TableOf, WithoutScale, IsFreeList;
      assert RingAt(links, l, j);
      SameElement(l, NextIndex(j, |l|), 0);
      InScaleList(st, sc, p, Some(sc));
      ghost var i := PlaceInImg(st, p, Some(sc));
      var bmp := bmps.Index(p);
      next := bmp.Get(LINK_DPI_SCALE).value.next;
      var img := bmp.data.img;
      var cacheImg := imgs.Index(img);
      var first := UnlinkFrom(cacheImg.bmps, LINK_IMG, st.imgOrder[img], p, i);
      LeftOfScaleStep(st, bmps.contents, p, i, first, l, links, j, sc, table);
      DeleteOfScale(p, img, first, WithoutOfScale(st, bmps.contents, p, i, first, sc));
    }

    /** What the walk over the list of a DPI scale has changed apart from bitmaps. */
    static ghost predicate WalkedScale(was: State<S, B>, st: State<S, B>, l: seq<PoolPtr>, j: nat, sc: S)
      requires j <= |l|
    {
      st.imgs.Keys == was.imgs.Keys && st.scales == was.scales && st.scaleOrder == was.scaleOrder[sc := l[j..]]
    }

    method WalkScaleOn(p: PoolPtr, ghost l: seq<PoolPtr>, ghost links: Links, ghost j: nat, ghost sc: S,
                       ghost table: map<Key<S>, B>, ghost was: State<S, B>)
      returns (next: PoolPtr)
      requires Pools() && LeftOfScale(st, l, links, j, sc, table) && j < |l| && p == l[j]
               && WalkedScale(was, st, l, j, sc)
      modifies this`st, imgs, bmps
      ensures Pools() && LeftOfScale(st, l, links, j + 1, sc, table) && WalkedScale(was, st, l, j + 1, sc)
      ensures if j + 1 < |l| then next == l[j + 1] != l[0] else next == l[0]
    {
      hide LeftOfScale, LeftOfImg, ScalesOk, IsFreeList;
      next := DestroyNextOfScale(p, l, links, j, sc, table);
      SetTwice(was.scaleOrder, sc, l[j..], l[j + 1..]);
    }

    /** Follows the list of a DPI scale round, deleting its bitmaps. */
    method WalkScale(firstPtr: PoolPtr, ghost l: seq<PoolPtr>, ghost links: Links, ghost sc: S,
                     ghost table: map<Key<S>, B>)
      requires Pools() && l != [] && firstPtr == l[0] && LeftOfScale(st, l, links, 0, sc, table)
      modifies this`st, imgs, bmps
      ensures Pools() && LeftOfScale(st, l, links, |l|, sc, table)
      ensures st.imgs.Keys == old(st.imgs.Keys) && st.scales == old(st.scales)
      ensures st.scaleOrder == old(st.scaleOrder)[sc := []]
    {
      var p := firstPtr;
      ghost var j: nat, was := 0, st;
      SetSame(was.scaleOrder, sc, l);
      assert WalkedScale(was, st, l, 0, sc) && l[|l|..] == [];
      hide LeftOfScale, LeftOfImg, ScalesOk, IsFreeList;
      while true
        invariant j < |l| && p == l[j] && Pools() && LeftOfScale(st, l, links, j, sc, table)
                  && WalkedScale(was, st, l, j, sc)
        decreases |l| - j
      {
        var next := WalkScaleOn(p, l, links, j, sc, table, was);
        j := j + 1;
        if next == firstPtr {
          break;
        }
        p := next;
      }
    }

    /** Deletes the bitmaps of a DPI scale. */
    method DestroyScaleList(head: Option<PoolPtr>, ghost sc: S)
      requires Pools() && Consistent(st, None, None) && sc in st.scaleOrder && sc in st.scales
               && head == st.scales[sc].bmps
      modifies this`st, imgs, bmps
      ensures Pools() && Consistent(st, None, Some(sc)) && st.imgs.Keys == old(st.imgs.Keys)
              && st.scales == old(st.scales)
      ensures st.scaleOrder == old(st.scaleOrder)[sc := []]
      ensures Table() == WithoutScale(old(Table()), sc)
    {
      hide Sorted, Linked, SlotsOk, ScalesOk, TableOf, WithoutScale, IsFreeList;
      ghost var l, links, table := st.scaleOrder[sc], LinksOf(st.bmps, LINK_DPI_SCALE), Table();
      OpenScale(st, sc);
      if head.Some? {
        WalkScale(head.value, l, links, sc, table);
      }
      ScaleGone(st, sc);
    }

    method DeleteOfImg(p: PoolPtr, i: nat, first: Option<PoolPtr>, ghost after: State<S, B>)
      requires this as object != imgs && this as object != bmps && imgs as object != bmps as object
      requires imgs.Valid() && bmps.Valid() && p in bmps.contents && i < |dpiScales|
      requires after.imgs == imgs.contents && after.bmps == bmps.contents - {p}
      modifies this`st, this`dpiScales, bmps
      ensures Pools() && st == after && dpiScales == old(dpiScales)[i := old(dpiScales)[i].(bmps := first)]
    {
      dpiScales := dpiScales[i := dpiScales[i].(bmps := first)];
      var _ := bmps.Deallocate(p);
      st := after;
    }

    /** Deletes the next bitmap of an image, taking it out of the list of its DPI scale
        first; gives the bitmap linked after it. */
    method DestroyNextOfImg(p: PoolPtr, ghost l: seq<PoolPtr>, ghost links: Links, ghost j: nat, ghost img: PoolPtr,
                            ghost table: map<Key<S>, B>)
      returns (next: PoolPtr)
      requires Pools() && LeftOfImg(st, l, links, j, img, table) && j < |l| && p == l[j]
               && ScalesOk(dpiScales, st.scales)
      modifies this`st, this`dpiScales, bmps
      ensures Pools() && LeftOfImg(st, l, links, j + 1, img, table) && ScalesOk(dpiScales, st.scales)
      ensures if j + 1 < |l| then next == l[j + 1] != l[0] else next == l[0]
      ensures st.imgs == old(st.imgs) && SameCounts(st.scales, old(st.scales))
      ensures st.imgOrder == old(st.imgOrder)[img := l[j + 1..]]
    {
      hide Sorted, Linked, SlotsOk, ScalesOk, TableOf, WithoutImg, IsFreeList;
      assert RingAt(links, l, j);
      SameElement(l, NextIndex(j, |l|), 0);
      InImgList(st, img, p, Some(img));
      ghost var i := PlaceInScale(st, p, Some(img));
      var bmp := bmps.Index(p);
      next := bmp.Get(LINK_IMG).value.next;
      var sc := bmp.data.dpiScale;
      var at := FindKnown(sc);
      var first := UnlinkFrom(dpiScales[at].bmps, LINK_DPI_SCALE, st.scaleOrder[sc], p, i);
      LeftOfImgStep(st, bmps.contents, p, i, first, l, links, j, img, table);
      ScalesSet(dpiScales, st.scales, at, dpiScales[at].(bmps := first));
      DeleteOfImg(p, at, first, WithoutOfImg(st, bmps.contents, p, i, first, img));
    }

    /** What the walk over the list of an image has changed apart from bitmaps. */
    static ghost predicate WalkedImg(was: State<S, B>, st: State<S, B>, l: seq<PoolPtr>, j: nat, img: PoolPtr)
      requires j <= |l|
    {
      st.imgs == was.imgs && SameCounts(st.scales, was.scales) && st.imgOrder == was.imgOrder[img := l[j..]]
    }

    method WalkImgOn(p: PoolPtr, ghost l: seq<PoolPtr>, ghost links: Links, ghost j: nat, ghost img: PoolPtr,
                     ghost table: map<Key<S>, B>, ghost was: State<S, B>)
      returns (next: PoolPtr)
      requires Pools() && LeftOfImg(st, l, links, j, img, table) && ScalesOk(dpiScales, st.scales)
      requires j < |l| && p == l[j] && WalkedImg(was, st, l, j, img)
      modifies this`st, this`dpiScales, bmps
      ensures Pools() && LeftOfImg(st, l, links, j + 1, img, table) && ScalesOk(dpiScales, st.scales)
      ensures WalkedImg(was, st, l, j + 1, img)
      ensures if j + 1 < |l| then next == l[j + 1] != l[0] else next == l[0]
    {
      hide LeftOfScale, LeftOfImg, ScalesOk, IsFreeList;
      next := DestroyNextOfImg(p, l, links, j, img, table);
      SetTwice(was.imgOrder, img, l[j..], l[j + 1..]);
    }

    /** Follows the list of an image round, deleting its bitmaps. */
    method WalkImg(firstPtr: PoolPtr, ghost l: seq<PoolPtr>, ghost links: Links, ghost img: PoolPtr,
                   ghost table: map<Key<S>, B>)
      requires Pools() && l != [] && firstPtr == l[0] && LeftOfImg(st, l, links, 0, img, table)
               && ScalesOk(dpiScales, st.scales)
      modifies this`st, this`dpiScales, bmps
      ensures Pools() && LeftOfImg(st, l, links, |l|, img, table) && ScalesOk(dpiScales, st.scales)
      ensures st.imgs == old(st.imgs) && SameCounts(st.scales, old(st.scales))
      ensures st.imgOrder == old(st.imgOrder)[img := []]
    {
      var p := firstPtr;
      ghost var j: nat, was := 0, st;
      SetSame(was.imgOrder, img, l);
      assert WalkedImg(was, st, l, 0, img) && l[|l|..] == [];
      hide LeftOfScale, LeftOfImg, ScalesOk, IsFreeList, SameCounts;
      while true
        invariant j < |l| && p == l[j] && Pools() && LeftOfImg(st, l, links, j, img, table)
        invariant ScalesOk(dpiScales, st.scales) && WalkedImg(was, st, l, j, img)
        decreases |l| - j
      {
        var next := WalkImgOn(p, l, links, j, img, table, was);
        j := j + 1;
        if next == firstPtr {
          break;
        }
        p := next;
      }
    }

    // ----- DPI scales -------------------------------------------------------------

    /** The place of a DPI scale in the vector. */
    method DpiScaleFind(dpiScale: S) returns (r: Option<nat>)
      requires ScalesOk(dpiScales, st.scales)
      ensures r.None? <==> dpiScale !in st.scales
      ensures r.Some? ==> r.value < |dpiScales| && dpiScales[r.value].dpiScale == dpiScale
    {
      for i := 0 to |dpiScales|
        invariant forall j :: 0 <= j < i ==> dpiScales[j].dpiScale != dpiScale
      {
        if dpiScales[i].dpiScale == dpiScale {
          return Some(i);
        }
      }
      r := None;
    }

    method FindKnown(dpiScale: S) returns (i: nat)
      requires ScalesOk(dpiScales, st.scales) && dpiScale in st.scales
      ensures i < |dpiScales| && dpiScales[i].dpiScale == dpiScale && dpiScales[i] == st.scales[dpiScale]
    {
      var r := DpiScaleFind(dpiScale);
      i := r.value;
    }

    /** Sets the known DPI scales. */
    method SetScales(ds: seq<CacheDpiScale<S>>, ghost after: State<S, B>)
      requires Pools() && after.imgs == st.imgs && after.bmps == st.bmps && after.slot == st.slot
      modifies this
      ensures Pools() && st == after && dpiScales == ds
    {
      dpiScales, st := ds, after;
    }

    method CountUp(i: nat, sc: S, count: nat)
      requires Valid() && i < |dpiScales| && dpiScales[i].dpiScale == sc
      requires dpiScales[i].refCount == count
      modifies this
      ensures Valid() && Table() == old(Table()) && Imgs() == old(Imgs())
      ensures sc in old(Counts()) && old(Counts())[sc] == count && Counts() == old(Counts())[sc := count + 1]
    {
      CountSet(st, dpiScales, i, count + 1);
      SetScales(dpiScales[i := dpiScales[i].(refCount := count + 1)], WithCount(st, sc, count + 1));
    }

    method PushScale(dpiScale: S)
      requires Valid() && dpiScale !in st.scales
      modifies this
      ensures Valid() && Table() == old(Table()) && Imgs() == old(Imgs())
      ensures dpiScale !in old(Counts()) && Counts() == old(Counts())[dpiScale := 1]
    {
      hide Consistent, ScalesOk, TableOf, CountsOf, AllUsed;
      NewScale(st, dpiScales, dpiScale);
      SetScales(dpiScales + [CacheDpiScale(dpiScale, 1, None)], WithScale(st, dpiScale));
    }

    /** One more client uses a DPI scale. */
    method DpiScaleAddRef(dpiScale: S)
      requires Valid()
      modifies this
      ensures Valid() && Table() == old(Table()) && Imgs() == old(Imgs())
      ensures var was := old(Counts());
              Counts() == was[dpiScale := if dpiScale in was then was[dpiScale] + 1 else 1]
    {
      hide Consistent, ScalesOk, AllUsed, TableOf, CountsOf;
      var r := DpiScaleFind(dpiScale);
      if r.Some? {
        CountUp(r.value, dpiScale, dpiScales[r.value].refCount);
      } else {
        PushScale(dpiScale);
      }
    }

    /** One client less uses a DPI scale, which must be known; with the last one the
        bitmaps of the DPI scale go. */
    method DpiScaleRelease(dpiScale: S)
      requires Valid() && dpiScale in Counts()
      modifies this, imgs, bmps
      ensures Valid() && Imgs() == old(Imgs())
      ensures old(Counts())[dpiScale] > 1 ==>
                Counts() == old(Counts())[dpiScale := old(Counts())[dpiScale] - 1] && Table() == old(Table())
      ensures old(Counts())[dpiScale] == 1 ==>
                Counts() == old(Counts()) - {dpiScale} && Table() == WithoutScale(old(Table()), dpiScale)
    {
      hide Consistent, ScalesOk, TableOf;
      var i := FindKnown(dpiScale);
      var count := dpiScales[i].refCount - 1;
      CountSet(st, dpiScales, i, count);
      OthersUsed(st, dpiScale);
      SetScales(dpiScales[i := dpiScales[i].(refCount := count)], WithCount(st, dpiScale, count));
      if count > 0 {
        return;
      }
      DestroyScaleList(dpiScales[i].bmps, dpiScale);
      DropScale(st, dpiScales, i);
      SetScales(SwapRemove(dpiScales, i), LessScale(st, dpiScale));
    }

    // ----- images -----------------------------------------------------------------

    method SetState(ghost after: State<S, B>)
      requires imgs as object != bmps as object && this as object != imgs && this as object != bmps
      requires imgs.Valid() && bmps.Valid() && after.imgs == imgs.contents && after.bmps == bmps.contents
      modifies this`st
      ensures Pools() && st == after
    {
      st := after;
    }

    /** Deletes the bitmaps of an image. */
    method DestroyImgList(head: Option<PoolPtr>, ghost img: PoolPtr)
      requires Pools() && Sound(st, dpiScales) && img in st.imgs && head == st.imgs[img].bmps
      modifies this`st, this`dpiScales, bmps
      ensures Pools() && Consistent(st, Some(img), None) && ScalesOk(dpiScales, st.scales)
      ensures st.imgs == old(st.imgs) && SameCounts(st.scales, old(st.scales))
      ensures img in st.imgOrder && st.imgOrder[img] == [] && Table() == WithoutImg(old(Table()), img)
    {
      ghost var l, links, table := st.imgOrder[img], LinksOf(st.bmps, LINK_IMG), Table();
      OpenImg(st, img);
      if head.Some? {
        WalkImg(head.value, l, links, img, table);
      }
      ImgGone(st, img);
    }

    /** A new image, without bitmaps. */
    method ImgAdd() returns (img: PoolPtr)
      requires Valid()
      modifies this`st, imgs
      ensures Valid() && Table() == old(Table()) && Counts() == old(Counts())
      ensures img !in old(Imgs()) && Imgs() == old(Imgs()) + {img}
    {
      img := imgs.Allocate(CacheImg(None));
      NewImg(st, dpiScales, img);
      SetState(WithImg(st, img));
    }

    method DeleteImg(img: PoolPtr)
      requires Pools() && img in st.imgs
      modifies this`st, imgs
      ensures Pools() && st == LessImg(old(st), img)
    {
      var _ := imgs.Deallocate(img);
      st := LessImg(st, img);
    }

    /** An image goes, with its bitmaps. */
    method ImgRemove(img: PoolPtr)
      requires Valid() && img in Imgs()
      modifies this`st, this`dpiScales, imgs, bmps
      ensures Valid() && Table() == WithoutImg(old(Table()), img) && Counts() == old(Counts())
      ensures Imgs() == old(Imgs()) - {img}
    {
      hide Consistent, ScalesOk, TableOf, WithoutImg, CountsOf, AllUsed, SameCounts, IsFreeList;
      var cacheImg := imgs.Index(img);
      ghost var scales := st.scales;
      DestroyImgList(cacheImg.bmps, img);
      DropImg(st, dpiScales, scales, img);
      hide LessImg;
      DeleteImg(img);
    }

    /** The bitmap of an image for a DPI scale. */
    method ImgFindBmp(img: PoolPtr, dpiScale: S) returns (r: Option<B>)
      requires Valid() && img in Imgs()
      ensures r == if (img, dpiScale) in Table() then Some(Table()[(img, dpiScale)]) else None
    {
      hide Consistent, TableOf, ScalesOk, IsFreeList;
      OpenImg(st, img);
      var cacheImg := imgs.Index(img);
      ghost var l, links, i: nat := st.imgOrder[img], LinksOf(st.bmps, LINK_IMG), 0;
      var next := cacheImg.bmps;
      while next.Some?
        invariant i <= |l| && next == if i < |l| then Some(l[i]) else None
        invariant forall j :: 0 <= j < i ==> l[j] in st.bmps && st.bmps[l[j]].data.dpiScale != dpiScale
        decreases |l| - i
      {
        assert RingAt(links, l, i);
        SameElement(l, NextIndex(i, |l|), 0);
        var p := next.value;
        var bmp := bmps.Index(p);
        if bmp.data.dpiScale == dpiScale {
          FoundBmp(st, img, p);
          return Some(bmp.data.bmp);
        }
        var link := bmp.Get(LINK_IMG).value;
        next := if Some(link.next) == cacheImg.bmps then None else Some(link.next);
        i := i + 1;
      }
      NoBmp(st, img, dpiScale);
      r := None;
    }

    /** Puts bitmap `p` at the back of a list. */
    method LinkInto(head: Option<PoolPtr>, f: Field, ghost order: seq<PoolPtr>, p: PoolPtr)
      returns (first: Option<PoolPtr>)
      requires bmps.Valid() && IsList(LinksOf(bmps.contents, f), head, order)
      requires p in bmps.contents && bmps.contents[p].Get(f) == None
      modifies bmps
      ensures bmps.Valid() && OnlyLinks(old(bmps.contents), bmps.contents, f, order + [p])
      ensures IsList(LinksOf(bmps.contents, f), first, order + [p])
    {
      var accessor := new ListAccessorMut(head, bmps, f, order);
      accessor.PushBack(p);
      first := accessor.first;
    }

    method StoreHeads(img: PoolPtr, second: Option<PoolPtr>, i: nat, first: Option<PoolPtr>, ghost after: State<S, B>)
      requires this as object != imgs && this as object != bmps && imgs as object != bmps as object
      requires imgs.Valid() && bmps.Valid() && img in imgs.contents && i < |dpiScales|
      requires after.imgs == imgs.contents[img := CacheImg(second)] && after.bmps == bmps.contents
      modifies this`st, this`dpiScales, imgs
      ensures Pools() && st == after && dpiScales == old(dpiScales)[i := old(dpiScales)[i].(bmps := first)]
    {
      dpiScales := dpiScales[i := dpiScales[i].(bmps := first)];
      imgs.Store(img, CacheImg(second));
      st := after;
    }

    /** Caches a bitmap for an image and DPI scale number `i`, for which there must not
        be one. */
    method ImgAddBmp(img: PoolPtr, i: nat, bmp: B)
      requires Valid() && img in Imgs() && i < |dpiScales| && (img, dpiScales[i].dpiScale) !in Table()
      modifies this`st, this`dpiScales, imgs, bmps
      ensures Valid() && Counts() == old(Counts()) && Imgs() == old(Imgs())
      ensures Table() == old(Table())[(img, old(dpiScales)[i].dpiScale) := bmp]
    {
      hide Sorted, Linked, SlotsOk, TableOf, IsFreeList;
      var sc := dpiScales[i].dpiScale;
      var e := Node(CacheBmp(img, sc, bmp), map[]);
      ListsOf(st, dpiScales, i, img);
      var p := bmps.Allocate(e);
      Unlisted(st.bmps, p, e, LINK_DPI_SCALE, dpiScales[i].bmps, st.scaleOrder[sc]);
      Unlisted(st.bmps, p, e, LINK_IMG, st.imgs[img].bmps, st.imgOrder[img]);
      var first := LinkInto(dpiScales[i].bmps, LINK_DPI_SCALE, st.scaleOrder[sc], p);
      ghost var m := bmps.contents;
      var cacheImg := imgs.Index(img);
      OtherListsKept(st.bmps[p := e], m, LINK_DPI_SCALE, st.scaleOrder[sc] + [p], LINK_IMG, cacheImg.bmps,
          st.imgOrder[img]);
      OtherLinksKept(st.bmps[p := e], m, LINK_DPI_SCALE, st.scaleOrder[sc] + [p], LINK_IMG);
      assert LinksOf(m, LINK_IMG)[p] == LinksOf(st.bmps[p := e], LINK_IMG)[p];
      var second := LinkInto(cacheImg.bmps, LINK_IMG, st.imgOrder[img], p);
      NewBmp(st, dpiScales, i, e, m, bmps.contents, p, first, img, second);
      StoreHeads(img, second, i, first, WithBmp(st, bmps.contents, p, sc, first, img, second));
    }
  }

  /** The same DPI scales with the same reference counts. */
  ghost predicate SameCounts<S>(a: map<S, CacheDpiScale<S>>, b: map<S, CacheDpiScale<S>>) {
    a.Keys == b.Keys && forall s :: s in a ==> a[s].refCount == b[s].refCount
  }

  lemma {:induction false} SameCountsOf<S>(a: map<S, CacheDpiScale<S>>, b: map<S, CacheDpiScale<S>>)
    requires SameCounts(a, b)
    ensures CountsOf(a) == CountsOf(b) && (AllUsed(b) ==> AllUsed(a))
  {
  }
}
