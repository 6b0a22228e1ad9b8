/** The contents of the image cache as a value, and what the changes of one bitmap do
    to it. */
module CacheState {
  import opened Wrappers
  import opened LeakyPool
  import opened IntrusiveList
  import opened ListIndex

  datatype CacheImg = CacheImg(bmps: Option<PoolPtr>)

  /** A DPI scale in use by `refCount` clients. */
  datatype CacheDpiScale<S> = CacheDpiScale(dpiScale: S, refCount: nat, bmps: Option<PoolPtr>)

  datatype CacheBmp<S, B> = CacheBmp(img: PoolPtr, dpiScale: S, bmp: B)

  // The link fields of a bitmap.
  const LINK_IMG: Field := 0
  const LINK_DPI_SCALE: Field := 1

  type Bmps<S, B> = map<PoolPtr, Node<CacheBmp<S, B>>>
  type Key<S> = (PoolPtr, S)

  ghost function KeyOf<S, B>(e: Node<CacheBmp<S, B>>): Key<S> {
    (e.data.img, e.data.dpiScale)
  }

  ghost function ImgKeys<S, B>(m: Bmps<S, B>): map<PoolPtr, PoolPtr> {
    map p | p in m :: m[p].data.img
  }

  ghost function ScaleKeys<S, B>(m: Bmps<S, B>): map<PoolPtr, S> {
    map p | p in m :: m[p].data.dpiScale
  }

  ghost function ImgHeads(m: map<PoolPtr, CacheImg>): map<PoolPtr, Option<PoolPtr>> {
    map i | i in m :: m[i].bmps
  }

  ghost function ScaleHeads<S>(scales: map<S, CacheDpiScale<S>>): map<S, Option<PoolPtr>> {
    map s | s in scales :: scales[s].bmps
  }

  /** `slot` gives the one bitmap of each image and DPI scale. */
  ghost predicate SlotsOk<S, B>(m: Bmps<S, B>, slot: map<Key<S>, PoolPtr>) {
    && (forall k :: k in slot ==> slot[k] in m && KeyOf(m[slot[k]]) == k)
    && (forall p :: p in m ==> KeyOf(m[p]) in slot && slot[KeyOf(m[p])] == p)
  }

  /** What the cache stands for: a bitmap for some images and DPI scales. */
  ghost function TableOf<S, B>(m: Bmps<S, B>, slot: map<Key<S>, PoolPtr>): map<Key<S>, B> {
    map k | k in slot && slot[k] in m :: m[slot[k]].data.bmp
  }

  /** The contents of the cache, with the elements of every list in order. */
  datatype State<S, B> = State(
    imgs: map<PoolPtr, CacheImg>,
    bmps: Bmps<S, B>,
    scales: map<S, CacheDpiScale<S>>,
    imgOrder: map<PoolPtr, seq<PoolPtr>>,
    scaleOrder: map<S, seq<PoolPtr>>,
    slot: map<Key<S>, PoolPtr>)

  ghost predicate ImgLists<S, B>(st: State<S, B>, open: Option<PoolPtr>) {
    Indexed(LinksOf(st.bmps, LINK_IMG), ImgKeys(st.bmps), ImgHeads(st.imgs), st.imgOrder, open)
  }

  ghost predicate ScaleLists<S, B>(st: State<S, B>, open: Option<S>) {
    Indexed(LinksOf(st.bmps, LINK_DPI_SCALE), ScaleKeys(st.bmps), ScaleHeads(st.scales), st.scaleOrder, open)
  }

  /** Each bitmap is in the list of its image and in the list of its DPI scale and in
      no other, and there is one bitmap at most for an image and a DPI scale.  The
      links of the lists `openImg` and `openScale`, which are being destroyed, are
      not known to be in order. */
  ghost predicate Consistent<S, B>(st: State<S, B>, openImg: Option<PoolPtr>, openScale: Option<S>) {
    ImgLists(st, openImg) && ScaleLists(st, openScale) && SlotsOk(st.bmps, st.slot)
  }

  // ----- one bitmap -------------------------------------------------------------

  lemma {:induction false} SlotsTouch<S, B>(a: Bmps<S, B>, b: Bmps<S, B>, f: Field, s: seq<PoolPtr>,
                                            slot: map<Key<S>, PoolPtr>)
    requires OnlyLinks(a, b, f, s) && SlotsOk(a, slot)
    ensures SlotsOk(b, slot) && TableOf(b, slot) == TableOf(a, slot)
    ensures forall p :: p in b ==> p in a && KeyOf(b[p]) == KeyOf(a[p])
    ensures ImgKeys(b) == ImgKeys(a) && ScaleKeys(b) == ScaleKeys(a)
  {
    assert forall p :: p in b ==> p in a && b[p].data == a[p].data;
  }

  lemma {:induction false} SlotsRemove<S, B>(m: Bmps<S, B>, p: PoolPtr, slot: map<Key<S>, PoolPtr>)
    requires SlotsOk(m, slot) && p in m
    ensures SlotsOk(m - {p}, slot - {KeyOf(m[p])})
    ensures TableOf(m - {p}, slot - {KeyOf(m[p])}) == TableOf(m, slot) - {KeyOf(m[p])}
  {
  }

  lemma {:induction false} SlotsAdd<S, B>(m: Bmps<S, B>, p: PoolPtr, e: Node<CacheBmp<S, B>>,
                                          slot: map<Key<S>, PoolPtr>)
    requires SlotsOk(m, slot) && p !in m && KeyOf(e) !in slot
    ensures SlotsOk(m[p := e], slot[KeyOf(e) := p])
    ensures TableOf(m[p := e], slot[KeyOf(e) := p]) == TableOf(m, slot)[KeyOf(e) := e.data.bmp]
  {
  }

  lemma {:induction false} KeysAdd<S, B>(m: Bmps<S, B>, p: PoolPtr, e: Node<CacheBmp<S, B>>)
    ensures ImgKeys(m[p := e]) == ImgKeys(m)[p := e.data.img]
            && ScaleKeys(m[p := e]) == ScaleKeys(m)[p := e.data.dpiScale]
  {
  }

  /** Bitmap `p` was taken out of the list `s`, where it was at place `i`, by way of
      field `f`: the bitmaps are `n` now and the list starts with `first`. */
  ghost predicate TakenOut<S, B>(m: Bmps<S, B>, n: Bmps<S, B>, f: Field, s: seq<PoolPtr>, p: PoolPtr, i: nat,
                                 first: Option<PoolPtr>) {
    i < |s| && s[i] == p && p in m && OnlyLinks(m, n, f, s) && IsList(LinksOf(n, f), first, Without(s, i))
  }

  // The lists of images and of DPI scales, one at a time.

  lemma {:induction false} HeadsSet<S>(imgs: map<PoolPtr, CacheImg>, img: PoolPtr, scales: map<S, CacheDpiScale<S>>,
                                       sc: S, first: Option<PoolPtr>)
    ensures ImgHeads(imgs[img := CacheImg(first)]) == ImgHeads(imgs)[img := first]
    ensures sc in scales ==> ScaleHeads(scales[sc := scales[sc].(bmps := first)]) == ScaleHeads(scales)[sc := first]
  {
  }

  lemma {:induction false} KeysRemove<S, B>(m: Bmps<S, B>, n: Bmps<S, B>, f: Field, s: seq<PoolPtr>, p: PoolPtr)
    requires OnlyLinks(m, n, f, s)
    ensures ImgKeys(n - {p}) == ImgKeys(m) - {p} && ScaleKeys(n - {p}) == ScaleKeys(m) - {p}
  {
  }

  lemma {:induction false} LinksRemove<E>(m: map<PoolPtr, Node<E>>, n: map<PoolPtr, Node<E>>, f: Field, s: seq<PoolPtr>,
                                          p: PoolPtr, g: Field)
    requires OnlyLinks(m, n, f, s)
    ensures LinksOf(m, g).Keys == LinksOf(n, g).Keys
    ensures LinksOf(n - {p}, g) == LinksOf(n, g) - {p}
    ensures g != f ==> LinksOf(n, g) == LinksOf(m, g)
    ensures forall q :: q in LinksOf(m, g) && q !in s ==> LinksOf(n, g)[q] == LinksOf(m, g)[q]
  {
  }

  lemma {:induction false} ImgListShrinks<S, B>(m: Bmps<S, B>, n: Bmps<S, B>, p: PoolPtr, i: nat,
                                                first: Option<PoolPtr>,
                                                imgs: map<PoolPtr, CacheImg>, order: map<PoolPtr, seq<PoolPtr>>,
                                                img: PoolPtr)
    requires Indexed(LinksOf(m, LINK_IMG), ImgKeys(m), ImgHeads(imgs), order, None)
    requires p in m && img == m[p].data.img && img in order && TakenOut(m, n, LINK_IMG, order[img], p, i, first)
    ensures Indexed(LinksOf(n - {p}, LINK_IMG), ImgKeys(n - {p}), ImgHeads(imgs[img := CacheImg(first)]),
            order[img := Without(order[img], i)], None)
  {
    hide Sorted, Linked, ImgHeads;
    KeysRemove(m, n, LINK_IMG, order[img], p);
    LinksRemove(m, n, LINK_IMG, order[img], p, LINK_IMG);
    var a, b, keys, heads := LinksOf(m, LINK_IMG), LinksOf(n, LINK_IMG), ImgKeys(m), ImgHeads(imgs);
    assert keys[p] == img;
    IndexedRemove(a, b, keys, p, i, first, heads, order, None);
    HeadsSet<()>(imgs, img, map[], (), first);
  }

  lemma {:induction false} ImgListDrops<S, B>(m: Bmps<S, B>, n: Bmps<S, B>, s: seq<PoolPtr>, p: PoolPtr,
                                              imgs: map<PoolPtr, CacheImg>, order: map<PoolPtr, seq<PoolPtr>>,
                                              img: PoolPtr)
    requires Indexed(LinksOf(m, LINK_IMG), ImgKeys(m), ImgHeads(imgs), order, Some(img))
    requires img in order && order[img] != [] && order[img][0] == p && OnlyLinks(m, n, LINK_DPI_SCALE, s)
    ensures Indexed(LinksOf(n - {p}, LINK_IMG), ImgKeys(n - {p}), ImgHeads(imgs), order[img := order[img][1..]],
            Some(img))
  {
    KeysRemove(m, n, LINK_DPI_SCALE, s, p);
    LinksRemove(m, n, LINK_DPI_SCALE, s, p, LINK_IMG);
    IndexedDrop(LinksOf(m, LINK_IMG), ImgKeys(m), p, ImgHeads(imgs), order, img);
  }

  lemma {:induction false} ScaleListShrinks<S, B>(m: Bmps<S, B>, n: Bmps<S, B>, p: PoolPtr, i: nat,
                                                  first: Option<PoolPtr>,
                                                  scales: map<S, CacheDpiScale<S>>, order: map<S, seq<PoolPtr>>, sc: S)
    requires Indexed(LinksOf(m, LINK_DPI_SCALE), ScaleKeys(m), ScaleHeads(scales), order, None)
    requires p in m && sc == m[p].data.dpiScale && sc in order && sc in scales
    requires TakenOut(m, n, LINK_DPI_SCALE, order[sc], p, i, first)
    ensures Indexed(LinksOf(n - {p}, LINK_DPI_SCALE), ScaleKeys(n - {p}),
            ScaleHeads(scales[sc := scales[sc].(bmps := first)]),
                    order[sc := Without(order[sc], i)], None)
  {
    hide Sorted, Linked, ScaleHeads;
    KeysRemove(m, n, LINK_DPI_SCALE, order[sc], p);
    LinksRemove(m, n, LINK_DPI_SCALE, order[sc], p, LINK_DPI_SCALE);
    var a, b, keys, heads := LinksOf(m, LINK_DPI_SCALE), LinksOf(n, LINK_DPI_SCALE), ScaleKeys(m), ScaleHeads(scales);
    assert keys[p] == sc;
    IndexedRemove(a, b, keys, p, i, first, heads, order, None);
    HeadsSet(map[], 0, scales, sc, first);
  }

  lemma {:induction false} ScaleListDrops<S, B>(m: Bmps<S, B>, n: Bmps<S, B>, s: seq<PoolPtr>, p: PoolPtr,
                                                scales: map<S, CacheDpiScale<S>>, order: map<S, seq<PoolPtr>>, sc: S)
    requires Indexed(LinksOf(m, LINK_DPI_SCALE), ScaleKeys(m), ScaleHeads(scales), order, Some(sc))
    requires sc in order && order[sc] != [] && order[sc][0] == p && OnlyLinks(m, n, LINK_IMG, s)
    ensures Indexed(LinksOf(n - {p}, LINK_DPI_SCALE), ScaleKeys(n - {p}), ScaleHeads(scales),
            order[sc := order[sc][1..]], Some(sc))
  {
    KeysRemove(m, n, LINK_IMG, s, p);
    LinksRemove(m, n, LINK_IMG, s, p, LINK_DPI_SCALE);
    IndexedDrop(LinksOf(m, LINK_DPI_SCALE), ScaleKeys(m), p, ScaleHeads(scales), order, sc);
  }

  lemma {:induction false} SlotsDrop<S, B>(m: Bmps<S, B>, n: Bmps<S, B>, f: Field, s: seq<PoolPtr>, p: PoolPtr,
                                           slot: map<Key<S>, PoolPtr>)
    requires OnlyLinks(m, n, f, s) && SlotsOk(m, slot) && p in m
    ensures SlotsOk(n - {p}, slot - {KeyOf(m[p])})
    ensures TableOf(n - {p}, slot - {KeyOf(m[p])}) == TableOf(m, slot) - {KeyOf(m[p])}
  {
    SlotsTouch(m, n, f, s, slot);
    SlotsRemove(n, p, slot);
  }

  /** The state after bitmap `p`, at place `i` of the list of its image and first in
      the list `sc`, which is being destroyed, is deleted. */
  ghost function WithoutOfScale<S, B>(st: State<S, B>, n: Bmps<S, B>, p: PoolPtr, i: nat, first: Option<PoolPtr>,
                                      sc: S): State<S, B>
    requires p in st.bmps && st.bmps[p].data.img in st.imgOrder && i < |st.imgOrder[st.bmps[p].data.img]|
    requires sc in st.scaleOrder && st.scaleOrder[sc] != []
  {
    var img := st.bmps[p].data.img;
    State(st.imgs[img := CacheImg(first)], n - {p}, st.scales,
          st.imgOrder[img := Without(st.imgOrder[img], i)], st.scaleOrder[sc := st.scaleOrder[sc][1..]],
          st.slot - {KeyOf(st.bmps[p])})
  }

  lemma {:induction false} DestroyedOfScale<S, B>(st: State<S, B>, n: Bmps<S, B>, p: PoolPtr, i: nat,
                                                  first: Option<PoolPtr>, sc: S)
    requires Consistent(st, None, Some(sc)) && sc in st.scaleOrder && st.scaleOrder[sc] != []
             && st.scaleOrder[sc][0] == p
    requires p in st.bmps && st.bmps[p].data.img in st.imgOrder
    requires TakenOut(st.bmps, n, LINK_IMG, st.imgOrder[st.bmps[p].data.img], p, i, first)
    ensures Consistent(WithoutOfScale(st, n, p, i, first, sc), None, Some(sc))
    ensures OnlyLinks(st.bmps - {p}, n - {p}, LINK_IMG, st.imgOrder[st.bmps[p].data.img])
    ensures TableOf(n - {p}, st.slot - {KeyOf(st.bmps[p])}) == TableOf(st.bmps, st.slot) - {KeyOf(st.bmps[p])}
  {
    hide Sorted, Linked, SlotsOk, TableOf, IsRing;
    var img := st.bmps[p].data.img;
    ImgListShrinks(st.bmps, n, p, i, first, st.imgs, st.imgOrder, img);
    ScaleListDrops(st.bmps, n, st.imgOrder[img], p, st.scales, st.scaleOrder, sc);
    SlotsDrop(st.bmps, n, LINK_IMG, st.imgOrder[img], p, st.slot);
  }

  /** The state after bitmap `p`, at place `i` of the list of its DPI scale and first
      in the list `img`, which is being destroyed, is deleted. */
  ghost function WithoutOfImg<S, B>(st: State<S, B>, n: Bmps<S, B>, p: PoolPtr, i: nat, first: Option<PoolPtr>,
                                    img: PoolPtr): State<S, B>
    requires p in st.bmps && st.bmps[p].data.dpiScale in st.scaleOrder && i < |st.scaleOrder[st.bmps[p].data.dpiScale]|
    requires st.bmps[p].data.dpiScale in st.scales && img in st.imgOrder && st.imgOrder[img] != []
  {
    var sc := st.bmps[p].data.dpiScale;
    State(st.imgs, n - {p}, st.scales[sc := st.scales[sc].(bmps := first)],
          st.imgOrder[img := st.imgOrder[img][1..]], st.scaleOrder[sc := Without(st.scaleOrder[sc], i)],
          st.slot - {KeyOf(st.bmps[p])})
  }

  lemma {:induction false} DestroyedOfImg<S, B>(st: State<S, B>, n: Bmps<S, B>, p: PoolPtr, i: nat,
                                                first: Option<PoolPtr>, img: PoolPtr)
    requires Consistent(st, Some(img), None) && img in st.imgOrder && st.imgOrder[img] != [] && st.imgOrder[img][0] == p
    requires p in st.bmps && st.bmps[p].data.dpiScale in st.scaleOrder && st.bmps[p].data.dpiScale in st.scales
    requires TakenOut(st.bmps, n, LINK_DPI_SCALE, st.scaleOrder[st.bmps[p].data.dpiScale], p, i, first)
    ensures Consistent(WithoutOfImg(st, n, p, i, first, img), Some(img), None)
    ensures OnlyLinks(st.bmps - {p}, n - {p}, LINK_DPI_SCALE, st.scaleOrder[st.bmps[p].data.dpiScale])
    ensures TableOf(n - {p}, st.slot - {KeyOf(st.bmps[p])}) == TableOf(st.bmps, st.slot) - {KeyOf(st.bmps[p])}
  {
    hide Sorted, Linked, SlotsOk, TableOf, IsRing;
    var sc := st.bmps[p].data.dpiScale;
    ScaleListShrinks(st.bmps, n, p, i, first, st.scales, st.scaleOrder, sc);
    ImgListDrops(st.bmps, n, st.scaleOrder[sc], p, st.imgs, st.imgOrder, img);
    SlotsDrop(st.bmps, n, LINK_DPI_SCALE, st.scaleOrder[sc], p, st.slot);
  }

  /** Where a bitmap is in the list of its image. */
  lemma {:induction false} PlaceInImg<S, B>(st: State<S, B>, p: PoolPtr, openScale: Option<S>) returns (i: nat)
    requires Consistent(st, None, openScale) && p in st.bmps
    ensures var img := st.bmps[p].data.img;
            && img in st.imgs && img in st.imgOrder && i < |st.imgOrder[img]| && st.imgOrder[img][i] == p
            && IsList(LinksOf(st.bmps, LINK_IMG), st.imgs[img].bmps, st.imgOrder[img])
  {
    var img := ImgKeys(st.bmps)[p];
    assert p in st.imgOrder[img] && img in ImgHeads(st.imgs);
    i :| i < |st.imgOrder[img]| && st.imgOrder[img][i] == p;
  }

  /** Where a bitmap is in the list of its DPI scale. */
  lemma {:induction false} PlaceInScale<S, B>(st: State<S, B>, p: PoolPtr, openImg: Option<PoolPtr>) returns (i: nat)
    requires Consistent(st, openImg, None) && p in st.bmps
    ensures var sc := st.bmps[p].data.dpiScale;
            && sc in st.scales && sc in st.scaleOrder && i < |st.scaleOrder[sc]| && st.scaleOrder[sc][i] == p
            && IsList(LinksOf(st.bmps, LINK_DPI_SCALE), st.scales[sc].bmps, st.scaleOrder[sc])
  {
    var sc := ScaleKeys(st.bmps)[p];
    assert p in st.scaleOrder[sc] && sc in ScaleHeads(st.scales);
    i :| i < |st.scaleOrder[sc]| && st.scaleOrder[sc][i] == p;
  }

  /** The bitmaps of a list are there. */
  lemma {:induction false} InScaleList<S, B>(st: State<S, B>, sc: S, p: PoolPtr, open: Option<S>)
    requires ScaleLists(st, open) && sc in st.scaleOrder && p in st.scaleOrder[sc]
    ensures p in st.bmps && st.bmps[p].data.dpiScale == sc
  {
    assert ScaleKeys(st.bmps)[p] == sc;
  }

  lemma {:induction false} InImgList<S, B>(st: State<S, B>, img: PoolPtr, p: PoolPtr, open: Option<PoolPtr>)
    requires ImgLists(st, open) && img in st.imgOrder && p in st.imgOrder[img]
    ensures p in st.bmps && st.bmps[p].data.img == img
  {
    assert ImgKeys(st.bmps)[p] == img;
  }

  // ----- destroying a list ------------------------------------------------------

  /** The elements `l[j..]` are left of a ring whose links were `links`. */
  ghost predicate ListLeft<E>(m: map<PoolPtr, Node<E>>, g: Field, l: seq<PoolPtr>, links: Links, j: nat,
                              left: seq<PoolPtr>) {
    && IsRing(links, l) && j <= |l| && left == l[j..]
    && forall i :: j <= i < |l| ==> l[i] in m && l[i] in links && m[l[i]].Get(g) == links[l[i]]
  }

  lemma {:induction false} ListLeftStep<E>(m: map<PoolPtr, Node<E>>, n: map<PoolPtr, Node<E>>, f: Field,
                                           s: seq<PoolPtr>,
                                           g: Field, l: seq<PoolPtr>, links: Links, j: nat)
    requires j < |l| && ListLeft(m, g, l, links, j, l[j..]) && f != g
    requires OnlyLinks(m - {l[j]}, n, f, s)
    ensures ListLeft(n, g, l, links, j + 1, l[j..][1..])
  {
    forall i | j + 1 <= i < |l| ensures l[i] in n && n[l[i]].Get(g) == m[l[i]].Get(g) {
      SameElement(l, i, j);
      assert l[i] in m - {l[j]};
    }
  }

  /** The table without the bitmaps of a DPI scale, or of an image. */
  ghost function WithoutScale<S, B>(t: map<Key<S>, B>, sc: S): map<Key<S>, B> {
    map k | k in t && k.1 != sc :: t[k]
  }

  ghost function WithoutImg<S, B>(t: map<Key<S>, B>, img: PoolPtr): map<Key<S>, B> {
    map k | k in t && k.0 != img :: t[k]
  }

  lemma {:induction false} OpenScale<S, B>(st: State<S, B>, sc: S)
    requires Consistent(st, None, None) && sc in st.scaleOrder && sc in st.scales
    ensures Consistent(st, None, Some(sc))
    ensures IsList(LinksOf(st.bmps, LINK_DPI_SCALE), st.scales[sc].bmps, st.scaleOrder[sc])
    ensures ListLeft(st.bmps, LINK_DPI_SCALE, st.scaleOrder[sc], LinksOf(st.bmps, LINK_DPI_SCALE), 0, st.scaleOrder[sc])
  {
    assert sc in ScaleHeads(st.scales);
    forall i: nat | i < |st.scaleOrder[sc]| ensures st.scaleOrder[sc][i] in st.bmps {
      assert RingAt(LinksOf(st.bmps, LINK_DPI_SCALE), st.scaleOrder[sc], i);
    }
  }

  lemma {:induction false} ScaleGone<S, B>(st: State<S, B>, sc: S)
    requires Consistent(st, None, Some(sc)) && sc in st.scaleOrder && st.scaleOrder[sc] == []
    ensures TableOf(st.bmps, st.slot) == WithoutScale(TableOf(st.bmps, st.slot), sc)
  {
    forall k | k in st.slot ensures k.1 != sc {
      assert ScaleKeys(st.bmps)[st.slot[k]] == k.1;
    }
  }

  /** The bitmaps `l[j..]` are left of the list of a DPI scale, which was in order
      with the links `links`; all others are as in `table`. */
  ghost predicate LeftOfScale<S, B>(st: State<S, B>, l: seq<PoolPtr>, links: Links, j: nat, sc: S,
                                    table: map<Key<S>, B>) {
    && Consistent(st, None, Some(sc)) && sc in st.scaleOrder
    && ListLeft(st.bmps, LINK_DPI_SCALE, l, links, j, st.scaleOrder[sc])
    && WithoutScale(TableOf(st.bmps, st.slot), sc) == WithoutScale(table, sc)
  }

  lemma {:induction false} LeftOfScaleStep<S, B>(st: State<S, B>, n: Bmps<S, B>, p: PoolPtr, i: nat,
                                                 first: Option<PoolPtr>,
                                                 l: seq<PoolPtr>, links: Links, j: nat, sc: S, table: map<Key<S>, B>)
    requires LeftOfScale(st, l, links, j, sc, table) && j < |l| && p == l[j]
    requires p in st.bmps && st.bmps[p].data.img in st.imgOrder && st.bmps[p].data.dpiScale == sc
    requires TakenOut(st.bmps, n, LINK_IMG, st.imgOrder[st.bmps[p].data.img], p, i, first)
    ensures st.scaleOrder[sc] != [] && LeftOfScale(WithoutOfScale(st, n, p, i, first, sc), l, links, j + 1, sc, table)
    ensures l[j..][1..] == l[j + 1..]
  {
    DestroyedOfScale(st, n, p, i, first, sc);
    ListLeftStep(st.bmps, n - {p}, LINK_IMG, st.imgOrder[st.bmps[p].data.img], LINK_DPI_SCALE, l, links, j);
    DropOfScale(TableOf(st.bmps, st.slot), KeyOf(st.bmps[p]));
  }

  lemma {:induction false} DropOfScale<S, B>(t: map<Key<S>, B>, k: Key<S>)
    ensures WithoutScale(t - {k}, k.1) == WithoutScale(t, k.1) && WithoutImg(t - {k}, k.0) == WithoutImg(t, k.0)
  {
  }

  /** The bitmaps `l[j..]` are left of the list of an image, which was in order with
      the links `links`; all others are as in `table`. */
  ghost predicate LeftOfImg<S, B>(st: State<S, B>, l: seq<PoolPtr>, links: Links, j: nat, img: PoolPtr,
                                  table: map<Key<S>, B>) {
    && Consistent(st, Some(img), None) && img in st.imgOrder
    && ListLeft(st.bmps, LINK_IMG, l, links, j, st.imgOrder[img])
    && WithoutImg(TableOf(st.bmps, st.slot), img) == WithoutImg(table, img)
  }

  lemma {:induction false} LeftOfImgStep<S, B>(st: State<S, B>, n: Bmps<S, B>, p: PoolPtr, i: nat,
                                               first: Option<PoolPtr>,
                                               l: seq<PoolPtr>, links: Links, j: nat, img: PoolPtr,
                                               table: map<Key<S>, B>)
    requires LeftOfImg(st, l, links, j, img, table) && j < |l| && p == l[j]
    requires p in st.bmps && st.bmps[p].data.dpiScale in st.scaleOrder && st.bmps[p].data.dpiScale in st.scales
             && st.bmps[p].data.img == img
    requires TakenOut(st.bmps, n, LINK_DPI_SCALE, st.scaleOrder[st.bmps[p].data.dpiScale], p, i, first)
    ensures st.imgOrder[img] != [] && LeftOfImg(WithoutOfImg(st, n, p, i, first, img), l, links, j + 1, img, table)
    ensures l[j..][1..] == l[j + 1..]
  {
    DestroyedOfImg(st, n, p, i, first, img);
    ListLeftStep(st.bmps, n - {p}, LINK_DPI_SCALE, st.scaleOrder[st.bmps[p].data.dpiScale], LINK_IMG, l, links, j);
    DropOfScale(TableOf(st.bmps, st.slot), KeyOf(st.bmps[p]));
  }

  lemma {:induction false} OpenImg<S, B>(st: State<S, B>, img: PoolPtr)
    requires Consistent(st, None, None) && img in st.imgs
    ensures img in st.imgOrder && Consistent(st, Some(img), None)
    ensures IsList(LinksOf(st.bmps, LINK_IMG), st.imgs[img].bmps, st.imgOrder[img])
    ensures ListLeft(st.bmps, LINK_IMG, st.imgOrder[img], LinksOf(st.bmps, LINK_IMG), 0, st.imgOrder[img])
  {
    assert img in ImgHeads(st.imgs);
    forall i: nat | i < |st.imgOrder[img]| ensures st.imgOrder[img][i] in st.bmps {
      assert RingAt(LinksOf(st.bmps, LINK_IMG), st.imgOrder[img], i);
    }
  }

  lemma {:induction false} ImgGone<S, B>(st: State<S, B>, img: PoolPtr)
    requires Consistent(st, Some(img), None) && img in st.imgOrder && st.imgOrder[img] == []
    ensures TableOf(st.bmps, st.slot) == WithoutImg(TableOf(st.bmps, st.slot), img)
  {
    forall k | k in st.slot ensures k.0 != img {
      assert ImgKeys(st.bmps)[st.slot[k]] == k.0;
    }
  }

  // ----- images and DPI scales --------------------------------------------------

  lemma {:induction false} ImgAdded<S, B>(st: State<S, B>, img: PoolPtr)
    requires Consistent(st, None, None) && img !in st.imgs
    ensures Consistent(st.(imgs := st.imgs[img := CacheImg(None)], imgOrder := st.imgOrder[img := []]), None, None)
  {
    assert ImgHeads(st.imgs[img := CacheImg(None)]) == ImgHeads(st.imgs)[img := None];
    IndexedNewKey(LinksOf(st.bmps, LINK_IMG), ImgKeys(st.bmps), ImgHeads(st.imgs), st.imgOrder, img);
  }

  lemma {:induction false} ImgRemoved<S, B>(st: State<S, B>, img: PoolPtr)
    requires Consistent(st, Some(img), None) && img in st.imgOrder && st.imgOrder[img] == []
    ensures Consistent(st.(imgs := st.imgs - {img}, imgOrder := st.imgOrder - {img}), None, None)
  {
    assert ImgHeads(st.imgs - {img}) == ImgHeads(st.imgs) - {img};
    IndexedDropKey(LinksOf(st.bmps, LINK_IMG), ImgKeys(st.bmps), ImgHeads(st.imgs), st.imgOrder, img);
  }

  lemma {:induction false} ScaleAdded<S, B>(st: State<S, B>, sc: S)
    requires Consistent(st, None, None) && sc !in st.scales
    ensures Consistent(st.(scales := st.scales[sc := CacheDpiScale(sc, 1, None)],
            scaleOrder := st.scaleOrder[sc := []]), None, None)
  {
    assert ScaleHeads(st.scales[sc := CacheDpiScale(sc, 1, None)]) == ScaleHeads(st.scales)[sc := None];
    IndexedNewKey(LinksOf(st.bmps, LINK_DPI_SCALE), ScaleKeys(st.bmps), ScaleHeads(st.scales), st.scaleOrder, sc);
  }

  lemma {:induction false} ScaleRemoved<S, B>(st: State<S, B>, sc: S)
    requires Consistent(st, None, Some(sc)) && sc in st.scaleOrder && st.scaleOrder[sc] == []
    ensures Consistent(st.(scales := st.scales - {sc}, scaleOrder := st.scaleOrder - {sc}), None, None)
  {
    assert ScaleHeads(st.scales - {sc}) == ScaleHeads(st.scales) - {sc};
    IndexedDropKey(LinksOf(st.bmps, LINK_DPI_SCALE), ScaleKeys(st.bmps), ScaleHeads(st.scales), st.scaleOrder, sc);
  }

  /** A reference count has changed. */
  lemma {:induction false} ScaleCounted<S, B>(st: State<S, B>, sc: S, count: nat)
    requires Consistent(st, None, None) && sc in st.scales
    ensures sc in st.scaleOrder
    ensures Consistent(st.(scales := st.scales[sc := st.scales[sc].(refCount := count)]), None, None)
  {
    assert sc in ScaleHeads(st.scales);
    assert ScaleHeads(st.scales[sc := st.scales[sc].(refCount := count)]) == ScaleHeads(st.scales);
  }

  // ----- a new bitmap -----------------------------------------------------------

  /** The pool `m` with the unlinked bitmap `e` added at `p`. */
  lemma {:induction false} Unlisted<E>(m: map<PoolPtr, Node<E>>, p: PoolPtr, e: Node<E>, f: Field,
                                       first: Option<PoolPtr>, s: seq<PoolPtr>)
    requires p !in m && IsList(LinksOf(m, f), first, s)
    ensures IsList(LinksOf(m[p := e], f), first, s) && p !in s
  {
    forall i: nat | i < |s| ensures s[i] in m {
      assert RingAt(LinksOf(m, f), s, i);
    }
    RingFrame(LinksOf(m, f), LinksOf(m[p := e], f), s);
  }

  /** Bitmap `p` was added to a pool `m` as `e` and then put, with no other change,
      in a list by way of its link field `f`: the pool is `n` now. */
  ghost predicate Listed<E>(m: map<PoolPtr, Node<E>>, n: map<PoolPtr, Node<E>>, p: PoolPtr, f: Field, s: seq<PoolPtr>,
                            first: Option<PoolPtr>) {
    && p !in m && n.Keys == m.Keys + {p} && IsList(LinksOf(n, f), first, s + [p])
    && forall q :: q in m && q !in s ==> n[q].Get(f) == m[q].Get(f)
  }

  lemma {:induction false} ListedTwice<E>(m: map<PoolPtr, Node<E>>, p: PoolPtr, e: Node<E>,
                                          a: map<PoolPtr, Node<E>>, f: Field, s: seq<PoolPtr>, first: Option<PoolPtr>,
                                          b: map<PoolPtr, Node<E>>, g: Field, t: seq<PoolPtr>, second: Option<PoolPtr>)
    requires p !in m && f != g
    requires OnlyLinks(m[p := e], a, f, s + [p]) && IsList(LinksOf(a, f), first, s + [p])
    requires OnlyLinks(a, b, g, t + [p]) && IsList(LinksOf(b, g), second, t + [p])
    ensures Listed(m, b, p, f, s, first) && Listed(m, b, p, g, t, second)
  {
    OtherLinksKept(a, b, g, t + [p], f);
    OtherLinksKept(m[p := e], a, f, s + [p], g);
    forall q | q in m ensures b[q].Get(f) == a[q].Get(f) && a[q].Get(g) == m[q].Get(g) {
      assert LinksOf(b, f)[q] == LinksOf(a, f)[q];
      assert LinksOf(m[p := e], g)[q] == LinksOf(a, g)[q];
    }
  }

  lemma {:induction false} ImgListGrows<S, B>(m: Bmps<S, B>, n: Bmps<S, B>, p: PoolPtr, first: Option<PoolPtr>,
                                              imgs: map<PoolPtr, CacheImg>, order: map<PoolPtr, seq<PoolPtr>>,
                                              img: PoolPtr)
    requires Indexed(LinksOf(m, LINK_IMG), ImgKeys(m), ImgHeads(imgs), order, None)
    requires img in order && Listed(m, n, p, LINK_IMG, order[img], first) && ImgKeys(n) == ImgKeys(m)[p := img]
    ensures Indexed(LinksOf(n, LINK_IMG), ImgKeys(n), ImgHeads(imgs[img := CacheImg(first)]),
            order[img := order[img] + [p]], None)
  {
    hide Sorted, Linked, ImgHeads, ImgKeys;
    IndexedAdd(LinksOf(m, LINK_IMG), LinksOf(n, LINK_IMG), ImgKeys(m), p, img, first, ImgHeads(imgs), order);
    HeadsSet<()>(imgs, img, map[], (), first);
  }

  lemma {:induction false} ScaleListGrows<S, B>(m: Bmps<S, B>, n: Bmps<S, B>, p: PoolPtr, first: Option<PoolPtr>,
                                                scales: map<S, CacheDpiScale<S>>, order: map<S, seq<PoolPtr>>, sc: S)
    requires Indexed(LinksOf(m, LINK_DPI_SCALE), ScaleKeys(m), ScaleHeads(scales), order, None)
    requires sc in order && sc in scales && Listed(m, n, p, LINK_DPI_SCALE, order[sc], first)
             && ScaleKeys(n) == ScaleKeys(m)[p := sc]
    ensures Indexed(LinksOf(n, LINK_DPI_SCALE), ScaleKeys(n), ScaleHeads(scales[sc := scales[sc].(bmps := first)]),
                    order[sc := order[sc] + [p]], None)
  {
    hide Sorted, Linked, ScaleHeads, ScaleKeys;
    IndexedAdd(LinksOf(m, LINK_DPI_SCALE), LinksOf(n, LINK_DPI_SCALE), ScaleKeys(m), p, sc, first, ScaleHeads(scales),
        order);
    HeadsSet(map[], 0, scales, sc, first);
  }

  lemma {:induction false} SlotsGrow<S, B>(m: Bmps<S, B>, a: Bmps<S, B>, n: Bmps<S, B>, p: PoolPtr,
                                           e: Node<CacheBmp<S, B>>,
                                           s: seq<PoolPtr>, t: seq<PoolPtr>, slot: map<Key<S>, PoolPtr>)
    requires SlotsOk(m, slot) && p !in m && KeyOf(e) !in slot
    requires OnlyLinks(m[p := e], a, LINK_DPI_SCALE, s) && OnlyLinks(a, n, LINK_IMG, t)
    ensures SlotsOk(n, slot[KeyOf(e) := p])
    ensures TableOf(n, slot[KeyOf(e) := p]) == TableOf(m, slot)[KeyOf(e) := e.data.bmp]
    ensures ImgKeys(n) == ImgKeys(m)[p := e.data.img] && ScaleKeys(n) == ScaleKeys(m)[p := e.data.dpiScale]
  {
    SlotsAdd(m, p, e, slot);
    KeysAdd(m, p, e);
    SlotsTouch(m[p := e], a, LINK_DPI_SCALE, s, slot[KeyOf(e) := p]);
    SlotsTouch(a, n, LINK_IMG, t, slot[KeyOf(e) := p]);
  }

  /** The state with bitmap `p` at the back of the lists of image `img`, which starts
      with `second` now, and of DPI scale `sc`, which starts with `first`. */
  ghost function WithBmp<S, B>(st: State<S, B>, n: Bmps<S, B>, p: PoolPtr, sc: S, first: Option<PoolPtr>, img: PoolPtr,
                               second: Option<PoolPtr>): State<S, B>
    requires sc in st.scales && sc in st.scaleOrder && img in st.imgOrder
  {
    State(st.imgs[img := CacheImg(second)], n, st.scales[sc := st.scales[sc].(bmps := first)],
          st.imgOrder[img := st.imgOrder[img] + [p]], st.scaleOrder[sc := st.scaleOrder[sc] + [p]],
          st.slot[(img, sc) := p])
  }

  lemma {:induction false} BmpAdded<S, B>(st: State<S, B>, e: Node<CacheBmp<S, B>>, a: Bmps<S, B>, n: Bmps<S, B>,
                                          p: PoolPtr,
                                          sc: S, first: Option<PoolPtr>, img: PoolPtr, second: Option<PoolPtr>)
    requires Consistent(st, None, None) && sc in st.scales && sc in st.scaleOrder && img in st.imgOrder
    requires p !in st.bmps && KeyOf(e) == (img, sc) && (img, sc) !in st.slot
    requires OnlyLinks(st.bmps[p := e], a, LINK_DPI_SCALE, st.scaleOrder[sc] + [p])
    requires IsList(LinksOf(a, LINK_DPI_SCALE), first, st.scaleOrder[sc] + [p])
    requires OnlyLinks(a, n, LINK_IMG, st.imgOrder[img] + [p])
    requires IsList(LinksOf(n, LINK_IMG), second, st.imgOrder[img] + [p])
    ensures Consistent(WithBmp(st, n, p, sc, first, img, second), None, None)
    ensures TableOf(n, st.slot[(img, sc) := p]) == TableOf(st.bmps, st.slot)[(img, sc) := e.data.bmp]
  {
    var s, t := st.scaleOrder[sc], st.imgOrder[img];
    ListedTwice(st.bmps, p, e, a, LINK_DPI_SCALE, s, first, n, LINK_IMG, t, second);
    SlotsGrow(st.bmps, a, n, p, e, s + [p], t + [p], st.slot);
    ScaleListGrows(st.bmps, n, p, first, st.scales, st.scaleOrder, sc);
    ImgListGrows(st.bmps, n, p, second, st.imgs, st.imgOrder, img);
  }

  // ----- finding a bitmap -------------------------------------------------------

  lemma {:induction false} FoundBmp<S, B>(st: State<S, B>, img: PoolPtr, p: PoolPtr)
    requires Consistent(st, None, None) && img in st.imgOrder && p in st.imgOrder[img]
    ensures p in st.bmps && KeyOf(st.bmps[p]) in TableOf(st.bmps, st.slot) && KeyOf(st.bmps[p]).0 == img
    ensures TableOf(st.bmps, st.slot)[KeyOf(st.bmps[p])] == st.bmps[p].data.bmp
  {
    InImgList(st, img, p, None);
  }

  lemma {:induction false} NoBmp<S, B>(st: State<S, B>, img: PoolPtr, sc: S)
    requires Consistent(st, None, None) && img in st.imgOrder
    requires forall p :: p in st.imgOrder[img] && p in st.bmps ==> st.bmps[p].data.dpiScale != sc
    ensures (img, sc) !in TableOf(st.bmps, st.slot)
  {
    forall k | k in st.slot && k.0 == img ensures st.slot[k] in st.imgOrder[img] {
      assert ImgKeys(st.bmps)[st.slot[k]] == img;
    }
  }

  /** Bitmaps are cached for known images and known DPI scales only. */
  lemma {:induction false} KnownKeys<S, B>(st: State<S, B>, k: Key<S>)
    requires Consistent(st, None, None) && k in TableOf(st.bmps, st.slot)
    ensures k.0 in st.imgs && k.1 in st.scales
  {
    var p := st.slot[k];
    var _ := PlaceInImg(st, p, None);
    var _ := PlaceInScale(st, p, None);
  }

  /** A bitmap is in exactly one list of an image, that of its image, and in exactly
      one list of a DPI scale, that of its DPI scale; once in each. */
  lemma {:induction false} OneListOfEach<S, B>(st: State<S, B>, p: PoolPtr) returns (i: nat, j: nat)
    requires Consistent(st, None, None) && p in st.bmps
    ensures var k := KeyOf(st.bmps[p]);
            && (forall img :: img in st.imgOrder && p in st.imgOrder[img] <==> img == k.0)
            && (forall sc :: sc in st.scaleOrder && p in st.scaleOrder[sc] <==> sc == k.1)
            && (forall a: nat :: a < |st.imgOrder[k.0]| && st.imgOrder[k.0][a] == p <==> a == i)
            && (forall b: nat :: b < |st.scaleOrder[k.1]| && st.scaleOrder[k.1][b] == p <==> b == j)
  {
    i := PlaceInImg(st, p, None);
    j := PlaceInScale(st, p, None);
    forall img | img in st.imgOrder && p in st.imgOrder[img] ensures img == KeyOf(st.bmps[p]).0 {
      InImgList(st, img, p, None);
    }
    forall sc | sc in st.scaleOrder && p in st.scaleOrder[sc] ensures sc == KeyOf(st.bmps[p]).1 {
      InScaleList(st, sc, p, None);
    }
    forall a: nat | a < |st.imgOrder[KeyOf(st.bmps[p]).0]|
      ensures st.imgOrder[KeyOf(st.bmps[p]).0][a] == p <==> a == i
    {
      SameElement(st.imgOrder[KeyOf(st.bmps[p]).0], a, i);
    }
    forall b: nat | b < |st.scaleOrder[KeyOf(st.bmps[p]).1]|
      ensures st.scaleOrder[KeyOf(st.bmps[p]).1][b] == p <==> b == j
    {
      SameElement(st.scaleOrder[KeyOf(st.bmps[p]).1], b, j);
    }
  }
}
