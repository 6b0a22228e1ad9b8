/** Images in the hands of clients, and the cache they share.  A bitmap is looked up
    in the cache and put there in two separate steps: while the image is being
    rasterized in between, other operations run. */
module ImageHandles {
  import opened Wrappers
  import opened LeakyPool
  import opened CacheState
  import opened ImageCache

  /** An image (`ImgInner`): its place in the cache, once it has one, and the DPI scale
      for which it is being rasterized; its `RefCell` is borrowed meanwhile. */
  datatype ImgInner<S> = ImgInner(imgPtr: Option<PoolPtr>, rendering: Option<S>)

  type Handle = nat

  /** The outcome of the first half of `HImg::new_bmp`; `Recursive` is a panic. */
  datatype Lookup<B> = Cached(bmp: B) | Missing | Recursive

  /** Images have places of their own in the cache, every place in the cache belongs
      to an image, and nothing is cached yet for an image that is being
      rasterized. */
  ghost predicate Agrees<S(!new), B>(handles: map<Handle, ImgInner<S>>, imgs: set<PoolPtr>, table: map<Key<S>, B>) {
    && (forall g, h ::
          g in handles && h in handles && handles[g].imgPtr.Some? && handles[g].imgPtr == handles[h].imgPtr ==> g == h)
    && (forall h :: h in handles && handles[h].imgPtr.Some? ==> handles[h].imgPtr.value in imgs)
    && (forall img :: img in imgs ==> exists h :: h in handles && handles[h].imgPtr == Some(img))
    && (forall h :: h in handles && handles[h].rendering.Some? ==>
          handles[h].imgPtr.Some? && (handles[h].imgPtr.value, handles[h].rendering.value) !in table)
  }

  /** The bitmap cached for an image and a DPI scale. */
  ghost function BmpOf<S, B>(handles: map<Handle, ImgInner<S>>, table: map<Key<S>, B>, h: Handle, s: S): Option<B> {
    if h in handles && handles[h].imgPtr.Some? && (handles[h].imgPtr.value, s) in table
    then Some(table[(handles[h].imgPtr.value, s)])
    else None
  }

  lemma {:induction false} AgreesNothing<S(!new), B>()
    ensures Agrees<S, B>(map[], {}, map[])
  {
  }

  lemma {:induction false} AgreesNew<S(!new), B>(handles: map<Handle, ImgInner<S>>, imgs: set<PoolPtr>,
                                                 table: map<Key<S>, B>, h: Handle)
    requires Agrees(handles, imgs, table) && h !in handles
    ensures Agrees(handles[h := ImgInner(None, None)], imgs, table)
    ensures forall g, t :: BmpOf(handles[h := ImgInner(None, None)], table, g, t) == BmpOf(handles, table, g, t)
  {
    var after := handles[h := ImgInner(None, None)];
    forall i | i in imgs ensures exists g :: g in after && after[g].imgPtr == Some(i) {
      var g :| g in handles && handles[g].imgPtr == Some(i);
      assert after[g].imgPtr == Some(i);
    }
  }

  lemma {:induction false} AgreesKnown<S(!new), B>(handles: map<Handle, ImgInner<S>>, imgs: set<PoolPtr>,
                                                   table: map<Key<S>, B>, h: Handle)
    requires Agrees(handles, imgs, table) && h in handles
    ensures handles[h].imgPtr.Some? ==> handles[h].imgPtr.value in imgs
    ensures handles[h].rendering.Some? ==>
              handles[h].imgPtr.Some? && (handles[h].imgPtr.value, handles[h].rendering.value) !in table
  {
  }

  lemma {:induction false} AgreesPlaced<S(!new), B>(handles: map<Handle, ImgInner<S>>, imgs: set<PoolPtr>,
                                                    table: map<Key<S>, B>, h: Handle, img: PoolPtr)
    requires Agrees(handles, imgs, table) && h in handles && handles[h] == ImgInner(None, None) && img !in imgs
    requires forall k :: k in table ==> k.0 in imgs
    ensures Agrees(handles[h := ImgInner(Some(img), None)], imgs + {img}, table)
    ensures forall g, t :: BmpOf(handles[h := ImgInner(Some(img), None)], table, g, t) == BmpOf(handles, table, g, t)
  {
    var after := handles[h := ImgInner(Some(img), None)];
    forall i | i in imgs + {img} ensures exists g :: g in after && after[g].imgPtr == Some(i) {
      if i == img {
        assert after[h].imgPtr == Some(i);
      } else {
        var g :| g in handles && handles[g].imgPtr == Some(i);
        assert after[g].imgPtr == Some(i);
      }
    }
  }

  lemma {:induction false} BmpSame<S(!new), B>(handles: map<Handle, ImgInner<S>>, after: map<Handle, ImgInner<S>>,
                                               table: map<Key<S>, B>)
    requires after.Keys == handles.Keys && forall g :: g in handles ==> after[g].imgPtr == handles[g].imgPtr
    ensures forall g, t :: BmpOf(after, table, g, t) == BmpOf(handles, table, g, t)
  {
  }

  lemma {:induction false} AgreesRendering<S(!new), B>(handles: map<Handle, ImgInner<S>>, imgs: set<PoolPtr>,
                                                       table: map<Key<S>, B>, h: Handle, r: Option<S>)
    requires Agrees(handles, imgs, table) && h in handles
    requires r.Some? ==> handles[h].imgPtr.Some? && (handles[h].imgPtr.value, r.value) !in table
    ensures Agrees(handles[h := handles[h].(rendering := r)], imgs, table)
    ensures forall g, t :: BmpOf(handles[h := handles[h].(rendering := r)], table, g, t) == BmpOf(handles, table, g, t)
  {
    var after := handles[h := handles[h].(rendering := r)];
    BmpSame(handles, after, table);
    hide BmpOf;
    forall i | i in imgs ensures exists g :: g in after && after[g].imgPtr == Some(i) {
      var g :| g in handles && handles[g].imgPtr == Some(i);
      assert after[g].imgPtr == Some(i);
    }
  }

  lemma {:induction false} AgreesStored<S(!new), B>(handles: map<Handle, ImgInner<S>>, imgs: set<PoolPtr>,
                                                    table: map<Key<S>, B>, h: Handle, s: S, b: B)
    requires Agrees(handles, imgs, table) && h in handles && handles[h].imgPtr.Some? && handles[h].rendering == None
    ensures var after := table[(handles[h].imgPtr.value, s) := b];
            && Agrees(handles, imgs, after)
            && forall g, t :: BmpOf(handles, after, g, t) == if g == h && t == s then Some(b)
                else BmpOf(handles, table, g, t)
  {
    var after := table[(handles[h].imgPtr.value, s) := b];
    forall g, t
      ensures BmpOf(handles, after, g, t) == if g == h && t == s then Some(b) else BmpOf(handles, table, g, t)
    {
    }
    forall g | g in handles && handles[g].rendering.Some?
      ensures (handles[g].imgPtr.value, handles[g].rendering.value) !in after
    {
      assert handles[g].imgPtr != handles[h].imgPtr;
    }
  }

  lemma {:induction false} AgreesDropped<S(!new), B>(handles: map<Handle, ImgInner<S>>, imgs: set<PoolPtr>,
                                                     table: map<Key<S>, B>, h: Handle)
    requires Agrees(handles, imgs, table) && h in handles
    ensures handles[h].imgPtr.None? ==> Agrees(handles - {h}, imgs, table)
    ensures handles[h].imgPtr.None? ==>
            forall g, t :: BmpOf(handles - {h}, table, g, t) == if g == h then None else BmpOf(handles, table, g, t)
    ensures handles[h].imgPtr.Some? ==>
              var left := WithoutImg(table, handles[h].imgPtr.value);
              && Agrees(handles - {h}, imgs - {handles[h].imgPtr.value}, left)
              && forall g, t :: BmpOf(handles - {h}, left, g, t) == if g == h then None else BmpOf(handles, table, g, t)
  {
    var after := handles - {h};
    forall i | i in imgs && handles[h].imgPtr != Some(i) ensures exists g :: g in after && after[g].imgPtr == Some(i) {
      var g :| g in handles && handles[g].imgPtr == Some(i);
      assert after[g].imgPtr == Some(i);
    }
  }

  lemma {:induction false} AgreesReleased<S(!new), B>(handles: map<Handle, ImgInner<S>>, imgs: set<PoolPtr>,
                                                      table: map<Key<S>, B>, s: S)
    requires Agrees(handles, imgs, table)
    ensures Agrees(handles, imgs, WithoutScale(table, s))
    ensures forall g, t :: BmpOf(handles, WithoutScale(table, s), g, t) == if t == s then None
            else BmpOf(handles, table, g, t)
  {
  }

  /** The main thread's images and cache. */
  class Images<S(==, !new), B> {
    const cache: Cache<S, B>
    var handles: map<Handle, ImgInner<S>>

    ghost predicate Valid()
      reads this, cache, cache.imgs, cache.bmps
    {
      cache.Valid() && Agrees(handles, cache.Imgs(), cache.Table())
    }

    /** What the cache holds for an image and a DPI scale. */
    ghost function Bmp(h: Handle, s: S): Option<B>
      reads this, cache
    {
      BmpOf(handles, cache.Table(), h, s)
    }

    constructor ()
      ensures Valid() && fresh(cache) && fresh(cache.imgs) && fresh(cache.bmps)
      ensures handles == map[] && cache.Counts() == map[]
    {
      AgreesNothing<S, B>();
      hide Sound, AllUsed, TableOf, CountsOf, Agrees;
      cache := new Cache<S, B>();
      handles := map[];
    }

    /** `HImg::new` */
    method New(h: Handle)
      requires Valid() && h !in handles
      modifies this
      ensures Valid() && handles == old(handles)[h := ImgInner(None, None)]
      ensures forall g, t :: Bmp(g, t) == old(Bmp(g, t))
    {
      hide Sound, AllUsed, TableOf, CountsOf, Agrees;
      AgreesNew(handles, cache.Imgs(), cache.Table(), h);
      handles := handles[h := ImgInner(None, None)];
    }

    /** The place of an image in the cache, which it gets now if it has none. */
    method Place(h: Handle) returns (img: PoolPtr)
      requires Valid() && h in handles && handles[h].rendering.None?
      modifies this, cache, cache.imgs
      ensures Valid() && handles == old(handles)[h := ImgInner(Some(img), None)] && img in cache.Imgs()
      ensures cache.Counts() == old(cache.Counts()) && cache.Table() == old(cache.Table())
      ensures forall g, t :: Bmp(g, t) == old(Bmp(g, t))
    {
      hide Sound, AllUsed, TableOf, CountsOf, Agrees;
      if handles[h].imgPtr.Some? {
        img := handles[h].imgPtr.value;
        AgreesKnown(handles, cache.Imgs(), cache.Table(), h);
        assert handles[h := ImgInner(Some(img), None)] == handles;
      } else {
        cache.OnlyKnown();
        ghost var imgs := cache.Imgs();
        img := cache.ImgAdd();
        AgreesPlaced(handles, imgs, cache.Table(), h, img);
        handles := handles[h := ImgInner(Some(img), None)];
      }
    }

    /** The first half of `HImg::new_bmp`: gives the cached bitmap, or borrows the
        image for rasterizing it. */
    method Lookup(h: Handle, s: S) returns (r: Lookup<B>)
      requires Valid() && h in handles
      modifies this, cache, cache.imgs
      ensures Valid() && cache.Counts() == old(cache.Counts()) && handles.Keys == old(handles).Keys
      ensures forall g, t :: Bmp(g, t) == old(Bmp(g, t))
      ensures r.Recursive? <==> old(handles)[h].rendering.Some?
      ensures !r.Recursive? ==> r == match old(Bmp(h, s)) { case Some(b) => Cached(b) case None => Missing }
      ensures forall g :: g in handles ==>
              handles[g].rendering == if g == h && r.Missing? then Some(s) else old(handles)[g].rendering
    {
      hide Sound, AllUsed, TableOf, CountsOf, Agrees;
      if handles[h].rendering.Some? {
        return Recursive;
      }
      var img := Place(h);
      var found := cache.ImgFindBmp(img, s);
      if found.Some? {
        return Cached(found.value);
      }
      AgreesRendering(handles, cache.Imgs(), cache.Table(), h, Some(s));
      handles := handles[h := handles[h].(rendering := Some(s))];
      r := Missing;
    }

    /** The second half of `HImg::new_bmp`: gives the image back, and caches its bitmap
        if the DPI scale is in use. */
    method Store(h: Handle, s: S, b: B)
      requires Valid() && h in handles && handles[h].rendering == Some(s)
      modifies this, cache, cache.imgs, cache.bmps
      ensures Valid() && cache.Counts() == old(cache.Counts())
              && handles == old(handles)[h := old(handles)[h].(rendering := None)]
      ensures forall g, t :: Bmp(g, t) == if g == h && t == s && s in cache.Counts() then Some(b) else old(Bmp(g, t))
    {
      hide Consistent, ScalesOk, AllUsed, TableOf, Agrees;
      AgreesKnown(handles, cache.Imgs(), cache.Table(), h);
      AgreesRendering(handles, cache.Imgs(), cache.Table(), h, None);
      handles := handles[h := handles[h].(rendering := None)];
      var at := cache.DpiScaleFind(s);
      if at.None? {
        return;
      }
      AgreesStored(handles, cache.Imgs(), cache.Table(), h, s, b);
      cache.ImgAddBmp(handles[h].imgPtr.value, at.value, b);
    }

    /** An image goes; it is not being rasterized, as that takes a reference to it. */
    method Drop(h: Handle)
      requires Valid() && h in handles && handles[h].rendering.None?
      modifies this, cache, cache.imgs, cache.bmps
      ensures Valid() && cache.Counts() == old(cache.Counts()) && handles == old(handles) - {h}
      ensures forall g, t :: Bmp(g, t) == if g == h then None else old(Bmp(g, t))
    {
      hide Sound, AllUsed, TableOf, CountsOf, Agrees;
      AgreesKnown(handles, cache.Imgs(), cache.Table(), h);
      AgreesDropped(handles, cache.Imgs(), cache.Table(), h);
      var img := handles[h].imgPtr;
      handles := handles - {h};
      if img.Some? {
        cache.ImgRemove(img.value);
      }
    }

    method AddRef(s: S)
      requires Valid()
      modifies cache
      ensures Valid()
      ensures var was := old(cache.Counts()); cache.Counts() == was[s := if s in was then was[s] + 1 else 1]
      ensures forall g, t :: Bmp(g, t) == old(Bmp(g, t))
    {
      hide Sound, AllUsed, TableOf, CountsOf, Agrees;
      cache.DpiScaleAddRef(s);
    }

    /** One client less uses a DPI scale; a release too many is a panic. */
    method Release(s: S) returns (ok: bool)
      requires Valid()
      modifies cache, cache.imgs, cache.bmps
      ensures Valid() && (ok <==> s in old(cache.Counts()))
      ensures !ok ==> cache.Counts() == old(cache.Counts())
      ensures ok && old(cache.Counts())[s] > 1 ==>
              cache.Counts() == old(cache.Counts())[s := old(cache.Counts())[s] - 1]
      ensures ok && old(cache.Counts())[s] == 1 ==> cache.Counts() == old(cache.Counts()) - {s}
      ensures forall g, t :: Bmp(g, t) == if t == s && s !in cache.Counts() then None else old(Bmp(g, t))
    {
      hide Consistent, ScalesOk, TableOf, Agrees;
      var at := cache.DpiScaleFind(s);
      ok := at.Some?;
      cache.OnlyKnown();
      if ok {
        AgreesReleased(handles, cache.Imgs(), cache.Table(), s);
        cache.DpiScaleRelease(s);
      }
    }

    /** The number of clients that use a DPI scale. */
    ghost function Users(s: S): nat
      reads cache
    {
      if s in cache.Counts() then cache.Counts()[s] else 0
    }

    /** `k` clients more and then `l` fewer: the bitmaps of the DPI scale go with the
        last client, and not before. */
    method ComeAndGo(s: S, k: nat, l: nat)
      requires Valid() && l <= Users(s) + k
      modifies cache, cache.imgs, cache.bmps
      ensures Valid() && Users(s) == old(Users(s)) + k - l
      ensures forall g, t :: Bmp(g, t) == if t == s && l > 0 && Users(s) == 0 then None else old(Bmp(g, t))
    {
      hide Sound, AllUsed, TableOf, CountsOf, Agrees;
      for i := 0 to k
        invariant Valid() && Users(s) == old(Users(s)) + i
        invariant forall g, t :: Bmp(g, t) == old(Bmp(g, t))
      {
        AddRef(s);
      }
      for i := 0 to l
        invariant Valid() && Users(s) == old(Users(s)) + k - i
        invariant forall g, t :: Bmp(g, t) == if t == s && i > 0 && Users(s) == 0 then None else old(Bmp(g, t))
      {
        cache.AllCounted();
        var _ := Release(s);
      }
      cache.AllCounted();
    }
  }
}
