/** The application view: it runs the reducers on a state that is shared by reference,
    and tells the scheduler, which notices a change by comparing references. */
module AppView {
  import opened Wrappers
  import opened Harmony
  import opened Model
  import opened P = Persistence
  import opened PersistenceScheduler

  lemma {:induction false} HeldIn(boxes: map<Ptr, RcBox<AppState>>, a: Ptr)
    requires a in boxes
    ensures boxes[a].value.mainWnd in Refs(Held(boxes)) && a in Held(boxes) && Held(boxes)[a] == boxes[a].value.mainWnd
  {
    RefsSet(Held(boxes), a, 0);
  }

  lemma {:induction false} HeldSet(boxes: map<Ptr, RcBox<AppState>>, after: map<Ptr, RcBox<AppState>>, r: Ptr, w: Ptr)
    requires after.Keys == boxes.Keys + {r} && after[r].value.mainWnd == w
    requires forall q :: q in boxes && q != r ==> after[q].value == boxes[q].value
    ensures Held(after) == Held(boxes)[r := w]
  {
  }

  /** After a copy at `r`, if need be, the app state there was replaced. */
  lemma {:induction false} PutAfter(boxes: map<Ptr, RcBox<AppState>>, mid: map<Ptr, RcBox<AppState>>, r: Ptr,
                                    x: AppState)
    requires mid.Keys == boxes.Keys + {r} && SameValues(boxes, mid)
    ensures var after := mid[r := RcBox(1, x)];
            && after.Keys == boxes.Keys + {r} && (forall q :: q in boxes && q != r ==> after[q].value == boxes[q].value)
            && Held(after) == Held(mid)[r := x.mainWnd]
            && (x.mainWnd == mid[r].value.mainWnd ==> Held(after) == Held(mid))
  {
  }

  lemma {:induction false} KeptBut<T>(boxes: map<Ptr, RcBox<T>>, after: map<Ptr, RcBox<T>>, r: Ptr)
    requires after.Keys == boxes.Keys + {r} && (r in boxes ==> after[r].value == boxes[r].value)
    requires forall q :: q in boxes && q != r ==> after[q].value == boxes[q].value
    ensures SameValues(boxes, after)
  {
  }

  lemma {:induction false} HeldDrop(boxes: map<Ptr, RcBox<AppState>>, after: map<Ptr, RcBox<AppState>>, a: Ptr)
    requires a in boxes && (after.Keys == boxes.Keys || after.Keys == boxes.Keys - {a}) && SameValues(boxes, after)
    ensures a in after ==> Refs(Held(after)) == Refs(Held(boxes))
    ensures a !in after ==> Refs(Held(after)) == Refs(Held(boxes)) - multiset{boxes[a].value.mainWnd}
  {
    if a in after {
      assert Held(after) == Held(boxes);
    } else {
      assert Held(after) == Held(boxes) - {a};
      RefsOf(Held(boxes), a);
    }
  }

  /** `WndState::reduce` */
  method ReduceWnd(wnds: RcHeap<WndState>, p: Ptr, action: WndAction) returns (r: Ptr)
    requires wnds.Valid() && p in wnds.owners
    modifies wnds
    ensures wnds.Valid() && wnds.owners == old(wnds.owners) - multiset{p} + multiset{r}
    ensures wnds.At(r) == WndReduced(old(wnds.At(p)), action)
    ensures var w, v := old(wnds.At(p)), wnds.At(r);
            match action
            case SetSidebarWidth(x) =>
              Assigned(w.sidebarWidth, x, v.sidebarWidth) && v == w.(sidebarWidth := v.sidebarWidth)
            case SetEditorHeight(x) =>
              Assigned(w.editorHeight, x, v.editorHeight) && v == w.(editorHeight := v.editorHeight)
            case ToggleSidebar => v == w.(sidebarVisible := !w.sidebarVisible)
    ensures if old(wnds.boxes)[p].strong == 1 || Keeps(old(wnds.At(p)), action) then r == p else r !in old(wnds.boxes)
    ensures wnds.boxes.Keys == old(wnds.boxes).Keys + {r}
            && forall q :: q in old(wnds.boxes) && q != r ==> wnds.At(q) == old(wnds.boxes)[q].value
  {
    var w := wnds.boxes[p].value;
    if Sets(w, action) {
      r := wnds.Set(p, WndReduced(w, action));
    } else {
      assert wnds.owners - multiset{p} + multiset{p} == wnds.owners;
      r := p;
    }
  }

  ghost function ContentsOf(apps: map<Ptr, RcBox<AppState>>, wnds: map<Ptr, RcBox<WndState>>, a: Ptr): AppContents
    requires a in apps && apps[a].value.mainWnd in wnds
  {
    AppContents(wnds[apps[a].value.mainWnd].value, apps[a].value.prefVisible)
  }

  /** The app states and the window states. */
  class Store {
    const wnds: RcHeap<WndState>
    const apps: RcHeap<AppState>
    // The references to window states that app states do not account for.
    ghost var extra: multiset<Ptr>

    ghost predicate Valid()
      reads this, wnds, apps
    {
      wnds.Valid() && apps.Valid() && wnds.owners == Refs(Held(apps.boxes)) + extra
    }

    /** What an owner of the app state `a` sees. */
    ghost function Contents(a: Ptr): AppContents
      requires Valid() && a in apps.owners
      reads this, wnds, apps
    {
      HeldIn(apps.boxes, a);
      ContentsOf(apps.boxes, wnds.boxes, a)
    }

    constructor ()
      ensures Valid() && fresh(wnds) && fresh(apps) && apps.owners == multiset{} && extra == multiset{}
    {
      wnds := new RcHeap();
      apps := new RcHeap();
      extra := multiset{};
    }

    /** One more reference to a window state is held elsewhere. */
    method AcquireWnd(w: Ptr)
      requires Valid() && w in wnds.owners
      modifies this, wnds
      ensures Valid() && extra == old(extra) + multiset{w}
      ensures wnds.boxes.Keys == old(wnds.boxes).Keys && SameValues(old(wnds.boxes), wnds.boxes)
    {
      wnds.Clone(w);
      extra := extra + multiset{w};
    }

    /** A reference to a window state is given back. */
    method ReleaseWnd(w: Ptr)
      requires Valid() && w in extra
      modifies this, wnds
      ensures Valid() && extra == old(extra) - multiset{w}
      ensures SameValues(old(wnds.boxes), wnds.boxes)
    {
      hide Refs, Held;
      OneLess(Refs(Held(apps.boxes)), extra, w);
      wnds.Drop(w);
      extra := extra - multiset{w};
    }

    /** Makes an app state and its window state. */
    method NewApp(contents: AppContents) returns (a: Ptr)
      requires Valid()
      modifies wnds, apps
      ensures Valid() && apps.owners == old(apps.owners) + multiset{a} && Contents(a) == contents
    {
      hide Refs;
      ghost var boxes := apps.boxes;
      var w := wnds.New(contents.mainWnd);
      a := apps.New(AppState(w, contents.prefVisible));
      assert a !in Held(boxes);
      HeldSet(boxes, apps.boxes, a, w);
      RefsSet(Held(boxes), a, w);
      hide Held;
      OneMore(Refs(Held(boxes)), extra, w);
    }

    /** One more owner of an app state. */
    method CloneApp(a: Ptr)
      requires Valid() && a in apps.owners
      modifies apps
      ensures Valid() && apps.owners == old(apps.owners) + multiset{a} && SameValues(old(apps.boxes), apps.boxes)
    {
      hide Refs;
      ghost var boxes := apps.boxes;
      apps.Clone(a);
      assert Held(apps.boxes) == Held(boxes);
    }

    /** An owner of an app state goes; the window state may go with it. */
    method DropApp(a: Ptr)
      requires Valid() && a in apps.owners
      modifies wnds, apps
      ensures Valid() && apps.owners == old(apps.owners) - multiset{a}
      ensures SameValues(old(apps.boxes), apps.boxes)
      ensures SameValues(old(wnds.boxes), wnds.boxes)
    {
      hide Refs, Held, SameValues;
      ghost var boxes := apps.boxes;
      HeldIn(apps.boxes, a);
      var w := apps.boxes[a].value.mainWnd;
      HeldLess(Refs(Held(boxes)), extra, w);
      apps.Drop(a);
      HeldDrop(boxes, apps.boxes, a);
      if a !in apps.boxes {
        wnds.Drop(w);
      } else {
        SameSelf(wnds.boxes);
      }
    }

    /** `Elem::make_mut` for an app state: a copy refers to the same window state. */
    method MakeMutApp(a: Ptr) returns (r: Ptr)
      requires Valid() && a in apps.owners
      modifies wnds, apps
      ensures Valid() && apps.owners == old(apps.owners) - multiset{a} + multiset{r} && apps.owners[r] == 1
      ensures apps.At(r) == old(apps.At(a))
      ensures if old(apps.boxes)[a].strong == 1 then r == a else r !in old(apps.boxes)
      ensures apps.boxes.Keys == old(apps.boxes).Keys + {r} && SameValues(old(apps.boxes), apps.boxes)
      ensures wnds.boxes.Keys == old(wnds.boxes).Keys && SameValues(old(wnds.boxes), wnds.boxes)
    {
      hide Refs;
      ghost var boxes := apps.boxes;
      HeldIn(boxes, a);
      var w := apps.boxes[a].value.mainWnd;
      if apps.boxes[a].strong > 1 {
        wnds.Clone(w);
      }
      r := apps.MakeMut(a);
      MadeMut(boxes, apps.boxes, a, r, extra);
    }

    /** Sets a field of an app state other than the window state. */
    method SetPref(a: Ptr, prefVisible: bool) returns (r: Ptr)
      requires Valid() && a in apps.owners
      modifies wnds, apps
      ensures Valid() && apps.owners == old(apps.owners) - multiset{a} + multiset{r}
      ensures apps.At(r) == old(apps.At(a)).(prefVisible := prefVisible)
      ensures apps.boxes.Keys == old(apps.boxes).Keys + {r}
              && forall q :: q in old(apps.boxes) && q != r ==> apps.At(q) == old(apps.boxes)[q].value
      ensures if old(apps.boxes)[a].strong == 1 then r == a else r !in old(apps.boxes)
      ensures wnds.boxes.Keys == old(wnds.boxes).Keys && SameValues(old(wnds.boxes), wnds.boxes)
    {
      hide Refs, Held;
      ghost var before := apps.boxes;
      r := MakeMutApp(a);
      var app := apps.boxes[r].value.(prefVisible := prefVisible);
      PutAfter(before, apps.boxes, r, app);
      hide SameValues;
      apps.Put(r, app);
    }

    /** Replaces the window state of an app state that has one owner by `w`, handing
        over a reference. */
    method PutMainWnd(r: Ptr, w: Ptr)
      requires Valid() && apps.owners[r] == 1 && w in extra
      modifies this, wnds, apps
      ensures Valid() && apps.owners == old(apps.owners) && extra == old(extra) - multiset{w}
      ensures apps.boxes == old(apps.boxes)[r := RcBox(1, old(apps.At(r)).(mainWnd := w))]
      ensures SameValues(old(wnds.boxes), wnds.boxes)
    {
      hide Refs, Held, SameValues;
      var app := apps.boxes[r].value;
      OwnersAfterPut(apps.boxes, wnds.owners, extra, r, app.(mainWnd := w));
      wnds.Drop(app.mainWnd);
      apps.Put(r, app.(mainWnd := w));
      extra := extra - multiset{w};
    }

    /** Sets the window state of an app state to `w`, handing over a reference. */
    method SetMainWnd(a: Ptr, w: Ptr) returns (r: Ptr)
      requires Valid() && a in apps.owners && w in extra
      modifies this, wnds, apps
      ensures Valid() && apps.owners == old(apps.owners) - multiset{a} + multiset{r}
              && extra == old(extra) - multiset{w}
      ensures apps.At(r) == old(apps.At(a)).(mainWnd := w)
      ensures apps.boxes.Keys == old(apps.boxes).Keys + {r}
              && forall q :: q in old(apps.boxes) && q != r ==> apps.At(q) == old(apps.boxes)[q].value
      ensures if old(apps.boxes)[a].strong == 1 then r == a else r !in old(apps.boxes)
      ensures SameValues(old(wnds.boxes), wnds.boxes)
    {
      hide Refs, Held;
      ghost var before, wnds0 := apps.boxes, wnds.boxes;
      r := MakeMutApp(a);
      ghost var app, wnds1 := apps.boxes[r].value, wnds.boxes;
      PutAfter(before, apps.boxes, r, app.(mainWnd := w));
      hide SameValues;
      PutMainWnd(r, w);
      SameValuesChain(wnds0, wnds1, wnds.boxes);
    }

    /** `WndState::reduce` of a reference that is shared with an app state: it makes a
        copy if it changes anything. */
    method ReduceShared(w: Ptr, action: WndAction) returns (r: Ptr)
      requires Valid() && w in extra && wnds.owners[w] > 1
      modifies this, wnds
      ensures Valid() && extra == old(extra) - multiset{w} + multiset{r}
      ensures wnds.boxes.Keys == old(wnds.boxes).Keys + {r} && SameValues(old(wnds.boxes), wnds.boxes)
      ensures wnds.At(r) == WndReduced(old(wnds.boxes)[w].value, action)
      ensures if Keeps(old(wnds.boxes)[w].value, action) then r == w else r !in old(wnds.boxes)
    {
      ghost var was := wnds.boxes[w].value;
      SetsUnless(was, action);
      ghost var boxes := wnds.boxes;
      hide Refs, Held, WndReduced, Keeps, Assigned, SameValues;
      r := ReduceWnd(wnds, w, action);
      KeptBut(boxes, wnds.boxes, r);
      Exchanged(Refs(Held(apps.boxes)), extra, w, r);
      extra := extra - multiset{w} + multiset{r};
    }

    /** `AppState::reduce`: whoever else refers to the app state, or to a window state,
        sees what they saw before. */
    method Reduce(a: Ptr, action: AppAction) returns (r: Ptr)
      requires Valid() && a in apps.owners
      modifies this, wnds, apps
      ensures Valid() && apps.owners == old(apps.owners) - multiset{a} + multiset{r} && extra == old(extra)
      ensures Contents(r) == AppReduced(old(Contents(a)), action)
      ensures var w, v := old(Contents(a)), Contents(r);
              match action
              case Wnd(SetSidebarWidth(x)) =>
                && Assigned(w.mainWnd.sidebarWidth, x, v.mainWnd.sidebarWidth)
                && v == w.(mainWnd := w.mainWnd.(sidebarWidth := v.mainWnd.sidebarWidth))
              case Wnd(SetEditorHeight(x)) =>
                && Assigned(w.mainWnd.editorHeight, x, v.mainWnd.editorHeight)
                && v == w.(mainWnd := w.mainWnd.(editorHeight := v.mainWnd.editorHeight))
              case Wnd(ToggleSidebar) =>
                v == w.(mainWnd := w.mainWnd.(sidebarVisible := !w.mainWnd.sidebarVisible))
              case HidePref => v == w.(prefVisible := false)
              case TogglePref => v == w.(prefVisible := !w.prefVisible)
      ensures if action.Wnd? && !Keeps(old(Contents(a)).mainWnd, action.action)
              then apps.At(r).mainWnd !in old(wnds.boxes)
              else apps.At(r).mainWnd == old(apps.At(a)).mainWnd
      ensures SameValues(old(wnds.boxes), wnds.boxes)
      ensures forall q :: q in old(apps.boxes) && q != r ==> q in apps.boxes && apps.At(q) == old(apps.boxes)[q].value
      ensures r == a || r !in old(apps.boxes)
    {
      ReducedFields(Contents(a), action);
      hide Refs, Held, SameValues, WndReduced, Assigned, Keeps;
      match action {
        case Wnd(act) => r := ReduceMainWnd(a, act);
        case HidePref => r := ReducePref(a, false);
        case TogglePref => r := ReducePref(a, !apps.boxes[a].value.prefVisible);
      }
    }

    /** Runs the reducer for one action after the other; a window state `w` that is
        held elsewhere stays as it is. */
    method ReduceAll(a: Ptr, actions: seq<AppAction>, ghost w: Ptr) returns (r: Ptr)
      requires Valid() && a in apps.owners && w in extra
      modifies this, wnds, apps
      ensures Valid() && apps.owners == old(apps.owners) - multiset{a} + multiset{r} && extra == old(extra)
      ensures Contents(r) == AllReduced(old(Contents(a)), actions)
      ensures wnds.At(w) == old(wnds.At(w))
      ensures old(apps.At(a)).mainWnd == w ==> (apps.At(r).mainWnd == w <==> AllKeep(old(wnds.At(w)), actions))
    {
      hide Refs, Held, SameValues;
      r := a;
      ghost var others := apps.owners - multiset{a};
      assert apps.owners == others + multiset{a};
      for i := 0 to |actions|
        invariant Valid() && extra == old(extra) && apps.owners == others + multiset{r} && wnds.At(w) == old(wnds.At(w))
        invariant AllReduced(Contents(r), actions[i..]) == AllReduced(old(Contents(a)), actions)
        invariant old(apps.At(a)).mainWnd == w ==>
                    (apps.At(r).mainWnd == w <==> AllKeep(old(wnds.At(w)), actions[..i]))
      {
        ghost var before, last := wnds.boxes, r;
        r := Reduce(r, actions[i]);
        SameAt(before, wnds.boxes, w);
        Consumed(others, last, r);
        assert actions[i..][0] == actions[i] && actions[i..][1..] == actions[i + 1..];
        KeepNext(old(wnds.At(w)), actions, i);
      }
      assert actions[..|actions|] == actions;
    }

    method ReducePref(a: Ptr, prefVisible: bool) returns (r: Ptr)
      requires Valid() && a in apps.owners
      modifies wnds, apps
      ensures Valid() && apps.owners == old(apps.owners) - multiset{a} + multiset{r}
      ensures Contents(r) == old(Contents(a)).(prefVisible := prefVisible)
      ensures apps.At(r).mainWnd == old(apps.At(a)).mainWnd
      ensures SameValues(old(wnds.boxes), wnds.boxes)
      ensures forall q :: q in old(apps.boxes) && q != r ==> q in apps.boxes && apps.At(q) == old(apps.boxes)[q].value
      ensures r == a || r !in old(apps.boxes)
    {
      hide Refs, Held;
      HeldIn(apps.boxes, a);
      if prefVisible != apps.boxes[a].value.prefVisible {
        r := SetPref(a, prefVisible);
      } else {
        assert apps.owners - multiset{a} + multiset{a} == apps.owners;
        r := a;
      }
    }

    /** `WndState::reduce` of another reference to the window state of `a`. */
    method ReduceClone(a: Ptr, w: Ptr, action: WndAction) returns (r: Ptr)
      requires Valid() && a in apps.boxes && w == apps.boxes[a].value.mainWnd
      modifies this, wnds
      ensures Valid() && extra == old(extra) + multiset{r}
      ensures wnds.boxes.Keys == old(wnds.boxes).Keys + {r} && SameValues(old(wnds.boxes), wnds.boxes)
      ensures w in old(wnds.boxes) && wnds.At(r) == WndReduced(old(wnds.boxes)[w].value, action)
      ensures if Keeps(old(wnds.boxes)[w].value, action) then r == w else r !in old(wnds.boxes)
    {
      HeldIn(apps.boxes, a);
      hide Refs, Held, SameValues, WndReduced, Keeps;
      ghost var wnds0 := wnds.boxes;
      AcquireWnd(w);
      ghost var wnds1 := wnds.boxes;
      SameAt(wnds0, wnds1, w);
      HeldTwice(Refs(Held(apps.boxes)), extra, w);
      r := ReduceShared(w, action);
      SameValuesChain(wnds0, wnds1, wnds.boxes);
      TakenBack(old(extra), w);
    }

    /** Gives up a reference to the window state that `a` has as well. */
    method KeepMainWnd(a: Ptr, w: Ptr)
      requires Valid() && a in apps.owners && w == apps.boxes[a].value.mainWnd && w in extra
      modifies this, wnds
      ensures Valid() && extra == old(extra) - multiset{w} && Contents(a) == old(Contents(a))
      ensures SameValues(old(wnds.boxes), wnds.boxes)
    {
      HeldIn(apps.boxes, a);
      hide Refs, Held, SameValues;
      ghost var wnds0 := wnds.boxes;
      ReleaseWnd(w);
      SameAt(wnds0, wnds.boxes, w);
    }

    /** Sets the window state of an app state to `w`, which is a new one. */
    method AdoptMainWnd(a: Ptr, w: Ptr) returns (r: Ptr)
      requires Valid() && a in apps.owners && w in extra
      modifies this, wnds, apps
      ensures Valid() && apps.owners == old(apps.owners) - multiset{a} + multiset{r}
              && extra == old(extra) - multiset{w}
      ensures Contents(r) == old(Contents(a)).(mainWnd := old(wnds.At(w))) && apps.At(r).mainWnd == w
      ensures SameValues(old(wnds.boxes), wnds.boxes)
      ensures forall q :: q in old(apps.boxes) && q != r ==> q in apps.boxes && apps.At(q) == old(apps.boxes)[q].value
      ensures r == a || r !in old(apps.boxes)
    {
      hide Refs, Held, SameValues;
      ghost var wnds0 := wnds.boxes;
      r := SetMainWnd(a, w);
      HeldIn(apps.boxes, r);
      SameAt(wnds0, wnds.boxes, w);
    }

    method ReduceMainWnd(a: Ptr, action: WndAction) returns (r: Ptr)
      requires Valid() && a in apps.owners
      modifies this, wnds, apps
      ensures Valid() && apps.owners == old(apps.owners) - multiset{a} + multiset{r} && extra == old(extra)
      ensures Contents(r) == old(Contents(a)).(mainWnd := WndReduced(old(Contents(a)).mainWnd, action))
      ensures var w, v := old(Contents(a)).mainWnd, Contents(r).mainWnd;
              match action
              case SetSidebarWidth(x) =>
                Assigned(w.sidebarWidth, x, v.sidebarWidth) && v == w.(sidebarWidth := v.sidebarWidth)
              case SetEditorHeight(x) =>
                Assigned(w.editorHeight, x, v.editorHeight) && v == w.(editorHeight := v.editorHeight)
              case ToggleSidebar => v == w.(sidebarVisible := !w.sidebarVisible)
      ensures if Keeps(old(Contents(a)).mainWnd, action) then apps.At(r).mainWnd == old(apps.At(a)).mainWnd
              else apps.At(r).mainWnd !in old(wnds.boxes)
      ensures SameValues(old(wnds.boxes), wnds.boxes)
      ensures forall q :: q in old(apps.boxes) && q != r ==> q in apps.boxes && apps.At(q) == old(apps.boxes)[q].value
      ensures r == a || r !in old(apps.boxes)
    {
      ReducedFields(Contents(a), Wnd(action));
      hide Refs, Held, SameValues, WndReduced, Assigned, Keeps;
      var w := apps.boxes[a].value.mainWnd;
      ghost var wnds0 := wnds.boxes;
      var w2 := ReduceClone(a, w, action);
      ghost var wnds1 := wnds.boxes;
      HeldIn(apps.boxes, a);
      if w2 != w {
        r := AdoptMainWnd(a, w2);
        TakenBack(old(extra), w2);
      } else {
        KeepMainWnd(a, w);
        r := a;
        TakenBack(old(extra), w);
        PutBack(apps.owners, a);
      }
      SameValuesChain(wnds0, wnds1, wnds.boxes);
    }
  }

  lemma {:induction false} TakenBack(extra: multiset<Ptr>, w: Ptr)
    ensures extra + multiset{w} - multiset{w} == extra
  {
  }

  lemma {:induction false} PutBack(owners: multiset<Ptr>, a: Ptr)
    requires a in owners
    ensures owners - multiset{a} + multiset{a} == owners
  {
  }

  lemma {:induction false} HeldTwice(refs: multiset<Ptr>, extra: multiset<Ptr>, w: Ptr)
    requires w in refs && w in extra
    ensures (refs + extra)[w] > 1
  {
  }

  lemma {:induction false} Exchanged(refs: multiset<Ptr>, extra: multiset<Ptr>, v: Ptr, w: Ptr)
    requires v in extra
    ensures refs + extra - multiset{v} + multiset{w} == refs + (extra - multiset{v} + multiset{w})
  {
  }

  lemma {:induction false} HeldPut(boxes: map<Ptr, RcBox<AppState>>, r: Ptr, x: AppState)
    ensures Held(boxes[r := RcBox(1, x)]) == Held(boxes)[r := x.mainWnd]
  {
  }

  lemma {:induction false} Handed(refs: multiset<Ptr>, extra: multiset<Ptr>, v: Ptr, w: Ptr)
    requires v in refs && w in extra
    ensures refs + extra - multiset{v} == refs - multiset{v} + multiset{w} + (extra - multiset{w})
  {
  }

  /** A reference that is handed over to an app state replaces the one it had. */
  lemma {:induction false} OwnersAfterPut(boxes: map<Ptr, RcBox<AppState>>, owners: multiset<Ptr>, extra: multiset<Ptr>,
                                          r: Ptr, x: AppState)
    requires r in boxes && x.mainWnd in extra && owners == Refs(Held(boxes)) + extra
    ensures boxes[r].value.mainWnd in owners
    ensures owners - multiset{boxes[r].value.mainWnd} == Refs(Held(boxes[r := RcBox(1, x)]))
            + (extra - multiset{x.mainWnd})
  {
    HeldIn(boxes, r);
    HeldPut(boxes, r, x);
    RefsSet(Held(boxes), r, x.mainWnd);
    hide Refs, Held;
    Handed(Refs(Held(boxes)), extra, boxes[r].value.mainWnd, x.mainWnd);
  }

  lemma {:induction false} HeldLess(refs: multiset<Ptr>, extra: multiset<Ptr>, w: Ptr)
    requires w in refs
    ensures w in refs + extra && refs + extra - multiset{w} == refs - multiset{w} + extra
  {
  }

  lemma {:induction false} OneLess(refs: multiset<Ptr>, extra: multiset<Ptr>, w: Ptr)
    requires w in extra
    ensures w in refs + extra && refs + extra - multiset{w} == refs + (extra - multiset{w})
  {
  }

  lemma {:induction false} OneMore(refs: multiset<Ptr>, extra: multiset<Ptr>, w: Ptr)
    ensures refs + extra + multiset{w} == refs + multiset{w} + extra
  {
  }

  lemma {:induction false} MadeMut(boxes: map<Ptr, RcBox<AppState>>, after: map<Ptr, RcBox<AppState>>, a: Ptr, r: Ptr,
                                   extra: multiset<Ptr>)
    requires a in boxes && after.Keys == boxes.Keys + {r} && after[r].value == boxes[a].value
    requires forall q :: q in boxes ==> after[q].value == boxes[q].value
    ensures r in boxes && r == a ==> Refs(Held(after)) == Refs(Held(boxes))
    ensures r !in boxes ==> Refs(Held(after)) + extra == Refs(Held(boxes)) + extra + multiset{boxes[a].value.mainWnd}
  {
    if r in boxes {
      assert Held(after) == Held(boxes);
    } else {
      HeldSet(boxes, after, r, boxes[a].value.mainWnd);
      RefsSet(Held(boxes), r, boxes[a].value.mainWnd);
      OneMore(Refs(Held(boxes)), extra, boxes[a].value.mainWnd);
    }
  }

  /** Owners of an app state that has stayed see what they saw. */
  lemma {:induction false} KeptContents(apps: map<Ptr, RcBox<AppState>>, wnds: map<Ptr, RcBox<WndState>>,
                                        apps': map<Ptr, RcBox<AppState>>, wnds': map<Ptr, RcBox<WndState>>, a: Ptr)
    requires SameValues(apps, apps') && SameValues(wnds, wnds')
    requires a in apps && a in apps' && apps[a].value.mainWnd in wnds && apps'[a].value.mainWnd in wnds'
    ensures ContentsOf(apps', wnds', a) == ContentsOf(apps, wnds, a)
  {
  }

  /** An app state, and another reference to its window state. */
  method StartState(contents: AppContents) returns (s: Store, a: Ptr, w: Ptr)
    ensures fresh(s) && fresh(s.wnds) && fresh(s.apps) && s.Valid()
    ensures a in s.apps.owners && s.Contents(a) == contents
    ensures w in s.extra && s.wnds.At(w) == contents.mainWnd && w == s.apps.At(a).mainWnd
  {
    s := new Store();
    a := s.NewApp(contents);
    HeldIn(s.apps.boxes, a);
    hide Refs, Held;
    w := s.apps.boxes[a].value.mainWnd;
    s.AcquireWnd(w);
  }

  /** `AppView`, with its scheduler. */
  class AppView {
    const store: Store
    const sched: PersistenceScheduler<WndState>
    // A reference to the current app state.
    var state: Ptr

    ghost predicate Valid()
      reads this, store, store.wnds, store.apps, sched
    {
      Ready() && sched.persisted.wnd == MainWnd()
    }

    /** As `Valid`, but there may be a window state that the scheduler has yet to be
        told of. */
    ghost predicate Ready()
      reads this, store, store.wnds, store.apps, sched
    {
      store.Valid() && sched.Valid() && sched.main.Idle? && state in store.apps.owners && Retained()
    }

    /** Where the current window state is. */
    ghost function MainWnd(): Ptr
      requires store.Valid() && state in store.apps.owners
      reads this, store, store.wnds, store.apps
    {
      store.apps.At(state).mainWnd
    }

    /** The scheduler keeps a reference to the window state it knows, so nobody has
        changed that. */
    ghost predicate Retained()
      requires store.Valid()
      reads this, store, store.wnds, store.apps, sched
    {
      sched.persisted.wnd in store.extra && store.wnds.At(sched.persisted.wnd) == sched.persisted.value
    }

    /** The current app state. */
    ghost function Contents(): AppContents
      requires store.Valid() && state in store.apps.owners
      reads this, store, store.wnds, store.apps
    {
      store.Contents(state)
    }

    /** Starts with the app state in `contents`. */
    constructor (contents: AppContents)
      ensures Valid() && Contents() == contents && sched.View() == Init(sched.persisted)
      ensures fresh(store) && fresh(store.wnds) && fresh(store.apps) && fresh(sched)
    {
      hide Refs, Held, Inv;
      var s, a, w := StartState(contents);
      var sc := new PersistenceScheduler(Snapshot(w, contents.mainWnd));
      store, state, sched := s, a, sc;
    }

    /** Some view takes another reference to a window state, or gives one back. */
    method Acquire(w: Ptr)
      requires Valid() && w in store.wnds.owners
      modifies store, store.wnds
      ensures Valid() && Contents() == old(Contents())
    {
      hide Refs, Held, SameValues, Inv;
      HeldIn(store.apps.boxes, state);
      SameSelf(store.apps.boxes);
      store.AcquireWnd(w);
      KeptContents(old(store.apps.boxes), old(store.wnds.boxes), store.apps.boxes, store.wnds.boxes, state);
      SameAt(old(store.wnds.boxes), store.wnds.boxes, sched.persisted.wnd);
    }

    method Release(w: Ptr)
      requires Valid() && w in store.extra - multiset{sched.persisted.wnd}
      modifies store, store.wnds
      ensures Valid() && Contents() == old(Contents())
    {
      hide Refs, Held, SameValues, Inv;
      HeldIn(store.apps.boxes, state);
      SameSelf(store.apps.boxes);
      store.ReleaseWnd(w);
      KeptContents(old(store.apps.boxes), old(store.wnds.boxes), store.apps.boxes, store.wnds.boxes, state);
      SameAt(old(store.wnds.boxes), store.wnds.boxes, sched.persisted.wnd);
    }

    /** Runs the pending actions, and has the scheduler persist the outcome if it is
        another one; the scheduler knows the current window state afterwards. */
    method Poll(actions: seq<AppAction>) returns (ghost app: Snapshot<WndState>)
      requires Valid()
      modifies this, store, store.wnds, store.apps, sched
      ensures Valid() && Contents() == AllReduced(old(Contents()), actions)
      ensures app.value == Contents().mainWnd
      ensures Enabled(old(sched.View()), Update(app)) && sched.View() == Step(old(sched.View()), Update(app))
      ensures sched.log != [] && sched.log[|sched.log| - 1] == Contents().mainWnd && |sched.log| == sched.mtGen + 1
      ensures if sched.persistentReqGen == sched.mtGen then sched.live == map[]
              else sched.timer.Some? && sched.live == map[sched.timer.value := Contents().mainWnd]
      ensures if forall i :: 0 <= i < |actions| && actions[i].Wnd? ==>
                              Keeps(old(Contents()).mainWnd, actions[i].action)
              then sched.View() == old(sched.View())
              else sched.mtGen == old(sched.mtGen) + 1 && sched.live == map[old(sched.issued) := Contents().mainWnd]
    {
      ghost var s0 := sched.View();
      RunActions(actions);
      app := Track();
      UpdateIs(s0, app);
      IdleState(sched.View());
      hide Enabled, Step, Keeps, AllReduced, GensOk, WriterOk, DiskOk, TimerOk, MainOk, Shared;
    }

    /** The event loop runs the handler of a timer that is due. */
    method TimerDue(h: HInvoke)
      requires Valid() && h in sched.live
      modifies sched
      ensures Valid() && Contents() == old(Contents()) && sched.View() == FireTimer(old(sched.View()), h)
    {
      hide Inv, SameValues;
      sched.PersistTimerHandler(h);
    }

    /** A writer takes a step in the background. */
    method WriterRuns(i: nat, ok: bool) returns (ghost e: Event<WndState>)
      requires Valid() && i < |sched.jobs|
      modifies sched
      ensures Valid() && Contents() == old(Contents())
      ensures WriterEvent(e) && Enabled(old(sched.View()), e) && sched.View() == Step(old(sched.View()), e)
    {
      ghost var s := sched.View();
      e := sched.WriterStep(i, ok);
      WriterFrame(s, e);
    }

    method RunActions(actions: seq<AppAction>)
      requires Valid()
      modifies this, store, store.wnds, store.apps
      ensures Ready() && Contents() == AllReduced(old(Contents()), actions)
      ensures MainWnd() == sched.persisted.wnd <==> AllKeep(old(Contents()).mainWnd, actions)
    {
      hide Refs, Held, SameValues, Inv;
      var newState := state;
      HeldIn(store.apps.boxes, state);
      SameSelf(store.wnds.boxes);
      store.CloneApp(state);
      HeldIn(store.apps.boxes, state);
      KeptContents(old(store.apps.boxes), old(store.wnds.boxes), store.apps.boxes, store.wnds.boxes, state);
      SameAt(old(store.apps.boxes), store.apps.boxes, state);
      newState := store.ReduceAll(newState, actions, sched.persisted.wnd);
      Consumed(old(store.apps.owners), state, newState);
      Swapped(old(store.apps.owners), state, newState);
      SwitchTo(newState);
    }

    method SwitchTo(newState: Ptr)
      requires Ready() && newState in store.apps.owners - multiset{state}
      modifies this, store.wnds, store.apps
      ensures Ready() && Contents() == old(store.Contents(newState))
      ensures MainWnd() == old(store.apps.At(newState)).mainWnd
    {
      hide Refs, Held, SameValues, Inv;
      ghost var apps, wnds := store.apps.boxes, store.wnds.boxes;
      HeldIn(apps, newState);
      store.DropApp(state);
      HeldIn(store.apps.boxes, newState);
      KeptContents(apps, wnds, store.apps.boxes, store.wnds.boxes, newState);
      SameAt(wnds, store.wnds.boxes, sched.persisted.wnd);
      SameAt(apps, store.apps.boxes, newState);
      state := newState;
    }

    /** The current window state and where it is. */
    method Current() returns (app: Snapshot<WndState>)
      requires Ready()
      ensures app.wnd == MainWnd() && app.wnd in store.wnds.owners
      ensures app.value == store.wnds.At(app.wnd) == Contents().mainWnd
    {
      HeldIn(store.apps.boxes, state);
      var w := store.apps.boxes[state].value.mainWnd;
      app := Snapshot(w, store.wnds.boxes[w].value);
    }

    /** Takes a reference for the scheduler in place of the one it has. */
    method Retain(w: Ptr)
      requires Ready() && w in store.wnds.owners
      modifies store, store.wnds
      ensures store.Valid() && state in store.apps.owners && Contents() == old(Contents())
      ensures w in store.extra && store.wnds.At(w) == old(store.wnds.At(w))
    {
      hide Refs, Held, SameValues, Inv;
      ghost var apps, wnds := store.apps.boxes, store.wnds.boxes;
      HeldIn(apps, state);
      SameSelf(apps);
      store.AcquireWnd(w);
      Exchange(store.extra - multiset{w}, sched.persisted.wnd, w);
      ghost var wnds1 := store.wnds.boxes;
      store.ReleaseWnd(sched.persisted.wnd);
      SameValuesChain(wnds, wnds1, store.wnds.boxes);
      KeptContents(apps, wnds, store.apps.boxes, store.wnds.boxes, state);
      SameAt(wnds, store.wnds.boxes, w);
    }

    /** `handle_update` */
    method Track() returns (ghost app: Snapshot<WndState>)
      requires Ready()
      modifies store, store.wnds, sched
      ensures Valid() && Contents() == old(Contents()) && sched.persisted.value == app.value == Contents().mainWnd
      ensures app.wnd == old(MainWnd())
      ensures Enabled(old(sched.View()), Update(app)) && sched.View() == Step(old(sched.View()), Update(app))
    {
      hide Refs, Held, SameValues, Inv;
      var app1 := Current();
      if sched.persisted.wnd != app1.wnd {
        Retain(app1.wnd);
      }
      app := app1;
      sched.HandleUpdate(app1);
    }

    /** Persists the current state before quitting. */
    method Quit() returns (ghost app: Snapshot<WndState>, ghost events: seq<Event<WndState>>)
      requires Ready()
      modifies store, store.wnds, sched
      ensures Valid() && Contents() == old(Contents()) && app.value == Contents().mainWnd
      ensures var all := [BeginFlush(app)] + events + [EndFlush];
              Run(old(sched.View()), all) && sched.View() == After(old(sched.View()), all)
      ensures sched.mtGen in sched.outcome
              && (sched.file == Some(Saved(sched.mtGen, Contents().mainWnd)) <==> sched.outcome[sched.mtGen])
      ensures AllGoWell(events) ==> sched.file == Some(Saved(sched.mtGen, Contents().mainWnd))
    {
      hide Refs, Held, SameValues, Inv;
      var app1 := Current();
      if sched.persisted.wnd != app1.wnd {
        Retain(app1.wnd);
      }
      app := app1;
      events := sched.Flush(app1);
    }
  }

  lemma {:induction false} KeepNext(w: WndState, actions: seq<AppAction>, i: nat)
    requires i < |actions|
    ensures AllKeep(w, actions[..i + 1]) <==>
            AllKeep(w, actions[..i]) && (actions[i].Wnd? ==> Keeps(w, actions[i].action))
  {
    assert forall j :: 0 <= j < i ==> actions[..i][j] == actions[..i + 1][j];
    assert actions[..i + 1][i] == actions[i];
  }

  lemma {:induction false} Exchange(extra: multiset<Ptr>, v: Ptr, w: Ptr)
    requires v in extra
    ensures v in extra + multiset{w} && w in extra + multiset{w} - multiset{v}
    ensures extra + multiset{w} - multiset{w} == extra
  {
  }

  lemma {:induction false} Consumed(owners: multiset<Ptr>, v: Ptr, w: Ptr)
    ensures owners + multiset{v} - multiset{v} + multiset{w} == owners + multiset{w}
  {
  }

  lemma {:induction false} Swapped(owners: multiset<Ptr>, v: Ptr, w: Ptr)
    requires v in owners
    ensures v in owners + multiset{w} && w in owners + multiset{w} - multiset{v}
  {
  }
}
