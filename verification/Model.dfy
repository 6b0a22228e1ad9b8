/** The application state, and the reducers that make a new one from an action. */
module Model {
  import opened Harmony

  /** A 32-bit float, as far as comparison is concerned: NaN differs from itself and
      the two zeros do not differ. */
  datatype F32 = NaN | Num(value: real, negativeZero: bool)

  predicate Ne(a: F32, b: F32) {
    a.NaN? || b.NaN? || a.value != b.value
  }

  datatype WndState = WndState(sidebarWidth: F32, editorHeight: F32, sidebarVisible: bool)

  /** An app state; its window state is held by reference. */
  datatype AppState = AppState(mainWnd: Ptr, prefVisible: bool)

  datatype WndAction = SetSidebarWidth(x: F32) | SetEditorHeight(x: F32) | ToggleSidebar

  datatype AppAction = Wnd(action: WndAction) | HidePref | TogglePref

  // ----- what the reducers compute ------------------------------------------------

  /** The app state with the window state in place of the reference. */
  datatype AppContents = AppContents(mainWnd: WndState, prefVisible: bool)

  function WndReduced(w: WndState, action: WndAction): WndState {
    match action
    case SetSidebarWidth(x) => if Ne(x, w.sidebarWidth) then w.(sidebarWidth := x) else w
    case SetEditorHeight(x) => if Ne(x, w.editorHeight) then w.(editorHeight := x) else w
    case ToggleSidebar => w.(sidebarVisible := !w.sidebarVisible)
  }

  function AppReduced(a: AppContents, action: AppAction): AppContents {
    match action
    case Wnd(act) => a.(mainWnd := WndReduced(a.mainWnd, act))
    case HidePref => a.(prefVisible := false)
    case TogglePref => a.(prefVisible := !a.prefVisible)
  }

  function AllReduced(a: AppContents, actions: seq<AppAction>): AppContents
    decreases |actions|
  {
    if actions == [] then a else AllReduced(AppReduced(a, actions[0]), actions[1..])
  }

  /** Whether a reducer sets a field, as opposed to returning what it was given. */
  predicate Sets(w: WndState, action: WndAction) {
    match action
    case SetSidebarWidth(x) => Ne(x, w.sidebarWidth)
    case SetEditorHeight(x) => Ne(x, w.editorHeight)
    case ToggleSidebar => true
  }

  /** The same number, whatever the sign of a zero. */
  ghost predicate SameNumber(a: F32, b: F32) {
    a.Num? && b.Num? && a.value == b.value
  }

  /** The action assigns to a field the number that it holds already. */
  ghost predicate Keeps(w: WndState, action: WndAction) {
    match action
    case SetSidebarWidth(x) => SameNumber(x, w.sidebarWidth)
    case SetEditorHeight(x) => SameNumber(x, w.editorHeight)
    case ToggleSidebar => false
  }

  lemma {:induction false} SetsUnless(w: WndState, action: WndAction)
    ensures Sets(w, action) <==> !Keeps(w, action)
    ensures Keeps(w, action) ==> WndReduced(w, action) == w
  {
  }

  ghost predicate AllKeep(w: WndState, actions: seq<AppAction>) {
    forall i :: 0 <= i < |actions| && actions[i].Wnd? ==> Keeps(w, actions[i].action)
  }

  /** `after` is what a field with the value `before` holds once `x` has been assigned to
      it: a number that is the same already stays as it is. */
  ghost predicate Assigned(before: F32, x: F32, after: F32) {
    if SameNumber(before, x) then after == before else after == x
  }

  /** Which field an action sets, and to what. */
  lemma {:induction false} ReducedFields(w: AppContents, action: AppAction)
    ensures var v := AppReduced(w, action);
            match action
            case Wnd(SetSidebarWidth(x)) =>
              && Assigned(w.mainWnd.sidebarWidth, x, v.mainWnd.sidebarWidth)
              && v == w.(mainWnd := w.mainWnd.(sidebarWidth := v.mainWnd.sidebarWidth))
            case Wnd(SetEditorHeight(x)) =>
              && Assigned(w.mainWnd.editorHeight, x, v.mainWnd.editorHeight)
              && v == w.(mainWnd := w.mainWnd.(editorHeight := v.mainWnd.editorHeight))
            case Wnd(ToggleSidebar) =>
              v == w.(mainWnd := w.mainWnd.(sidebarVisible := !w.mainWnd.sidebarVisible))
            case HidePref => v == w.(prefVisible := false)
            case TogglePref => v == w.(prefVisible := !w.prefVisible)
  {
  }

  /** The actions are run in order. */
  lemma {:induction false} LastAction(a: AppContents, actions: seq<AppAction>)
    requires actions != []
    ensures AllReduced(a, actions) == AppReduced(AllReduced(a, actions[..|actions| - 1]), actions[|actions| - 1])
    decreases |actions|
  {
    var n := |actions|;
    if n > 1 {
      LastAction(AppReduced(a, actions[0]), actions[1..]);
      assert actions[1..][..n - 2] == actions[..n - 1][1..];
    }
  }

  /** The last width and the last height that were set are those that stay. */
  lemma {:induction false} LastSet(a: AppContents, actions: seq<AppAction>, i: nat, x: F32)
    requires i < |actions|
    ensures var v := AllReduced(a, actions).mainWnd;
            && (actions[i] == Wnd(SetSidebarWidth(x))
                && (forall j :: i < j < |actions| && actions[j].Wnd? ==> !actions[j].action.SetSidebarWidth?) ==>
                  exists was :: Assigned(was, x, v.sidebarWidth))
            && (actions[i] == Wnd(SetEditorHeight(x))
                && (forall j :: i < j < |actions| && actions[j].Wnd? ==> !actions[j].action.SetEditorHeight?) ==>
                  exists was :: Assigned(was, x, v.editorHeight))
    decreases |actions|
  {
    var n := |actions| - 1;
    LastAction(a, actions);
    ReducedFields(AllReduced(a, actions[..n]), actions[n]);
    hide AllReduced, AppReduced, Assigned;
    if i < n {
      LastSet(a, actions[..n], i, x);
    }
  }

  ghost function Toggles(actions: seq<AppAction>): nat {
    if actions == [] then 0
    else Toggles(actions[..|actions| - 1]) + if actions[|actions| - 1] == Wnd(ToggleSidebar) then 1 else 0
  }

  /** The sidebar is turned as often as asked. */
  lemma {:induction false} Toggled(a: AppContents, actions: seq<AppAction>)
    ensures AllReduced(a, actions).mainWnd.sidebarVisible == a.mainWnd.sidebarVisible <==> Toggles(actions) % 2 == 0
    decreases |actions|
  {
    if actions != [] {
      var n := |actions| - 1;
      LastAction(a, actions);
      ReducedFields(AllReduced(a, actions[..n]), actions[n]);
      Toggled(a, actions[..n]);
    }
  }

  // ----- references among app states ------------------------------------------------

  /** The references to window states that a number of app states hold. */
  ghost function Refs(held: map<Ptr, Ptr>): multiset<Ptr>
    decreases held.Keys
  {
    if held.Keys == {} then multiset{} else
      var a :| a in held.Keys;
      Refs(held - {a}) + multiset{held[a]}
  }

  lemma {:induction false} Swap(x: multiset<Ptr>, v: Ptr, w: Ptr)
    ensures x + multiset{v} + multiset{w} == x + multiset{w} + multiset{v}
    ensures x + multiset{v} - multiset{v} == x
  {
  }

  lemma {:induction false} LessTwo(held: map<Ptr, Ptr>, a: Ptr, b: Ptr)
    ensures held - {a} - {b} == held - {b} - {a}
  {
  }

  lemma {:induction false} RefsOf(held: map<Ptr, Ptr>, a: Ptr)
    requires a in held.Keys
    ensures Refs(held) == Refs(held - {a}) + multiset{held[a]}
    decreases held.Keys
  {
    var b :| b in held.Keys && Refs(held) == Refs(held - {b}) + multiset{held[b]};
    if a != b {
      var both := held - {a} - {b};
      LessTwo(held, a, b);
      RefsOf(held - {b}, a);
      RefsOf(held - {a}, b);
      Swap(Refs(both), held[a], held[b]);
    }
  }

  lemma {:induction false} WithoutSet(held: map<Ptr, Ptr>, a: Ptr, w: Ptr)
    ensures held[a := w] - {a} == held - {a} && (a !in held ==> held - {a} == held)
  {
  }

  /** An app state gets another window state, or is new. */
  lemma {:induction false} RefsSet(held: map<Ptr, Ptr>, a: Ptr, w: Ptr)
    ensures a in held ==> held[a] in Refs(held) && Refs(held[a := w]) == Refs(held) - multiset{held[a]} + multiset{w}
    ensures a !in held ==> Refs(held[a := w]) == Refs(held) + multiset{w}
  {
    hide Refs;
    WithoutSet(held, a, w);
    RefsOf(held[a := w], a);
    if a in held {
      RefsOf(held, a);
      Swap(Refs(held - {a}), held[a], w);
    }
  }

  ghost function Held(boxes: map<Ptr, RcBox<AppState>>): map<Ptr, Ptr> {
    map a | a in boxes :: boxes[a].value.mainWnd
  }
}
