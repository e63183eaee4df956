// Where the keyboard goes when overlays are shown, raised, hidden, closed and let go
// (internal/tui/overlay.go), whatever is visible at the time.

module OverlayFocus {
  import opened Options
  import opened Overlays

  ghost predicate Distinct(stack: seq<Entry>) {
    UniqueIds(stack) && forall i, j :: 0 <= i < j < |stack| ==> stack[i].component != stack[j].component
  }

  /** No overlay was raised later than the counter says. */
  ghost predicate OrdersBelow(s: State) { forall i :: 0 <= i < |s.stack| ==> s.stack[i].focusOrder <= s.counter }

  // ---------------------------------------------------------------- focusing an overlay

  lemma TopmostIsLatest(stack: seq<Entry>, env: Env, i: nat)
    requires i < |stack| && !stack[i].nonCapturing && IsVisible(stack[i], env)
    requires forall j :: 0 <= j < |stack| && j != i ==> stack[j].focusOrder < stack[i].focusOrder
    ensures Topmost(stack, env) == Some(stack[i])
  {
    hide Topmost, IsVisible;
    TopmostIsCapturing(stack, env);
    var top := Topmost(stack, env);
    assert stack[i] in stack;
    var j :| 0 <= j < |stack| && stack[j] == top.value;
  }

  lemma FocusKeepsStack(s: State, env: Env, next: Option<Component>, preserve: bool)
    ensures var r := SetFocus(s, env, next, preserve); r.stack == s.stack && r.counter == s.counter
  {
    hide Redirect;
  }

  /** Asked to, focus goes to an overlay, which is the one to come back to if it shows. */
  lemma OverlayTakesFocus(s: State, env: Env, i: nat, preserve: bool)
    requires Distinct(s.stack) && i < |s.stack|
    ensures var next := SetFocus(s, env, Some(s.stack[i].component), preserve);
      && next.focused == Some(s.stack[i].component)
      && next.stack == s.stack && next.counter == s.counter
      && next.restore == if IsVisible(s.stack[i], env) then Eligible(s.stack[i].id) else s.restore
  {
    hide IsVisible;
    IndexByComponentFinds(s.stack, i);
  }

  /** The overlay at i, and nothing else, was raised above all others and has focus. */
  ghost predicate Raised(s: State, next: State, env: Env, i: nat)
    requires i < |s.stack|
  {
    && next.focused == Some(s.stack[i].component) && next.restore == Eligible(s.stack[i].id)
    && |next.stack| == |s.stack|
    && next.stack[i] == s.stack[i].(focusOrder := next.stack[i].focusOrder, hidden := false)
    && (forall j :: 0 <= j < |s.stack| && j != i ==>
          next.stack[j] == s.stack[j] && next.stack[j].focusOrder < next.stack[i].focusOrder)
    && (!s.stack[i].nonCapturing ==> Topmost(next.stack, env) == Some(next.stack[i]))
  }

  lemma RaiseRaises(s: State, env: Env, i: nat)
    requires Distinct(s.stack) && OrdersBelow(s) && i < |s.stack| && IsVisible(s.stack[i], env)
    ensures Raised(s, Raise(s, env, i), env, i)
  {
    hide SetFocus, Topmost;
    var raised := s.(counter := s.counter + 1, stack := s.stack[i := s.stack[i].(focusOrder := s.counter + 1)]);
    OverlayTakesFocus(raised, env, i, false);
    if !s.stack[i].nonCapturing { TopmostIsLatest(raised.stack, env, i); }
  }

  lemma HasId(s: State, i: nat)
    requires Distinct(s.stack) && i < |s.stack|
    ensures IndexById(s.stack, s.stack[i].id) == i
  {
    IndexByIdFinds(s.stack, i);
  }

  /** Focusing a visible overlay raises that overlay and gives it the keyboard; focusing
      one that is closed or not visible does nothing. */
  lemma FocusGivesFocus(s: State, env: Env, id: nat)
    requires Distinct(s.stack) && OrdersBelow(s)
    ensures forall i :: 0 <= i < |s.stack| && s.stack[i].id == id && IsVisible(s.stack[i], env) ==> Raised(s, Focus(s, env, id), env, i)
    ensures (forall i :: 0 <= i < |s.stack| && s.stack[i].id == id ==> !IsVisible(s.stack[i], env)) ==> Focus(s, env, id) == s
  {
    hide Raise, Raised, IsVisible, IndexById;
    forall i | 0 <= i < |s.stack| && s.stack[i].id == id && IsVisible(s.stack[i], env) ensures Raised(s, Focus(s, env, id), env, i) {
      HasId(s, i);
      RaiseRaises(s, env, i);
    }
  }

  /** Bringing a hidden capturing overlay back raises it and gives it the keyboard, if
      it then shows; any other keeps focus where it is. */
  lemma UnhidingGivesFocus(s: State, env: Env, i: nat)
    requires Distinct(s.stack) && OrdersBelow(s) && i < |s.stack|
    ensures var next := SetHidden(s, env, s.stack[i].id, false);
      && (s.stack[i].hidden && !s.stack[i].nonCapturing && env.shows(s.stack[i].id) ==> Raised(s, next, env, i))
      && (!s.stack[i].hidden ==> next == s)
      && (s.stack[i].hidden && (s.stack[i].nonCapturing || !env.shows(s.stack[i].id)) ==>
            next == s.(stack := s.stack[i := s.stack[i].(hidden := false)]))
  {
    hide Raise, SetFocus, Topmost, IndexById;
    HasId(s, i);
    var marked := s.(stack := s.stack[i := s.stack[i].(hidden := false)]);
    if s.stack[i].hidden && !s.stack[i].nonCapturing && env.shows(s.stack[i].id) {
      RaiseRaises(marked, env, i);
    }
  }

  /** Opening an overlay notes where focus was, and gives it the keyboard if it captures
      and shows. */
  lemma ShowGivesFocus(s: State, env: Env, id: nat, component: Component, nonCapturing: bool)
    requires Distinct(s.stack) && OrdersBelow(s) && IndexById(s.stack, id) < 0 && IndexByComponent(s.stack, component) < 0
    ensures var next, n := Show(s, env, id, component, nonCapturing), |s.stack|;
      && |next.stack| == n + 1 && next.stack[..n] == s.stack
      && next.stack[n] == Entry(id, component, s.focused, nonCapturing, false, next.stack[n].focusOrder)
      && (forall j :: 0 <= j < n ==> next.stack[j].focusOrder < next.stack[n].focusOrder)
      && (if !nonCapturing && env.shows(id)
          then next.focused == Some(component) && next.restore == Eligible(id) && Topmost(next.stack, env) == Some(next.stack[n])
          else next.focused == s.focused && next.restore == s.restore)
  {
    hide SetFocus, Topmost;
    var n := |s.stack|;
    var entry := Entry(id, component, s.focused, nonCapturing, false, s.counter + 1);
    var pushed := s.(stack := s.stack + [entry], counter := s.counter + 1);
    if !nonCapturing && env.shows(id) {
      OverlayTakesFocus(pushed, env, n, false);
      TopmostIsLatest(pushed.stack, env, n);
    }
  }

  // ---------------------------------------------------------------- giving focus up

  /** No overlay waits for what has the keyboard now. */
  ghost predicate Unawaited(s: State) { s.restore.Blocked? ==> s.focused != Some(s.restore.blockedBy) }

  lemma FocusGoesWhereAsked(s: State, env: Env, next: Option<Component>, preserve: bool)
    requires Unawaited(s)
    ensures SetFocus(s, env, next, preserve).focused == next
  {
    hide IsFocusAncestor, Ids, IsVisible;
  }

  /** Focus falls to the topmost overlay if there is one. */
  lemma FallsToTopmost(s: State, env: Env, preFocus: Option<Component>)
    requires Distinct(s.stack)
    ensures var next, top := FocusFallback(s, env, preFocus), Topmost(s.stack, env);
      && next.stack == s.stack
      && (top.Some? ==> next.focused == Some(top.value.component) && next.restore == Eligible(top.value.id))
      && (top.None? ==> next == SetFocus(s, env, preFocus, false))
  {
    hide SetFocus, Topmost, IsVisible;
    TopmostIsCapturing(s.stack, env);
    var top := Topmost(s.stack, env);
    if top.Some? {
      var i :| 0 <= i < |s.stack| && s.stack[i] == top.value;
      OverlayTakesFocus(s, env, i, false);
    }
    FocusKeepsStack(s, env, preFocus, false);
  }

  /** Hiding an overlay: if it had the keyboard, that goes to the topmost overlay left in
      view, or with none to where it was before; otherwise focus stays. Nothing comes back
      to it of itself. */
  lemma HidingPassesFocusOn(s: State, env: Env, i: nat)
    requires Distinct(s.stack) && i < |s.stack| && !s.stack[i].hidden
    ensures var next := SetHidden(s, env, s.stack[i].id, true);
      && next.stack == s.stack[i := s.stack[i].(hidden := true)]
      && (s.focused != Some(s.stack[i].component) ==> next.focused == s.focused)
      && (s.focused == Some(s.stack[i].component) ==>
            var top := Topmost(next.stack, env);
            && (top.Some? ==> top.value.id != s.stack[i].id && next.focused == Some(top.value.component))
            && (top.None? && Unawaited(s) ==> next.focused == s.stack[i].preFocus))
      && (s.focused != Some(s.stack[i].component) ==>
            next.restore == Inactive || next.restore.overlay != s.stack[i].id)
  {
    hide SetFocus, Topmost, IndexById;
    HasId(s, i);
    var stack := s.stack[i := s.stack[i].(hidden := true)];
    var cleared := ClearRestoreFor(s.(stack := stack), s.stack[i].id);
    FallsToTopmost(cleared, env, s.stack[i].preFocus);
    if Unawaited(s) { FocusGoesWhereAsked(cleared, env, s.stack[i].preFocus, false); }
    TopmostIsCapturing(stack, env);
    var top := Topmost(stack, env);
    if top.Some? {
      var j :| 0 <= j < |stack| && stack[j] == top.value;
      assert !stack[j].hidden;
    }
  }

  /** Closing an overlay: if it had the keyboard, that goes to the topmost overlay left, or
      with none to where it was before; otherwise focus stays. */
  lemma ClosingPassesFocusOn(s: State, env: Env, i: nat)
    requires Distinct(s.stack) && i < |s.stack|
    ensures var next := Hide(s, env, s.stack[i].id);
      && |next.stack| == |s.stack| - 1
      && (forall j :: 0 <= j < |next.stack| ==>
            var e := s.stack[if j < i then j else j + 1];
            next.stack[j] == if e.preFocus == Some(s.stack[i].component) then e.(preFocus := s.stack[i].preFocus) else e)
      && (s.focused != Some(s.stack[i].component) ==> next.focused == s.focused)
      && (s.focused == Some(s.stack[i].component) && Topmost(next.stack, env).Some? ==>
            next.focused == Some(Topmost(next.stack, env).value.component))
      && (s.focused == Some(s.stack[i].component) && Topmost(next.stack, env).None? && Unawaited(s) ==>
            next.focused == s.stack[i].preFocus)
  {
    hide SetFocus, Topmost, IndexById, Without;
    HasId(s, i);
    var rest := Without(s.stack, i);
    WithoutLength(s.stack, i);
    forall j | 0 <= j < |rest|
      ensures var e := s.stack[if j < i then j else j + 1];
        rest[j] == if e.preFocus == Some(s.stack[i].component) then e.(preFocus := s.stack[i].preFocus) else e
    {
      WithoutAt(s.stack, i, j);
    }
    RestIsDistinct(s, i);
    var cleared := ClearRestoreFor(s, s.stack[i].id).(stack := rest);
    FallsToTopmost(cleared, env, s.stack[i].preFocus);
    if Unawaited(s) { FocusGoesWhereAsked(cleared, env, s.stack[i].preFocus, false); }
  }

  lemma RestIsDistinct(s: State, i: nat)
    requires Distinct(s.stack) && i < |s.stack|
    ensures Distinct(Without(s.stack, i))
  {
    hide Without;
    var rest := Without(s.stack, i);
    WithoutLength(s.stack, i);
    forall j, k | 0 <= j < k < |rest| ensures rest[j].id != rest[k].id && rest[j].component != rest[k].component {
      WithoutAt(s.stack, i, j);
      WithoutAt(s.stack, i, k);
    }
  }

  /** Letting go of the keyboard without saying to whom: it goes to the topmost overlay if
      that is another one, and to where it was before otherwise. */
  lemma UnfocusPassesFocusOn(s: State, env: Env, i: nat)
    requires Distinct(s.stack) && i < |s.stack| && s.focused == Some(s.stack[i].component)
    requires s.restore.Blocked? ==> s.restore.overlay != s.stack[i].id || s.focused != Some(s.restore.blockedBy)
    ensures var next, top := Unfocus(s, env, s.stack[i], None), Topmost(s.stack, env);
      && next.stack == s.stack
      && (top.Some? && top.value.id != s.stack[i].id ==> next.focused == Some(top.value.component))
      && (Unawaited(s) && (top.None? || top.value.id == s.stack[i].id) ==> next.focused == s.stack[i].preFocus)
  {
    hide SetFocus, Topmost, IsVisible;
    TopmostIsCapturing(s.stack, env);
    var top := Topmost(s.stack, env);
    if top.Some? {
      var j :| 0 <= j < |s.stack| && s.stack[j] == top.value;
      OverlayTakesFocus(ClearRestoreFor(s, s.stack[i].id), env, j, false);
    }
    FocusKeepsStack(ClearRestoreFor(s, s.stack[i].id), env, s.stack[i].preFocus, false);
    if Unawaited(s) { FocusGoesWhereAsked(ClearRestoreFor(s, s.stack[i].id), env, s.stack[i].preFocus, false); }
  }

  /** Letting go of the keyboard with a target: it goes there at once from the overlay, or
      as soon as the component the overlay waits for lets go; without a target that one
      then leaves it to nobody. An overlay that neither has it nor waits changes nothing. */
  lemma UnfocusGoesWhereTold(s: State, env: Env, i: nat, target: Option<Component>)
    requires Distinct(s.stack) && i < |s.stack| && IsVisible(s.stack[i], env)
    ensures var (entry, told) := (s.stack[i], Unfocus(s, env, s.stack[i], Some(target)));
      var (waits, has) := (!s.restore.Inactive? && s.restore.overlay == entry.id, s.focused == Some(entry.component));
      && (has && Unawaited(s) ==> told.focused == target)
      && (waits && !Unawaited(s) ==>
            && told.focused == s.focused && SetFocus(told, env, None, false).focused == target
            && Unfocus(s, env, entry, None) == s.(restore := Inactive)
            && SetFocus(s.(restore := Inactive), env, None, false).focused == None)
      && (!waits && !has ==> told == s && Unfocus(s, env, entry, None) == s)
  {
    hide IsFocusAncestor, Ids, Topmost;
    HasId(s, i);
    if s.focused == Some(s.stack[i].component) && Unawaited(s) {
      FocusGoesWhereAsked(ClearRestoreFor(s, s.stack[i].id), env, target, false);
    }
  }

  // ---------------------------------------------------------------- taken and given back

  /** A component outside the overlays takes the keyboard from an overlay that was not
      opened from it: when it lets go the overlay has it back, and until then no key
      takes it away. */
  lemma TakenFocusComesBack(s: State, env: Env, i: nat, other: Component)
    requires Distinct(s.stack) && i < |s.stack| && IsVisible(s.stack[i], env)
    requires s.focused == Some(s.stack[i].component) && s.restore == Eligible(s.stack[i].id)
    requires IndexByComponent(s.stack, other) < 0
    requires !IsFocusAncestor(s.stack, s.stack[i].preFocus, other, Ids(s.stack))
    ensures var taken := SetFocus(s, env, Some(other), false);
      && taken.focused == Some(other) && taken.stack == s.stack
      && Repair(taken, env) == taken
      && SetFocus(taken, env, None, false).focused == s.focused
      && SetFocus(taken, env, None, false).restore == s.restore
  {
    hide IsFocusAncestor, Ids, Topmost;
    IndexByComponentFinds(s.stack, i);
    HasId(s, i);
  }

  /** The component an overlay waits for hands the keyboard on: while it is mounted the
      overlay waits for the next one instead; gone from the screen, or letting go, it gives
      the keyboard back to the overlay. After a release the release says where it goes. */
  lemma BlockerPassesFocusOn(s: State, env: Env, i: nat, blocker: Component, other: Component)
    requires Distinct(s.stack) && i < |s.stack| && IsVisible(s.stack[i], env)
    requires s.restore.Blocked? && s.restore.overlay == s.stack[i].id && s.restore.blockedBy == blocker
    requires s.focused == Some(blocker) && IndexByComponent(s.stack, other) < 0
    ensures var passed, back := SetFocus(s, env, Some(other), false), s.stack[i].component;
      && (s.restore.restoreOverlay && env.mounted(blocker) ==>
            && passed.focused == Some(other)
            && SetFocus(passed, env, None, false).focused == Some(back)
            && Repair(passed, env) == passed)
      && (s.restore.restoreOverlay && !env.mounted(blocker) ==> passed.focused == Some(back) && passed.restore == Eligible(s.stack[i].id))
      && (!s.restore.restoreOverlay ==> passed.focused == s.restore.resumeTarget)
    ensures SetFocus(s, env, None, false).focused
         == if s.restore.restoreOverlay then Some(s.stack[i].component) else s.restore.resumeTarget
  {
    hide IsFocusAncestor, Ids, Topmost;
    IndexByComponentFinds(s.stack, i);
    HasId(s, i);
  }

  /** Before a key: focus leaves an overlay that does not show for the topmost one, and
      returns to an overlay that waits for it. */
  lemma RepairGivesFocus(s: State, env: Env, i: nat)
    requires Distinct(s.stack) && i < |s.stack|
    ensures s.focused == Some(s.stack[i].component) && !IsVisible(s.stack[i], env) && Topmost(s.stack, env).Some? ==>
      Repair(s, env).focused == Some(Topmost(s.stack, env).value.component)
    ensures s.focused == Some(s.stack[i].component) && IsVisible(s.stack[i], env) ==> Repair(s, env) == s
    ensures OverlayOf(s.stack, s.focused).None? && s.restore == Eligible(s.stack[i].id) && IsVisible(s.stack[i], env) ==>
      Repair(s, env).focused == Some(s.stack[i].component)
  {
    hide Topmost, SetFocus;
    IndexByComponentFinds(s.stack, i);
    HasId(s, i);
    TopmostIsCapturing(s.stack, env);
    var top := Topmost(s.stack, env);
    if top.Some? {
      var j :| 0 <= j < |s.stack| && s.stack[j] == top.value;
      OverlayTakesFocus(s, env, j, false);
      IndexByComponentFinds(s.stack, j);
    }
    OverlayTakesFocus(s, env, i, false);
  }

  // ---------------------------------------------------------------- the counter

  lemma {:induction false} OrdersStayBelow(s: State, turns: seq<Turn>)
    requires OrdersBelow(s)
    ensures OrdersBelow(RunTurns(s, turns))
  {
    hide Apply, OrdersBelow;
    if turns != [] {
      var n := |turns| - 1;
      OrdersStayBelow(s, turns[..n]);
      StepKeepsOrders(RunTurns(s, turns[..n]), turns[n].env, turns[n].op);
    }
  }

  lemma RemoveKeepsOrders(s: State, env: Env, i: nat)
    requires OrdersBelow(s) && i < |s.stack|
    ensures OrdersBelow(Remove(s, env, i))
  {
    hide Without, SetFocus, Topmost;
    var rest := Without(s.stack, i);
    WithoutLength(s.stack, i);
    forall j | 0 <= j < |rest| ensures rest[j].focusOrder <= s.counter { WithoutAt(s.stack, i, j); }
    FocusKeepsStack(ClearRestoreFor(s, s.stack[i].id).(stack := rest), env,
      if Topmost(rest, env).Some? then Some(Topmost(rest, env).value.component) else s.stack[i].preFocus, false);
  }

  lemma RaiseKeepsOrders(s: State, env: Env, i: nat)
    requires OrdersBelow(s) && i < |s.stack|
    ensures OrdersBelow(Raise(s, env, i))
  {
    hide Redirect;
  }

  lemma FallbackKeepsOrders(s: State, env: Env, preFocus: Option<Component>)
    requires OrdersBelow(s)
    ensures OrdersBelow(FocusFallback(s, env, preFocus))
  {
    hide Redirect, Topmost;
  }

  lemma SetHiddenKeepsOrders(s: State, env: Env, id: nat, hidden: bool)
    requires OrdersBelow(s)
    ensures OrdersBelow(SetHidden(s, env, id, hidden))
  {
    hide Raise, FocusFallback, IndexById;
    var i := IndexById(s.stack, id);
    if i >= 0 {
      var marked := s.(stack := s.stack[i := s.stack[i].(hidden := hidden)]);
      assert OrdersBelow(marked);
      RaiseKeepsOrders(marked, env, i);
      FallbackKeepsOrders(ClearRestoreFor(marked, id), env, s.stack[i].preFocus);
    }
  }

  lemma UnfocusKeepsStack(s: State, env: Env, entry: Entry, explicit: Option<Option<Component>>)
    ensures var r := Unfocus(s, env, entry, explicit); r.stack == s.stack && r.counter == s.counter
  {
    hide Redirect, Topmost;
  }

  lemma RepairKeepsStack(s: State, env: Env)
    ensures var r := Repair(s, env); r.stack == s.stack && r.counter == s.counter
  {
    hide Redirect, Topmost, IsVisible;
  }

  /** Every operation keeps the counter above the orders it has given out. */
  lemma StepKeepsOrders(s: State, env: Env, op: Op)
    requires OrdersBelow(s)
    ensures OrdersBelow(Apply(s, env, op))
  {
    hide Remove, Redirect, Topmost, IndexById, Raise, SetHidden, Unfocus, Repair;
    match op
    case OpShow(_, _, _) =>
    case OpHide(id) => if IndexById(s.stack, id) >= 0 { RemoveKeepsOrders(s, env, IndexById(s.stack, id)); }
    case OpHideLast => if s.stack != [] { RemoveKeepsOrders(s, env, |s.stack| - 1); }
    case OpFocus(id) => if IndexById(s.stack, id) >= 0 { RaiseKeepsOrders(s, env, IndexById(s.stack, id)); }
    case OpSetHidden(id, hidden) => SetHiddenKeepsOrders(s, env, id, hidden);
    case OpUnfocus(entry, explicit) => UnfocusKeepsStack(s, env, entry, explicit);
    case OpSetFocus(next) =>
    case OpRepair => RepairKeepsStack(s, env);
  }
}
