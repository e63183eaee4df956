// Overlay focus (internal/tui/overlay.go): which component has the keyboard as
// overlays are shown, raised, hidden and closed, and the record that returns the
// keyboard to an overlay another component took it from.

module Overlays {
  import opened Options

  type Component = nat

  /** One overlay. Its id stands for the handle that ShowOverlay returned. */
  datatype Entry = Entry(
    id: nat, component: Component, preFocus: Option<Component>,
    nonCapturing: bool, hidden: bool, focusOrder: nat)

  /** Who gets the keyboard back: nobody, the overlay as soon as focus leaves the
      overlays, or the overlay once the component that took over lets go. */
  datatype Restore =
    | Inactive
    | Eligible(overlay: nat)
    | Blocked(overlay: nat, blockedBy: Component, restoreOverlay: bool, resumeTarget: Option<Component>)

  datatype State = State(
    focused: Option<Component>, stack: seq<Entry>, restore: Restore, counter: nat)

  /** What overlays' own visibility callbacks say, and which components are mounted. */
  datatype Env = Env(shows: nat -> bool, mounted: Component -> bool)

  const ALWAYS := Env(_ => true, _ => true)

  // ---------------------------------------------------------------- lookups

  function IndexById(stack: seq<Entry>, id: nat): (i: int)
    ensures -1 <= i < |stack|
    ensures i >= 0 ==> stack[i].id == id
    ensures i < 0 ==> forall j :: 0 <= j < |stack| ==> stack[j].id != id
  {
    if stack == [] then -1
    else if stack[0].id == id then 0
    else
      var i := IndexById(stack[1..], id);
      if i < 0 then -1 else i + 1
  }

  function IndexByComponent(stack: seq<Entry>, component: Component): (i: int)
    ensures -1 <= i < |stack|
    ensures i >= 0 ==> stack[i].component == component
    ensures i < 0 ==> forall j :: 0 <= j < |stack| ==> stack[j].component != component
  {
    if stack == [] then -1
    else if stack[0].component == component then 0
    else
      var i := IndexByComponent(stack[1..], component);
      if i < 0 then -1 else i + 1
  }

  predicate IsVisible(entry: Entry, env: Env) { !entry.hidden && env.shows(entry.id) }

  function OverlayOf(stack: seq<Entry>, component: Option<Component>): Option<Entry> {
    if component.None? || IndexByComponent(stack, component.value) < 0 then None
    else Some(stack[IndexByComponent(stack, component.value)])
  }

  function VisibleOverlayOf(stack: seq<Entry>, component: Option<Component>, env: Env): Option<Entry> {
    var entry := OverlayOf(stack, component);
    if entry.Some? && IsVisible(entry.value, env) then entry else None
  }

  /** The visible capturing overlay raised last. */
  function Topmost(stack: seq<Entry>, env: Env): Option<Entry> {
    if stack == [] then None
    else
      var last := stack[|stack| - 1];
      var top := Topmost(stack[..|stack| - 1], env);
      if last.nonCapturing || !IsVisible(last, env) || (top.Some? && last.focusOrder <= top.value.focusOrder) then top
      else Some(last)
  }

  function Ids(stack: seq<Entry>): set<nat> { set e | e in stack :: e.id }

  /** Whether focus had already passed through a component before an overlay
      opened; no overlay is followed twice. */
  predicate IsFocusAncestor(stack: seq<Entry>, current: Option<Component>, component: Component, unvisited: set<nat>)
    decreases unvisited
  {
    if current.None? then false
    else if current.value == component then true
    else
      var overlay := OverlayOf(stack, current);
      overlay.Some? && overlay.value.id in unvisited
      && IsFocusAncestor(stack, overlay.value.preFocus, component, unvisited - {overlay.value.id})
  }

  // ---------------------------------------------------------------- moving focus

  /** The restore record, unless its overlay is gone or not shown. */
  function VisibleRestore(s: State, env: Env): Restore {
    if s.restore.Inactive? then Inactive
    else
      var i := IndexById(s.stack, s.restore.overlay);
      if i < 0 || !IsVisible(s.stack[i], env) then Inactive else s.restore
  }

  datatype Target = Target(focus: Option<Component>, restore: Restore)

  /** The blocking component lets go: back to the overlay, or to what an explicit
      release asked for. */
  function Resume(s: State, restore: Restore): Target
    requires restore.Blocked? && IndexById(s.stack, restore.overlay) >= 0
  {
    if restore.restoreOverlay then Target(Some(s.stack[IndexById(s.stack, restore.overlay)].component), s.restore)
    else Target(restore.resumeTarget, Inactive)
  }

  /** Where focus really goes when asked to go to a component. */
  function Redirect(s: State, env: Env, next: Option<Component>, preserve: bool): Target {
    var restore := VisibleRestore(s, env);
    var released := restore.Blocked? && s.focused == Some(restore.blockedBy);
    if next.Some? && OverlayOf(s.stack, next).None? then
      if released then
        if !restore.restoreOverlay || !env.mounted(restore.blockedBy) then Resume(s, restore)
        else Target(next, restore.(blockedBy := next.value))
      else
        var previous := VisibleOverlayOf(s.stack, s.focused, env);
        if previous.Some? && !restore.Inactive? && restore.overlay == previous.value.id
           && !IsFocusAncestor(s.stack, previous.value.preFocus, next.value, Ids(s.stack))
        then Target(next, Blocked(previous.value.id, next.value, true, None))
        else Target(next, s.restore)
    else if next.None? then
      if released then Resume(s, restore)
      else Target(next, if preserve then s.restore else Inactive)
    else Target(next, s.restore)
  }

  function SetFocus(s: State, env: Env, next: Option<Component>, preserve: bool): State {
    var target := Redirect(s, env, next, preserve);
    var overlay := VisibleOverlayOf(s.stack, target.focus, env);
    s.(focused := target.focus, restore := if overlay.Some? then Eligible(overlay.value.id) else target.restore)
  }

  function ClearRestoreFor(s: State, id: nat): State {
    if !s.restore.Inactive? && s.restore.overlay == id then s.(restore := Inactive) else s
  }

  /** The topmost overlay, or else where focus was before this one opened. */
  function FocusFallback(s: State, env: Env, preFocus: Option<Component>): State {
    var top := Topmost(s.stack, env);
    SetFocus(s, env, if top.Some? then Some(top.value.component) else preFocus, false)
  }

  // ---------------------------------------------------------------- operations

  function Show(s: State, env: Env, id: nat, component: Component, nonCapturing: bool): State {
    var entry := Entry(id, component, s.focused, nonCapturing, false, s.counter + 1);
    var pushed := s.(stack := s.stack + [entry], counter := s.counter + 1);
    if !nonCapturing && IsVisible(entry, env) then SetFocus(pushed, env, Some(component), false) else pushed
  }

  function Retargeted(entry: Entry, removed: Entry): Entry {
    if entry.id != removed.id && entry.preFocus == Some(removed.component) then entry.(preFocus := removed.preFocus)
    else entry
  }

  /** Overlays opened from the removed one now return to where it would have. */
  function Retarget(stack: seq<Entry>, removed: Entry, k: nat): (r: seq<Entry>)
    requires k <= |stack|
    ensures |r| == k
    ensures forall i :: 0 <= i < k ==> r[i] == Retargeted(stack[i], removed)
  {
    if k == 0 then []
    else
      Retarget(stack, removed, k - 1) + [Retargeted(stack[k - 1], removed)]
  }

  function Without(stack: seq<Entry>, index: nat): seq<Entry>
    requires index < |stack|
  {
    var kept := Retarget(stack, stack[index], |stack|);
    kept[..index] + kept[index + 1..]
  }

  function Remove(s: State, env: Env, index: nat): State
    requires index < |s.stack|
  {
    var entry := s.stack[index];
    var removed := ClearRestoreFor(s, entry.id).(stack := Without(s.stack, index));
    if s.focused == Some(entry.component) then FocusFallback(removed, env, entry.preFocus) else removed
  }

  function Hide(s: State, env: Env, id: nat): State {
    var index := IndexById(s.stack, id);
    if index < 0 then s else Remove(s, env, index)
  }

  /** Closes the overlay opened last. */
  function HideLast(s: State, env: Env): State {
    if s.stack == [] then s else Remove(s, env, |s.stack| - 1)
  }

  function Raise(s: State, env: Env, index: nat): State
    requires index < |s.stack|
  {
    var raised := s.(counter := s.counter + 1,
                     stack := s.stack[index := s.stack[index].(focusOrder := s.counter + 1)]);
    SetFocus(raised, env, Some(s.stack[index].component), false)
  }

  function Focus(s: State, env: Env, id: nat): State {
    var index := IndexById(s.stack, id);
    if index < 0 || !IsVisible(s.stack[index], env) then s else Raise(s, env, index)
  }

  function SetHidden(s: State, env: Env, id: nat, hidden: bool): State {
    var index := IndexById(s.stack, id);
    if index < 0 || s.stack[index].hidden == hidden then s
    else
      var entry := s.stack[index].(hidden := hidden);
      var marked := s.(stack := s.stack[index := entry]);
      if hidden then
        var cleared := ClearRestoreFor(marked, id);
        if s.focused == Some(entry.component) then FocusFallback(cleared, env, entry.preFocus) else cleared
      else if !entry.nonCapturing && IsVisible(entry, env) then Raise(marked, env, index)
      else marked
  }

  /** Gives up focus: to an explicit target, which may be nothing, or to the usual
      fallback. A handle whose overlay is gone can still name its entry. */
  function Unfocus(s: State, env: Env, entry: Entry, explicit: Option<Option<Component>>): State {
    var isFocused := s.focused == Some(entry.component);
    var pending := !s.restore.Inactive? && s.restore.overlay == entry.id;
    if !isFocused && !pending then s
    else if s.restore.Blocked? && pending && s.focused == Some(s.restore.blockedBy) then
      s.(restore := if explicit.Some? then Blocked(entry.id, s.restore.blockedBy, false, explicit.value) else Inactive)
    else
      var cleared := ClearRestoreFor(s, entry.id);
      if explicit.Some? then SetFocus(cleared, env, explicit.value, false)
      else if isFocused then
        var top := Topmost(s.stack, env);
        SetFocus(cleared, env,
                 if top.Some? && top.value.id != entry.id then Some(top.value.component) else entry.preFocus, false)
      else cleared
  }

  /** Before each key: focus leaves an overlay that is not shown, and goes back to
      one that is waiting for it. */
  function Repair(s: State, env: Env): State {
    var focused := OverlayOf(s.stack, s.focused);
    var s1 :=
      if focused.Some? && !IsVisible(focused.value, env) then
        var top := Topmost(s.stack, env);
        if top.Some? then SetFocus(s, env, Some(top.value.component), false)
        else SetFocus(s, env, focused.value.preFocus, true)
      else s;
    var restore := VisibleRestore(s1, env);
    if OverlayOf(s1.stack, s1.focused).Some? || restore.Inactive? then s1
    else
      var back := Some(s1.stack[IndexById(s1.stack, restore.overlay)].component);
      if restore.Eligible? then SetFocus(s1, env, back, false)
      else if s1.focused == Some(restore.blockedBy) then s1
      else if restore.restoreOverlay then SetFocus(s1, env, back, false)
      else SetFocus(s1.(restore := Inactive), env, restore.resumeTarget, false)
  }

  // ---------------------------------------------------------------- the restore record

  ghost predicate UniqueIds(stack: seq<Entry>) {
    forall i, j :: 0 <= i < j < |stack| ==> stack[i].id != stack[j].id
  }

  /** The restore record never names an overlay that has been removed. */
  ghost predicate RestoreInStack(s: State) {
    UniqueIds(s.stack) && (s.restore.Inactive? || IndexById(s.stack, s.restore.overlay) >= 0)
  }

  lemma IndexByIdFinds(stack: seq<Entry>, i: nat)
    requires UniqueIds(stack) && i < |stack|
    ensures IndexById(stack, stack[i].id) == i
  {
  }

  lemma SetFocusKeepsRestore(s: State, env: Env, next: Option<Component>, preserve: bool)
    requires RestoreInStack(s)
    ensures RestoreInStack(SetFocus(s, env, next, preserve))
    ensures SetFocus(s, env, next, preserve).stack == s.stack
    ensures SetFocus(s, env, next, preserve).counter == s.counter
  {
    hide IsFocusAncestor;
  }

  // Removing an entry that the record does not name leaves the record in place.
  // The entries that stay are those of the old stack, retargeted.
  lemma WithoutAt(stack: seq<Entry>, index: nat, i: nat)
    requires index < |stack| && i < |stack| - 1
    ensures |Without(stack, index)| == |stack| - 1
    ensures var j := if i < index then i else i + 1;
      Without(stack, index)[i] == Retargeted(stack[j], stack[index])
  {
  }

  lemma WithoutLength(stack: seq<Entry>, index: nat)
    requires index < |stack|
    ensures |Without(stack, index)| == |stack| - 1
  {
  }

  lemma RemoveKeepsIds(s: State, index: nat, id: nat)
    requires index < |s.stack| && UniqueIds(s.stack)
    ensures var rest := Without(s.stack, index);
      && UniqueIds(rest)
      && (IndexById(s.stack, id) >= 0 && id != s.stack[index].id ==> IndexById(rest, id) >= 0)
  {
    hide Without, IndexById;
    var rest := Without(s.stack, index);
    WithoutLength(s.stack, index);
    forall i, j | 0 <= i < j < |rest| ensures rest[i].id != rest[j].id {
      WithoutAt(s.stack, index, i);
      WithoutAt(s.stack, index, j);
    }
    var i := IndexById(s.stack, id);
    if i >= 0 && i != index {
      WithoutAt(s.stack, index, if i < index then i else i - 1);
    }
  }

  lemma RemoveKeepsRestore(s: State, env: Env, index: nat)
    requires RestoreInStack(s) && index < |s.stack|
    ensures RestoreInStack(Remove(s, env, index))
  {
    hide SetFocus, Topmost;
    var entry := s.stack[index];
    if !s.restore.Inactive? {
      RemoveKeepsIds(s, index, s.restore.overlay);
    } else {
      RemoveKeepsIds(s, index, entry.id);
    }
    var removed := ClearRestoreFor(s, entry.id).(stack := Without(s.stack, index));
    assert RestoreInStack(removed);
    var top := Topmost(removed.stack, env);
    SetFocusKeepsRestore(removed, env, if top.Some? then Some(top.value.component) else entry.preFocus, false);
  }

  // Changing an entry in place keeps every id where it is.
  lemma UpdateKeepsIds(s: State, index: nat, entry: Entry, id: nat)
    requires index < |s.stack| && UniqueIds(s.stack) && entry.id == s.stack[index].id
    ensures UniqueIds(s.stack[index := entry])
    ensures IndexById(s.stack, id) >= 0 ==> IndexById(s.stack[index := entry], id) >= 0
  {
    var i := IndexById(s.stack, id);
    if i >= 0 {
      assert s.stack[index := entry][i].id == id;
    }
  }

  lemma RaiseKeepsRestore(s: State, env: Env, index: nat)
    requires RestoreInStack(s) && index < |s.stack|
    ensures RestoreInStack(Raise(s, env, index))
  {
    hide SetFocus;
    var entry := s.stack[index].(focusOrder := s.counter + 1);
    UpdateKeepsIds(s, index, entry, if s.restore.Inactive? then 0 else s.restore.overlay);
    SetFocusKeepsRestore(s.(counter := s.counter + 1, stack := s.stack[index := entry]), env,
                         Some(s.stack[index].component), false);
  }

  /** Anything a program can do to the overlays. */
  datatype Op =
    | OpShow(id: nat, component: Component, nonCapturing: bool)
    | OpHide(id: nat)
    | OpHideLast
    | OpFocus(id: nat)
    | OpSetHidden(id: nat, hidden: bool)
    | OpUnfocus(entry: Entry, explicit: Option<Option<Component>>)
    | OpSetFocus(next: Option<Component>)
    | OpRepair

  function Apply(s: State, env: Env, op: Op): State {
    match op
    case OpShow(id, component, nonCapturing) => Show(s, env, id, component, nonCapturing)
    case OpHide(id) => Hide(s, env, id)
    case OpHideLast => HideLast(s, env)
    case OpFocus(id) => Focus(s, env, id)
    case OpSetHidden(id, hidden) => SetHidden(s, env, id, hidden)
    case OpUnfocus(entry, explicit) => Unfocus(s, env, entry, explicit)
    case OpSetFocus(next) => SetFocus(s, env, next, false)
    case OpRepair => Repair(s, env)
  }

  lemma ShowKeepsRestore(s: State, env: Env, id: nat, component: Component, nonCapturing: bool)
    requires RestoreInStack(s) && IndexById(s.stack, id) < 0
    ensures RestoreInStack(Show(s, env, id, component, nonCapturing))
  {
    hide SetFocus;
    var entry := Entry(id, component, s.focused, nonCapturing, false, s.counter + 1);
    var pushed := s.(stack := s.stack + [entry], counter := s.counter + 1);
    if !s.restore.Inactive? {
      var i := IndexById(s.stack, s.restore.overlay);
      assert pushed.stack[i].id == s.restore.overlay;
    }
    SetFocusKeepsRestore(pushed, env, Some(component), false);
  }

  lemma SetHiddenKeepsRestore(s: State, env: Env, id: nat, hidden: bool)
    requires RestoreInStack(s)
    ensures RestoreInStack(SetHidden(s, env, id, hidden))
  {
    hide SetFocus, Topmost, Raise;
    var index := IndexById(s.stack, id);
    if index >= 0 && s.stack[index].hidden != hidden {
      var entry := s.stack[index].(hidden := hidden);
      UpdateKeepsIds(s, index, entry, if s.restore.Inactive? then 0 else s.restore.overlay);
      var marked := s.(stack := s.stack[index := entry]);
      assert RestoreInStack(marked);
      var cleared := ClearRestoreFor(marked, id);
      var top := Topmost(cleared.stack, env);
      SetFocusKeepsRestore(cleared, env, if top.Some? then Some(top.value.component) else entry.preFocus, false);
      RaiseKeepsRestore(marked, env, index);
    }
  }

  lemma UnfocusKeepsRestore(s: State, env: Env, entry: Entry, explicit: Option<Option<Component>>)
    requires RestoreInStack(s)
    ensures RestoreInStack(Unfocus(s, env, entry, explicit))
  {
    hide SetFocus, Topmost;
    var cleared := ClearRestoreFor(s, entry.id);
    var top := Topmost(s.stack, env);
    var fallback := if top.Some? && top.value.id != entry.id then Some(top.value.component) else entry.preFocus;
    SetFocusKeepsRestore(cleared, env, if explicit.Some? then explicit.value else fallback, false);
  }

  lemma RepairKeepsRestore(s: State, env: Env)
    requires RestoreInStack(s)
    ensures RestoreInStack(Repair(s, env))
  {
    hide SetFocus, Topmost;
    var focused := OverlayOf(s.stack, s.focused);
    var s1 := s;
    if focused.Some? && !IsVisible(focused.value, env) {
      var top := Topmost(s.stack, env);
      var next := if top.Some? then Some(top.value.component) else focused.value.preFocus;
      SetFocusKeepsRestore(s, env, next, top.None?);
      s1 := SetFocus(s, env, next, top.None?);
    }
    var restore := VisibleRestore(s1, env);
    if !restore.Inactive? {
      SetFocusKeepsRestore(s1, env, Some(s1.stack[IndexById(s1.stack, restore.overlay)].component), false);
      if restore.Blocked? {
        SetFocusKeepsRestore(s1.(restore := Inactive), env, restore.resumeTarget, false);
      }
    }
  }

  lemma StepKeepsRestore(s: State, env: Env, op: Op)
    requires RestoreInStack(s)
    requires op.OpShow? ==> IndexById(s.stack, op.id) < 0
    ensures RestoreInStack(Apply(s, env, op))
  {
    hide SetFocus, Topmost, Remove, Raise, Repair, Unfocus, SetHidden, Show;
    match op
    case OpShow(id, component, nonCapturing) => ShowKeepsRestore(s, env, id, component, nonCapturing);
    case OpHide(id) => if IndexById(s.stack, id) >= 0 { RemoveKeepsRestore(s, env, IndexById(s.stack, id)); }
    case OpHideLast => if s.stack != [] { RemoveKeepsRestore(s, env, |s.stack| - 1); }
    case OpFocus(id) => if IndexById(s.stack, id) >= 0 { RaiseKeepsRestore(s, env, IndexById(s.stack, id)); }
    case OpSetHidden(id, hidden) => SetHiddenKeepsRestore(s, env, id, hidden);
    case OpUnfocus(entry, explicit) => UnfocusKeepsRestore(s, env, entry, explicit);
    case OpSetFocus(next) => SetFocusKeepsRestore(s, env, next, false);
    case OpRepair => RepairKeepsRestore(s, env);
  }

  /** An operation, and what is visible and mounted while it runs. */
  datatype Turn = Turn(env: Env, op: Op)

  function RunTurns(s: State, turns: seq<Turn>): State {
    if turns == [] then s
    else
      var n := |turns| - 1;
      Apply(RunTurns(s, turns[..n]), turns[n].env, turns[n].op)
  }

  /** Overlays get identifiers that are not in use. */
  ghost predicate FreshIds(s: State, turns: seq<Turn>) {
    turns != [] ==>
      var n := |turns| - 1;
      && FreshIds(s, turns[..n])
      && (turns[n].op.OpShow? ==> IndexById(RunTurns(s, turns[..n]).stack, turns[n].op.id) < 0)
  }

  /** Over every run of every operation, with overlays coming and going from view
      between them as they like, the restore record names an overlay in the stack. */
  lemma {:induction false} RestoreStaysInStack(s: State, turns: seq<Turn>)
    requires RestoreInStack(s) && FreshIds(s, turns)
    ensures RestoreInStack(RunTurns(s, turns))
  {
    hide RestoreInStack, Apply;
    if turns != [] {
      var n := |turns| - 1;
      RestoreStaysInStack(s, turns[..n]);
      StepKeepsRestore(RunTurns(s, turns[..n]), turns[n].env, turns[n].op);
    }
  }

  // ---------------------------------------------------------------- closing overlays

  /** Where an overlay was opened from: the original component, or an overlay that
      was opened before it and is still open. Links therefore never form a cycle. */
  predicate OpenedFrom(stack: seq<Entry>, i: nat, original: Option<Component>)
    requires i < |stack|
  {
    var p := stack[i].preFocus;
    p == original || (p.Some? && IndexByComponent(stack[..i], p.value) >= 0)
  }

  ghost predicate Linked(stack: seq<Entry>, original: Option<Component>) {
    && UniqueIds(stack)
    && (forall i, j :: 0 <= i < j < |stack| ==> stack[i].component != stack[j].component)
    && (forall i :: 0 <= i < |stack| ==> !stack[i].hidden && Some(stack[i].component) != original)
    && (forall i :: 0 <= i < |stack| ==> OpenedFrom(stack, i, original))
  }

  /** Focus is on an overlay in the stack, which the restore record then names, or
      back on the original component with no capturing overlay left. */
  predicate Focused(s: State, original: Option<Component>) {
    if s.focused == original then s.restore == Inactive && Topmost(s.stack, ALWAYS) == None
    else
      && s.focused.Some?
      && IndexByComponent(s.stack, s.focused.value) >= 0
      && s.restore == Eligible(s.stack[IndexByComponent(s.stack, s.focused.value)].id)
  }

  ghost predicate Tidy(s: State, original: Option<Component>) {
    Linked(s.stack, original) && Focused(s, original)
  }

  lemma {:induction false} IndexByComponentFinds(stack: seq<Entry>, i: nat)
    requires i < |stack| && forall j :: 0 <= j < i ==> stack[j].component != stack[i].component
    ensures IndexByComponent(stack, stack[i].component) == i
  {
    if i > 0 {
      IndexByComponentFinds(stack[1..], i - 1);
    }
  }

  lemma {:induction false} TopmostIsCapturing(stack: seq<Entry>, env: Env)
    ensures var top := Topmost(stack, env);
      && (top.Some? ==> top.value in stack && !top.value.nonCapturing && IsVisible(top.value, env))
      && (forall e :: e in stack && !e.nonCapturing && IsVisible(e, env) ==>
            top.Some? && e.focusOrder <= top.value.focusOrder)
  {
    if stack != [] {
      TopmostIsCapturing(stack[..|stack| - 1], env);
      assert stack == stack[..|stack| - 1] + [stack[|stack| - 1]];
    }
  }

  // With every overlay shown, focusing one of them settles on it.
  lemma FocusingOverlay(s: State, original: Option<Component>, i: nat)
    requires Linked(s.stack, original) && i < |s.stack|
    ensures var next := SetFocus(s, ALWAYS, Some(s.stack[i].component), false);
      && next == s.(focused := Some(s.stack[i].component), restore := Eligible(s.stack[i].id))
      && Focused(next, original)
  {
    IndexByComponentFinds(s.stack, i);
  }

  // Going back to the original component leaves nothing to restore.
  lemma FocusingOriginal(s: State, original: Option<Component>)
    requires Linked(s.stack, original) && s.restore == Inactive && Topmost(s.stack, ALWAYS) == None
    ensures SetFocus(s, ALWAYS, original, false) == s.(focused := original)
    ensures Focused(s.(focused := original), original)
  {
  }

  lemma OpenedFromAt(stack: seq<Entry>, i: nat, k: nat, original: Option<Component>)
    requires k < i < |stack| && stack[i].preFocus == Some(stack[k].component)
    ensures OpenedFrom(stack, i, original)
  {
    assert stack[..i][k] == stack[k];
  }

  // The entry a linked one was opened from stands before it.
  lemma OpenerOf(stack: seq<Entry>, i: nat, original: Option<Component>) returns (k: nat)
    requires i < |stack| && OpenedFrom(stack, i, original) && stack[i].preFocus != original
    ensures k < i && stack[i].preFocus == Some(stack[k].component)
  {
    k := IndexByComponent(stack[..i], stack[i].preFocus.value);
  }

  lemma {:induction false} LinksSurvive(stack: seq<Entry>, index: nat, i: nat, original: Option<Component>)
    requires Linked(stack, original) && index < |stack| && i < |stack| - 1
    ensures |Without(stack, index)| == |stack| - 1
    ensures OpenedFrom(Without(stack, index), i, original)
  {
    hide Without, OpenedFrom, IndexByComponent;
    var rest := Without(stack, index);
    WithoutAt(stack, index, i);
    var j := if i < index then i else i + 1;
    assert OpenedFrom(stack, j, original) && OpenedFrom(stack, index, original);
    if rest[i].preFocus == original {
      OpenedFromOriginal(rest, i, original);
    } else {
      // The component it is now opened from sits at k in the old stack, before j.
      var k := OpenerOf(stack, j, original);
      if k == index { k := OpenerOf(stack, index, original); }
      var k' := if k < index then k else k - 1;
      WithoutAt(stack, index, k');
      OpenedFromAt(rest, i, k', original);
    }
  }

  lemma OpenedFromOriginal(stack: seq<Entry>, i: nat, original: Option<Component>)
    requires i < |stack| && stack[i].preFocus == original
    ensures OpenedFrom(stack, i, original)
  {
  }

  ghost predicate KeptAt(stack: seq<Entry>, index: nat, i: nat)
    requires index < |stack| && i < |stack|
  {
    var i' := if i < index then i else i - 1;
    && 0 <= i' < |Without(stack, index)|
    && Without(stack, index)[i'].id == stack[i].id && Without(stack, index)[i'].component == stack[i].component
  }

  lemma {:induction false} RemovingKeepsLinks(stack: seq<Entry>, index: nat, original: Option<Component>)
    requires Linked(stack, original) && index < |stack|
    ensures Linked(Without(stack, index), original)
    ensures IndexByComponent(Without(stack, index), stack[index].component) < 0
    ensures forall i :: 0 <= i < |stack| && i != index ==> KeptAt(stack, index, i)
  {
    hide Retarget, OpenedFrom, Without;
    var rest := Without(stack, index);
    if |stack| > 1 {
      WithoutAt(stack, index, 0);
    } else {
      assert |rest| == 0 by { WithoutEmpty(stack); }
    }
    forall i | 0 <= i < |rest|
      ensures rest[i] == Retargeted(stack[if i < index then i else i + 1], stack[index])
      ensures OpenedFrom(rest, i, original)
    {
      WithoutAt(stack, index, i);
      LinksSurvive(stack, index, i, original);
    }
    forall i | 0 <= i < |stack| && i != index ensures KeptAt(stack, index, i) {
      WithoutAt(stack, index, if i < index then i else i - 1);
    }
  }

  lemma WithoutEmpty(stack: seq<Entry>)
    requires |stack| == 1
    ensures Without(stack, 0) == []
  {
  }

  lemma {:induction false} RemovingKeepsTopmost(stack: seq<Entry>, index: nat)
    requires index < |stack| && Topmost(stack, ALWAYS) == None
    ensures Topmost(Without(stack, index), ALWAYS) == None
  {
    hide Retarget, Topmost;
    TopmostIsCapturing(stack, ALWAYS);
    var rest := Without(stack, index);
    TopmostIsCapturing(rest, ALWAYS);
    forall e | e in rest ensures e.nonCapturing || !IsVisible(e, ALWAYS) {
      var i :| 0 <= i < |rest| && rest[i] == e;
      if |stack| > 1 {
        WithoutAt(stack, index, i);
        assert stack[if i < index then i else i + 1] in stack;
      }
    }
  }

  /** Closing any overlay, in any order, keeps the invariant: links are retargeted
      past it, and focus falls to the overlay raised last or back where it came from. */
  lemma {:induction false} RemoveStaysTidy(s: State, index: nat, original: Option<Component>)
    requires Tidy(s, original) && index < |s.stack|
    ensures Tidy(Remove(s, ALWAYS, index), original)
  {
    hide Retarget, Without, SetFocus, Topmost, OpenedFrom;
    var entry := s.stack[index];
    var rest := Without(s.stack, index);
    RemovingKeepsLinks(s.stack, index, original);
    var removed := ClearRestoreFor(s, entry.id).(stack := rest);
    IndexByComponentFinds(s.stack, index);
    if s.focused == Some(entry.component) {
      assert removed.restore == Inactive;
      TopmostIsCapturing(rest, ALWAYS);
      var top := Topmost(rest, ALWAYS);
      if top.Some? {
        var i :| 0 <= i < |rest| && rest[i] == top.value;
        FocusingOverlay(removed, original, i);
      } else if entry.preFocus == original {
        FocusingOriginal(removed, original);
      } else {
        assert OpenedFrom(s.stack, index, original);
        PreFocusStays(s.stack, index, original);
        FocusingOverlay(removed, original, IndexByComponent(rest, entry.preFocus.value));
      }
    } else if s.focused == original {
      RemovingKeepsTopmost(s.stack, index);
    } else {
      var i := IndexByComponent(s.stack, s.focused.value);
      var i' := if i < index then i else i - 1;
      assert KeptAt(s.stack, index, i);
      IndexByComponentFinds(rest, i');
    }
  }

  lemma PreFocusStays(stack: seq<Entry>, index: nat, original: Option<Component>)
    requires Linked(stack, original) && index < |stack| && stack[index].preFocus != original
    ensures stack[index].preFocus.Some?
    ensures IndexByComponent(Without(stack, index), stack[index].preFocus.value) >= 0
  {
    hide Retarget, Without;
    RemovingKeepsLinks(stack, index, original);
    assert OpenedFrom(stack, index, original);
    var k := IndexByComponent(stack[..index], stack[index].preFocus.value);
    assert stack[k].component == stack[index].preFocus.value && KeptAt(stack, index, k);
    assert Without(stack, index)[k].component == stack[k].component;
  }

  // A new overlay opened from the original component or from one in the stack.
  lemma PushKeepsLinks(stack: seq<Entry>, entry: Entry, original: Option<Component>)
    requires Linked(stack, original) && !entry.hidden && Some(entry.component) != original
    requires IndexById(stack, entry.id) < 0 && IndexByComponent(stack, entry.component) < 0
    requires entry.preFocus == original || (entry.preFocus.Some? && IndexByComponent(stack, entry.preFocus.value) >= 0)
    ensures Linked(stack + [entry], original)
  {
    hide IndexById;
    var pushed, n := stack + [entry], |stack|;
    forall i | 0 <= i < n + 1 ensures OpenedFrom(pushed, i, original) {
      if i < n {
        assert OpenedFrom(stack, i, original);
        assert pushed[..i] == stack[..i];
      } else {
        assert pushed[..n] == stack;
      }
    }
  }

  lemma {:induction false} ShowStaysTidy(s: State, id: nat, component: Component, nonCapturing: bool, original: Option<Component>)
    requires Tidy(s, original) && Some(component) != original
    requires IndexById(s.stack, id) < 0 && IndexByComponent(s.stack, component) < 0
    ensures Tidy(Show(s, ALWAYS, id, component, nonCapturing), original)
  {
    hide SetFocus, Topmost;
    var entry := Entry(id, component, s.focused, nonCapturing, false, s.counter + 1);
    var n := |s.stack|;
    var pushed := s.(stack := s.stack + [entry], counter := s.counter + 1);
    PushKeepsLinks(s.stack, entry, original);
    hide Linked;
    if nonCapturing {
      if s.focused == original {
        TopmostUnchanged(s.stack, entry);
      } else {
        var i := IndexByComponent(s.stack, s.focused.value);
        assert pushed.stack[i] == s.stack[i];
        IndexByComponentFinds(pushed.stack, i);
      }
    } else {
      FocusingOverlay(pushed, original, n);
    }
  }

  lemma TopmostUnchanged(stack: seq<Entry>, entry: Entry)
    requires entry.nonCapturing
    ensures Topmost(stack + [entry], ALWAYS) == Topmost(stack, ALWAYS)
  {
    assert (stack + [entry])[..|stack|] == stack;
  }

  lemma {:induction false} RaiseStaysTidy(s: State, index: nat, original: Option<Component>)
    requires Tidy(s, original) && index < |s.stack|
    ensures Tidy(Raise(s, ALWAYS, index), original)
  {
    hide SetFocus, Topmost;
    var entry := s.stack[index].(focusOrder := s.counter + 1);
    var stack := s.stack[index := entry];
    forall i | 0 <= i < |stack| ensures OpenedFrom(stack, i, original) {
      assert OpenedFrom(s.stack, i, original);
      SameComponents(s.stack[..i], stack[..i], stack[i].preFocus);
    }
    FocusingOverlay(s.(counter := s.counter + 1, stack := stack), original, index);
  }

  lemma SameComponents(a: seq<Entry>, b: seq<Entry>, component: Option<Component>)
    requires |a| == |b| && forall i :: 0 <= i < |a| ==> a[i].component == b[i].component
    ensures component.Some? && IndexByComponent(a, component.value) >= 0 ==> IndexByComponent(b, component.value) >= 0
  {
    if component.Some? {
      var i := IndexByComponent(a, component.value);
      assert i >= 0 ==> b[i].component == component.value;
    }
  }

  lemma RepairChangesNothing(s: State, original: Option<Component>)
    requires Tidy(s, original)
    ensures Repair(s, ALWAYS) == s
  {
    hide SetFocus, Topmost, OpenedFrom;
  }

  /** Showing, closing, raising and typing, with distinct components. */
  ghost predicate Allowed(s: State, op: Op, original: Option<Component>) {
    match op
    case OpShow(id, component, _) =>
      IndexById(s.stack, id) < 0 && IndexByComponent(s.stack, component) < 0 && Some(component) != original
    case OpHide(_) => true
    case OpHideLast => true
    case OpFocus(_) => true
    case OpRepair => true
    case _ => false
  }

  function Run(s: State, ops: seq<Op>): State
    decreases |ops|
  {
    if ops == [] then s else Run(Apply(s, ALWAYS, ops[0]), ops[1..])
  }

  ghost predicate AllAllowed(s: State, ops: seq<Op>, original: Option<Component>)
    decreases |ops|
  {
    ops == [] || (Allowed(s, ops[0], original) && AllAllowed(Apply(s, ALWAYS, ops[0]), ops[1..], original))
  }

  lemma StepStaysTidy(s: State, op: Op, original: Option<Component>)
    requires Tidy(s, original) && Allowed(s, op, original)
    ensures Tidy(Apply(s, ALWAYS, op), original)
  {
    hide SetFocus, Topmost, Remove, Raise, Repair, Show, Tidy;
    match op
    case OpShow(id, component, nonCapturing) => ShowStaysTidy(s, id, component, nonCapturing, original);
    case OpHide(id) => if IndexById(s.stack, id) >= 0 { RemoveStaysTidy(s, IndexById(s.stack, id), original); }
    case OpHideLast => if s.stack != [] { RemoveStaysTidy(s, |s.stack| - 1, original); }
    case OpFocus(id) => if IndexById(s.stack, id) >= 0 { RaiseStaysTidy(s, IndexById(s.stack, id), original); }
    case OpRepair => RepairChangesNothing(s, original);
  }

  /** Over every run of showing, closing and raising overlays from a plain start,
      in any order, focus is on the original component or an overlay still open;
      once every overlay is closed the original component has it again. */
  lemma {:induction false} ClosingRestoresFocus(s: State, ops: seq<Op>, original: Option<Component>)
    requires Tidy(s, original) && AllAllowed(s, ops, original)
    ensures Tidy(Run(s, ops), original)
    ensures Run(s, ops).stack == [] ==> Run(s, ops).focused == original
    decreases |ops|
  {
    hide Tidy, Apply;
    if ops != [] {
      StepStaysTidy(s, ops[0], original);
      ClosingRestoresFocus(Apply(s, ALWAYS, ops[0]), ops[1..], original);
    } else {
      EmptyStackFocus(s, original);
    }
  }

  lemma EmptyStackFocus(s: State, original: Option<Component>)
    requires Tidy(s, original)
    ensures s.stack == [] ==> s.focused == original
  {
  }

  /** From a plain start, after any such run focus is on the original component or on
      the overlay that would be restored, and comes back when every overlay is closed. */
  lemma FocusComesBack(original: Option<Component>, counter: nat, ops: seq<Op>)
    requires AllAllowed(State(original, [], Inactive, counter), ops, original)
    ensures var end := Run(State(original, [], Inactive, counter), ops);
      && (end.focused == original || (end.focused.Some? && IndexByComponent(end.stack, end.focused.value) >= 0))
      && (end.stack == [] ==> end.focused == original)
  {
    hide Run, AllAllowed, Linked;
    PlainStartIsTidy(original, counter);
    ClosingRestoresFocus(State(original, [], Inactive, counter), ops, original);
  }

  /** What the operations owe the invariant while every overlay is visible. */
  ghost predicate KeepsTidy(before: State, after: State, env: Env, op: Op) {
    env == ALWAYS ==> forall original :: Tidy(before, original) && Allowed(before, op, original) ==> Tidy(after, original)
  }

  lemma OpKeepsTidy(s: State, env: Env, op: Op)
    ensures KeepsTidy(s, Apply(s, env, op), env, op)
  {
    hide Tidy, Apply, Allowed;
    if env == ALWAYS {
      forall original | Tidy(s, original) && Allowed(s, op, original) ensures Tidy(Apply(s, env, op), original) {
        StepStaysTidy(s, op, original);
      }
    }
  }

  lemma PlainStartIsTidy(original: Option<Component>, counter: nat)
    ensures Tidy(State(original, [], Inactive, counter), original)
  {
  }

  /** Following the links from any overlay ends at the original component. */
  lemma {:induction false} LinksLeadBack(stack: seq<Entry>, i: nat, original: Component, unvisited: set<nat>)
    requires Linked(stack, Some(original)) && i < |stack|
    requires forall j :: 0 <= j < i ==> stack[j].id in unvisited
    ensures IsFocusAncestor(stack, stack[i].preFocus, original, unvisited)
    decreases i
  {
    assert OpenedFrom(stack, i, Some(original));
    if stack[i].preFocus != Some(original) {
      var j := IndexByComponent(stack[..i], stack[i].preFocus.value);
      assert stack[j].component == stack[i].preFocus.value;
      IndexByComponentFinds(stack, j);
      LinksLeadBack(stack, j, original, unvisited - {stack[j].id});
    }
  }

  /** Opening a capturing overlay and closing it again undoes itself, except that
      focus goes to the overlay raised last: it returns to where it was exactly when
      that overlay had it, or none was capturing. */
  lemma ShowThenHide(s: State, id: nat, component: Component, original: Option<Component>)
    requires Tidy(s, original) && Some(component) != original
    requires IndexById(s.stack, id) < 0 && IndexByComponent(s.stack, component) < 0
    ensures var after := Hide(Show(s, ALWAYS, id, component, false), ALWAYS, id);
      var top := Topmost(s.stack, ALWAYS);
      && (after.focused == s.focused <==> top.None? || s.focused == Some(top.value.component))
      && (top.Some? ==> after.focused == Some(top.value.component))
  {
    hide Topmost, SetFocus, Without, Retarget;
    var entry := Entry(id, component, s.focused, false, false, s.counter + 1);
    var n := |s.stack|;
    var shown := Show(s, ALWAYS, id, component, false);
    ShowStaysTidy(s, id, component, false, original);
    var pushed := s.(stack := s.stack + [entry], counter := s.counter + 1);
    PushedFocus(s, id, component, original);
    IndexByIdFinds(shown.stack, n);
    NobodyOpenedFrom(s, entry, original);
    var rest := Without(shown.stack, n);
    assert rest == s.stack;
    var removed := ClearRestoreFor(shown, id).(stack := rest);
    assert removed == State(Some(component), s.stack, Inactive, s.counter + 1);
    TopmostIsCapturing(s.stack, ALWAYS);
    var top := Topmost(s.stack, ALWAYS);
    if top.Some? {
      var i :| 0 <= i < |s.stack| && s.stack[i] == top.value;
      FocusingOverlay(removed, original, i);
    } else if s.focused == original {
      FocusingOriginal(removed, original);
    } else {
      FocusingOverlay(removed, original, IndexByComponent(s.stack, s.focused.value));
    }
  }

  lemma PushedFocus(s: State, id: nat, component: Component, original: Option<Component>)
    requires Tidy(s, original) && Some(component) != original
    requires IndexById(s.stack, id) < 0 && IndexByComponent(s.stack, component) < 0
    ensures var entry := Entry(id, component, s.focused, false, false, s.counter + 1);
      Show(s, ALWAYS, id, component, false)
        == State(Some(component), s.stack + [entry], Eligible(id), s.counter + 1)
  {
    hide Topmost;
    var entry := Entry(id, component, s.focused, false, false, s.counter + 1);
    IndexByComponentFinds(s.stack + [entry], |s.stack|);
  }

  // No overlay opened before this one was opened from it.
  lemma NobodyOpenedFrom(s: State, entry: Entry, original: Option<Component>)
    requires Tidy(s, original) && Some(entry.component) != original
    requires IndexById(s.stack, entry.id) < 0 && IndexByComponent(s.stack, entry.component) < 0
    ensures Without(s.stack + [entry], |s.stack|) == s.stack
  {
    hide Topmost;
    var stack := s.stack + [entry];
    forall i | 0 <= i < |s.stack| ensures Retargeted(stack[i], entry) == s.stack[i] {
      assert OpenedFrom(s.stack, i, original);
    }
  }
}
