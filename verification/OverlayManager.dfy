// The overlay fields of the terminal UI object (internal/tui/overlay.go) and the
// methods that change them, proved to compute the operations of Overlays.

module OverlayManager {
  import opened Options
  import opened Overlays

  /** The visible capturing overlay raised last. */
  method TopmostVisible(stack: seq<Entry>, env: Env) returns (top: Option<Entry>)
    ensures top == Topmost(stack, env)
  {
    top := None;
    for index := 0 to |stack|
      invariant top == Topmost(stack[..index], env)
    {
      var overlay := stack[index];
      assert stack[..index + 1][..index] == stack[..index];
      if overlay.nonCapturing || !IsVisible(overlay, env) {
        continue;
      }
      if top.None? || overlay.focusOrder > top.value.focusOrder {
        top := Some(overlay);
      }
    }
    assert stack[..|stack|] == stack;
  }

  /** Follows the links from one overlay, never twice through the same one. */
  method FindFocusAncestor(stack: seq<Entry>, entry: Entry, component: Component) returns (found: bool)
    ensures found == IsFocusAncestor(stack, entry.preFocus, component, Ids(stack))
  {
    var visited: set<nat> := {};
    var current := entry.preFocus;
    assert Ids(stack) - visited == Ids(stack);
    while current.Some?
      invariant IsFocusAncestor(stack, entry.preFocus, component, Ids(stack))
             == IsFocusAncestor(stack, current, component, Ids(stack) - visited)
      decreases Ids(stack) - visited
    {
      if current.value == component {
        return true;
      }
      var overlay := OverlayOf(stack, current);
      if overlay.None? || overlay.value.id in visited {
        return false;
      }
      assert overlay.value in stack;
      assert Ids(stack) - visited - {overlay.value.id} == Ids(stack) - (visited + {overlay.value.id});
      visited := visited + {overlay.value.id};
      current := overlay.value.preFocus;
    }
    found := false;
  }

  class Manager {
    var focusedComponent: Option<Component>
    var overlayStack: seq<Entry>
    var overlayRestore: Restore
    var focusOrderCounter: nat

    constructor (focused: Option<Component>)
      ensures Contents() == State(focused, [], Inactive, 0) && Tidy(Contents(), focused)
    {
      focusedComponent, overlayStack, overlayRestore, focusOrderCounter := focused, [], Inactive, 0;
    }

    ghost function Contents(): State
      reads this
    {
      State(focusedComponent, overlayStack, overlayRestore, focusOrderCounter)
    }

    method SetFocusInternal(env: Env, component: Option<Component>, preserveRestore: bool)
      modifies this`focusedComponent, this`overlayRestore
      ensures Contents() == SetFocus(old(Contents()), env, component, preserveRestore)
    {
      hide IsFocusAncestor;
      var previousFocus := focusedComponent;
      var nextFocus := component;
      var previousOverlay := VisibleOverlayOf(overlayStack, previousFocus, env);
      var nextIsOverlay := OverlayOf(overlayStack, nextFocus).Some?;
      var restore := VisibleRestore(State(focusedComponent, overlayStack, overlayRestore, focusOrderCounter), env);
      var released := restore.Blocked? && previousFocus == Some(restore.blockedBy);
      if nextFocus.Some? && !nextIsOverlay {
        if released {
          if !restore.restoreOverlay || !env.mounted(restore.blockedBy) {
            nextFocus := ResumeBlocked(restore);
          } else {
            overlayRestore := Blocked(restore.overlay, nextFocus.value, restore.restoreOverlay, restore.resumeTarget);
          }
        } else if previousOverlay.Some? && !restore.Inactive? && restore.overlay == previousOverlay.value.id {
          var ancestor := FindFocusAncestor(overlayStack, previousOverlay.value, nextFocus.value);
          if !ancestor {
            overlayRestore := Blocked(previousOverlay.value.id, nextFocus.value, true, None);
          }
        }
      } else if nextFocus.None? {
        if released {
          nextFocus := ResumeBlocked(restore);
        } else if !preserveRestore {
          overlayRestore := Inactive;
        }
      }
      assert Target(nextFocus, overlayRestore) == Redirect(old(Contents()), env, component, preserveRestore);
      focusedComponent := nextFocus;
      var focusedOverlay := VisibleOverlayOf(overlayStack, nextFocus, env);
      if focusedOverlay.Some? {
        overlayRestore := Eligible(focusedOverlay.value.id);
      }
    }

    method ResumeBlocked(restore: Restore) returns (next: Option<Component>)
      requires restore.Blocked? && IndexById(overlayStack, restore.overlay) >= 0
      modifies this`overlayRestore
      ensures Target(next, overlayRestore) == Resume(old(Contents()), restore)
    {
      if restore.restoreOverlay {
        return Some(overlayStack[IndexById(overlayStack, restore.overlay)].component);
      }
      overlayRestore := Inactive;
      return restore.resumeTarget;
    }

    method ClearRestoreFor(id: nat)
      modifies this`overlayRestore
      ensures Contents() == Overlays.ClearRestoreFor(old(Contents()), id)
    {
      if !overlayRestore.Inactive? && overlayRestore.overlay == id {
        overlayRestore := Inactive;
      }
    }

    method RetargetPreFocus(removed: Entry)
      modifies this`overlayStack
      ensures overlayStack == Retarget(old(overlayStack), removed, |old(overlayStack)|)
    {
      var stack := overlayStack;
      for index := 0 to |stack|
        invariant |overlayStack| == |stack|
        invariant forall i :: 0 <= i < |stack| ==>
          overlayStack[i] == if i < index then Retargeted(stack[i], removed) else stack[i]
      {
        var overlay := overlayStack[index];
        if overlay.id != removed.id && overlay.preFocus == Some(removed.component) {
          overlayStack := overlayStack[index := overlay.(preFocus := removed.preFocus)];
        }
      }
      assert overlayStack == Retarget(stack, removed, |stack|);
    }

    method FocusTopmostOr(env: Env, preFocus: Option<Component>)
      modifies this`focusedComponent, this`overlayRestore
      ensures Contents() == FocusFallback(old(Contents()), env, preFocus)
    {
      var top := TopmostVisible(overlayStack, env);
      if top.Some? {
        SetFocusInternal(env, Some(top.value.component), false);
      } else {
        SetFocusInternal(env, preFocus, false);
      }
    }

    method ShowOverlay(env: Env, id: nat, component: Component, nonCapturing: bool)
      modifies this
      ensures Contents() == Show(old(Contents()), env, id, component, nonCapturing)
      ensures KeepsTidy(old(Contents()), Contents(), env, OpShow(id, component, nonCapturing))
    {
      hide SetFocus, KeepsTidy;
      OpKeepsTidy(Contents(), env, OpShow(id, component, nonCapturing));
      focusOrderCounter := focusOrderCounter + 1;
      var entry := Entry(id, component, focusedComponent, nonCapturing, false, focusOrderCounter);
      overlayStack := overlayStack + [entry];
      if !nonCapturing && IsVisible(entry, env) {
        SetFocusInternal(env, Some(component), false);
      }
    }

    method RemoveAt(env: Env, index: nat)
      requires index < |overlayStack|
      modifies this
      ensures Contents() == Remove(old(Contents()), env, index)
    {
      hide SetFocus, FocusFallback, Retarget;
      var entry := overlayStack[index];
      ClearRestoreFor(entry.id);
      RetargetPreFocus(entry);
      overlayStack := overlayStack[..index] + overlayStack[index + 1..];
      if focusedComponent == Some(entry.component) {
        FocusTopmostOr(env, entry.preFocus);
      }
    }

    method HideOverlay(env: Env, id: nat)
      modifies this
      ensures Contents() == Hide(old(Contents()), env, id)
      ensures KeepsTidy(old(Contents()), Contents(), env, OpHide(id))
    {
      hide Remove, KeepsTidy;
      OpKeepsTidy(Contents(), env, OpHide(id));
      var index := IndexById(overlayStack, id);
      if index >= 0 {
        RemoveAt(env, index);
      }
    }

    method HideLastOverlay(env: Env)
      modifies this
      ensures Contents() == HideLast(old(Contents()), env)
      ensures KeepsTidy(old(Contents()), Contents(), env, OpHideLast)
    {
      hide Remove, KeepsTidy;
      OpKeepsTidy(Contents(), env, OpHideLast);
      if |overlayStack| > 0 {
        RemoveAt(env, |overlayStack| - 1);
      }
    }

    method RaiseAt(env: Env, index: nat)
      requires index < |overlayStack|
      modifies this
      ensures Contents() == Raise(old(Contents()), env, index)
    {
      hide SetFocus;
      focusOrderCounter := focusOrderCounter + 1;
      overlayStack := overlayStack[index := overlayStack[index].(focusOrder := focusOrderCounter)];
      SetFocusInternal(env, Some(overlayStack[index].component), false);
    }

    method FocusOverlay(env: Env, id: nat)
      modifies this
      ensures Contents() == Focus(old(Contents()), env, id)
      ensures KeepsTidy(old(Contents()), Contents(), env, OpFocus(id))
    {
      hide Raise, KeepsTidy;
      OpKeepsTidy(Contents(), env, OpFocus(id));
      var index := IndexById(overlayStack, id);
      if index >= 0 && IsVisible(overlayStack[index], env) {
        RaiseAt(env, index);
      }
    }

    method SetHidden(env: Env, id: nat, hidden: bool)
      modifies this
      ensures Contents() == Overlays.SetHidden(old(Contents()), env, id, hidden)
    {
      hide FocusFallback, Raise;
      var index := IndexById(overlayStack, id);
      if index < 0 || overlayStack[index].hidden == hidden {
        return;
      }
      var entry := overlayStack[index].(hidden := hidden);
      overlayStack := overlayStack[index := entry];
      if hidden {
        ClearRestoreFor(id);
        if focusedComponent == Some(entry.component) {
          FocusTopmostOr(env, entry.preFocus);
        }
      } else if !entry.nonCapturing && IsVisible(entry, env) {
        RaiseAt(env, index);
      }
    }

    method Unfocus(env: Env, entry: Entry, explicit: Option<Option<Component>>)
      modifies this
      ensures Contents() == Overlays.Unfocus(old(Contents()), env, entry, explicit)
    {
      hide SetFocus;
      var isFocused := focusedComponent == Some(entry.component);
      var pending := !overlayRestore.Inactive? && overlayRestore.overlay == entry.id;
      if !isFocused && !pending {
        return;
      }
      if overlayRestore.Blocked? && pending && focusedComponent == Some(overlayRestore.blockedBy) {
        if explicit.Some? {
          overlayRestore := Blocked(entry.id, overlayRestore.blockedBy, false, explicit.value);
        } else {
          overlayRestore := Inactive;
        }
        return;
      }
      ClearRestoreFor(entry.id);
      if isFocused || explicit.Some? {
        var top := TopmostVisible(overlayStack, env);
        var fallback := entry.preFocus;
        if top.Some? && top.value.id != entry.id {
          fallback := Some(top.value.component);
        }
        if explicit.Some? {
          SetFocusInternal(env, explicit.value, false);
        } else {
          SetFocusInternal(env, fallback, false);
        }
      }
    }

    method RepairFocusForInput(env: Env)
      modifies this
      ensures Contents() == Repair(old(Contents()), env)
      ensures KeepsTidy(old(Contents()), Contents(), env, OpRepair)
    {
      hide SetFocus, Topmost, KeepsTidy;
      OpKeepsTidy(Contents(), env, OpRepair);
      var focused := OverlayOf(overlayStack, focusedComponent);
      if focused.Some? && !IsVisible(focused.value, env) {
        var top := TopmostVisible(overlayStack, env);
        if top.Some? {
          SetFocusInternal(env, Some(top.value.component), false);
        } else {
          SetFocusInternal(env, focused.value.preFocus, true);
        }
      }
      if OverlayOf(overlayStack, focusedComponent).Some? {
        return;
      }
      var restore := VisibleRestore(State(focusedComponent, overlayStack, overlayRestore, focusOrderCounter), env);
      if restore.Inactive? {
        return;
      }
      var waiting := Some(overlayStack[IndexById(overlayStack, restore.overlay)].component);
      if restore.Eligible? {
        SetFocusInternal(env, waiting, false);
      } else if focusedComponent != Some(restore.blockedBy) {
        if restore.restoreOverlay {
          SetFocusInternal(env, waiting, false);
        } else {
          overlayRestore := Inactive;
          SetFocusInternal(env, restore.resumeTarget, false);
        }
      }
    }
  }
}
