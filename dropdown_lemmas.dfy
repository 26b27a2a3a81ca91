/**
 * What the dropdown controller promises, proved about the state machine of
 * module DropdownSpec.
 */
module DropdownLemmas {
  import opened Dom
  import opened DropdownSpec

  /** A new instance is hidden, advertises its popup, and has not touched the menu. */
  lemma InitialState(c: Config)
    ensures Init().hidden && Init().toggleHasPopup
    ensures Init().menuAriaHidden == None && Init().focused == None && Init().events == []
    ensures Inv(c, Init())
  {
  }

  // ----- showDropdown and hideDropdown -----

  /** Showing a hidden instance writes `aria-hidden=false` and dispatches exactly one `dropdown:show`. */
  lemma ShowWhenHidden(c: Config, s: State)
    requires s.hidden
    ensures !ShowDropdown(c, s).hidden
    ensures ShowDropdown(c, s).menuAriaHidden == Some(false)
    ensures ShowDropdown(c, s).events == s.events + [Notification(DropdownShow, c.wrapper, c.toggleElem, c.menuElem)]
    ensures ShowDropdown(c, s).toggleHasPopup == s.toggleHasPopup && ShowDropdown(c, s).focused == s.focused
  {
  }

  /** Showing a visible instance changes nothing: flag, attribute and log stay as they are. */
  lemma ShowWhenVisible(c: Config, s: State)
    requires !s.hidden
    ensures ShowDropdown(c, s) == s
  {
  }

  /** `showDropdown` is idempotent. */
  lemma ShowIdempotent(c: Config, s: State)
    ensures ShowDropdown(c, ShowDropdown(c, s)) == ShowDropdown(c, s)
    ensures !ShowDropdown(c, s).hidden
  {
  }

  /** Hiding a visible instance writes `aria-hidden=true` and dispatches exactly one `dropdown:hide`. */
  lemma HideWhenVisible(c: Config, s: State)
    requires !s.hidden
    ensures HideDropdown(c, s).hidden
    ensures HideDropdown(c, s).menuAriaHidden == Some(true)
    ensures HideDropdown(c, s).events == s.events + [Notification(DropdownHide, c.wrapper, c.toggleElem, c.menuElem)]
    ensures HideDropdown(c, s).toggleHasPopup == s.toggleHasPopup && HideDropdown(c, s).focused == s.focused
  {
  }

  /** Hiding a hidden instance changes nothing. */
  lemma HideWhenHidden(c: Config, s: State)
    requires s.hidden
    ensures HideDropdown(c, s) == s
  {
  }

  /** `hideDropdown` is idempotent. */
  lemma HideIdempotent(c: Config, s: State)
    ensures HideDropdown(c, HideDropdown(c, s)) == HideDropdown(c, s)
    ensures HideDropdown(c, s).hidden
  {
  }

  // ----- toggleDropdown -----

  /**
   * Two toggles restore the visibility, dispatch exactly one show and one
   * hide (show first when starting hidden), and leave the attribute equal to
   * the flag; once the attribute has been written, the whole state apart
   * from the log is as before.
   */
  lemma ToggleTwice(c: Config, s: State)
    ensures ToggleDropdown(c, ToggleDropdown(c, s)).hidden == s.hidden
    ensures ToggleDropdown(c, ToggleDropdown(c, s)).menuAriaHidden == Some(s.hidden)
    ensures ToggleDropdown(c, ToggleDropdown(c, s)).events ==
              s.events + if s.hidden then [Notify(c, DropdownShow), Notify(c, DropdownHide)]
                         else [Notify(c, DropdownHide), Notify(c, DropdownShow)]
    ensures s.menuAriaHidden == Some(s.hidden) ==>
              ToggleDropdown(c, ToggleDropdown(c, s)) == s.(events := ToggleDropdown(c, ToggleDropdown(c, s)).events)
  {
    var t := ToggleDropdown(c, s);
    assert t.events == s.events + [Notify(c, if s.hidden then DropdownShow else DropdownHide)];
  }

  /** Toggles applied to one state, one after another. */
  function Toggles(c: Config, s: State, n: nat): State
    decreases n
  {
    if n == 0 then s else Toggles(c, ToggleDropdown(c, s), n - 1)
  }

  /**
   * Strict alternation: `n` toggles flip the visibility `n` times, and the
   * `k`-th notification they dispatch is a show exactly when the instance
   * was hidden before that toggle.
   */
  lemma {:induction false} TogglesAlternate(c: Config, s: State, n: nat)
    ensures Toggles(c, s, n).hidden == (if n % 2 == 0 then s.hidden else !s.hidden)
    ensures |Toggles(c, s, n).events| == |s.events| + n
    ensures Toggles(c, s, n).events[..|s.events|] == s.events
    ensures forall k :: 0 <= k < n ==>
              Toggles(c, s, n).events[|s.events| + k] ==
                Notify(c, if (k % 2 == 0) == s.hidden then DropdownShow else DropdownHide)
    decreases n
  {
    if n > 0 {
      var t := ToggleDropdown(c, s);
      TogglesAlternate(c, t, n - 1);
      var r := Toggles(c, s, n);
      assert r == Toggles(c, t, n - 1);
      assert t.events == s.events + [Notify(c, if s.hidden then DropdownShow else DropdownHide)];
      assert r.events[..|t.events|] == t.events;
      assert r.events[..|s.events|] == t.events[..|s.events|];
      forall k | 0 <= k < n
        ensures r.events[|s.events| + k] == Notify(c, if (k % 2 == 0) == s.hidden then DropdownShow else DropdownHide)
      {
        if k > 0 {
          assert |s.events| + k == |t.events| + (k - 1);
          assert ((k - 1) % 2 == 0) == t.hidden <==> (k % 2 == 0) == s.hidden;
        } else {
          assert r.events[|s.events|] == t.events[|s.events|];
        }
      }
    }
  }

  // ----- the event handlers -----

  /**
   * Click mode: a primary click calls `preventDefault` and toggles. Any other
   * click, and every click in hover mode (no listener), changes nothing and
   * does not prevent the default.
   */
  lemma ClickGuard(c: Config, s: State, button: int)
    ensures OnClick(c, s, button).1 <==> !c.expandOnHover && button == 0
    ensures !c.expandOnHover && button == 0 ==> OnClick(c, s, button).0 == ToggleDropdown(c, s)
    ensures !c.expandOnHover && button == 0 ==> OnClick(c, s, button).0.hidden == !s.hidden
    ensures !(!c.expandOnHover && button == 0) ==> OnClick(c, s, button).0 == s
  {
  }

  /**
   * Focus loss hides exactly when the element receiving focus is not among
   * the wrapper's descendants; with no `relatedTarget` it always hides.
   */
  lemma FocusLossGuard(c: Config, s: State, relatedTarget: Option<ElemId>, descendants: seq<ElemId>)
    ensures relatedTarget.Some? && relatedTarget.value in descendants ==>
              OnFocusLoss(c, s, relatedTarget, descendants) == s
    ensures !(relatedTarget.Some? && relatedTarget.value in descendants) ==>
              OnFocusLoss(c, s, relatedTarget, descendants) == HideDropdown(c, s)
    ensures relatedTarget == None ==> OnFocusLoss(c, s, relatedTarget, descendants).hidden
    ensures !s.hidden ==>
              (OnFocusLoss(c, s, relatedTarget, descendants).hidden <==>
                 !(relatedTarget.Some? && relatedTarget.value in descendants))
  {
  }

  /**
   * `Escape` moves focus to the toggle and hides (dispatching a hide only if
   * the instance was visible); any other key changes nothing.
   */
  lemma EscapeGuard(c: Config, s: State, keyCode: int)
    ensures keyCode == 27 ==> OnKeyDown(c, s, keyCode) == HideDropdown(c, s.(focused := Some(c.toggleElem)))
    ensures keyCode == 27 ==> OnKeyDown(c, s, keyCode).hidden
    ensures keyCode == 27 ==> OnKeyDown(c, s, keyCode).menuAriaHidden == (if s.hidden then s.menuAriaHidden else Some(true))
    ensures OnKeyDown(c, s, keyCode).toggleHasPopup == s.toggleHasPopup
    ensures keyCode == 27 ==> OnKeyDown(c, s, keyCode).focused == Some(c.toggleElem)
    ensures keyCode == 27 ==>
              OnKeyDown(c, s, keyCode).events ==
                if s.hidden then s.events else s.events + [Notify(c, DropdownHide)]
    ensures keyCode != 27 ==> OnKeyDown(c, s, keyCode) == s
  {
  }

  /**
   * Hover mode: entering the wrapper or focusing the toggle shows, leaving the
   * wrapper hides. Click mode registers none of these listeners.
   */
  lemma HoverGuard(c: Config, s: State)
    ensures c.expandOnHover ==> !OnMouseEnter(c, s).hidden && !OnToggleFocus(c, s).hidden
    ensures c.expandOnHover ==> OnMouseLeave(c, s) == HideDropdown(c, s)
    ensures c.expandOnHover ==> OnMouseLeave(c, s).hidden
    ensures c.expandOnHover ==> OnMouseEnter(c, s) == OnToggleFocus(c, s) == ShowDropdown(c, s)
    ensures !c.expandOnHover ==> OnMouseEnter(c, s) == OnMouseLeave(c, s) == OnToggleFocus(c, s) == s
  {
  }

  // ----- notifications and the invariant over whole runs -----

  /**
   * Every action dispatches exactly one notification when it changes the
   * visibility and none otherwise; the log only grows, and the new entry
   * names the new state.
   */
  lemma OneNotificationPerChange(c: Config, s: State, a: Action)
    ensures Step(c, s, a).hidden != s.hidden ==>
              Step(c, s, a).events == s.events + [Notify(c, if s.hidden then DropdownShow else DropdownHide)]
    ensures Step(c, s, a).hidden == s.hidden ==> Step(c, s, a).events == s.events
    ensures Step(c, s, a).toggleHasPopup == s.toggleHasPopup
  {
  }

  /** Every action keeps the invariant. */
  lemma StepKeepsInv(c: Config, s: State, a: Action)
    requires Inv(c, s)
    ensures Inv(c, Step(c, s, a))
  {
    var t := Step(c, s, a);
    OneNotificationPerChange(c, s, a);
    if t.hidden != s.hidden {
      assert t.menuAriaHidden == Some(t.hidden);
      forall i | 0 <= i < |t.events|
        ensures t.events[i] == Notify(c, KindAt(i))
      {
        if i == |s.events| {
          assert KindAt(i) == (if s.hidden then DropdownShow else DropdownHide);
        }
      }
    }
  }

  /** The number of actions in a run that change the visibility. */
  function Changes(c: Config, s: State, trace: seq<Action>): nat
    decreases |trace|
  {
    if trace == [] then 0
    else (if Step(c, s, trace[0]).hidden != s.hidden then 1 else 0) + Changes(c, Step(c, s, trace[0]), trace[1..])
  }

  /**
   * Over any run the invariant is kept, the log only grows, and it grows by
   * exactly one notification per change of visibility.
   */
  lemma {:induction false} RunKeepsInv(c: Config, s: State, trace: seq<Action>)
    requires Inv(c, s)
    ensures Inv(c, Run(c, s, trace))
    ensures |Run(c, s, trace).events| == |s.events| + Changes(c, s, trace)
    ensures Run(c, s, trace).events[..|s.events|] == s.events
    decreases |trace|
  {
    if trace != [] {
      var t := Step(c, s, trace[0]);
      StepKeepsInv(c, s, trace[0]);
      OneNotificationPerChange(c, s, trace[0]);
      RunKeepsInv(c, t, trace[1..]);
      assert Run(c, s, trace) == Run(c, t, trace[1..]);
      assert Run(c, s, trace).events[..|t.events|] == t.events;
      assert t.events[..|s.events|] == s.events;
    }
  }

  /**
   * Whatever happens to a new instance: the attribute, once written, equals
   * the flag; the instance is visible exactly when the last notification was
   * a show; notifications alternate starting with a show; and there is one
   * per change of visibility.
   */
  lemma Reachable(c: Config, trace: seq<Action>)
    ensures Run(c, Init(), trace).toggleHasPopup
    ensures Run(c, Init(), trace).menuAriaHidden == None ||
            Run(c, Init(), trace).menuAriaHidden == Some(Run(c, Init(), trace).hidden)
    ensures var ev := Run(c, Init(), trace).events;
            Run(c, Init(), trace).hidden <==> ev == [] || ev[|ev| - 1].kind == DropdownHide
    ensures var ev := Run(c, Init(), trace).events;
            forall i :: 0 <= i < |ev| ==> ev[i].kind == (if i % 2 == 0 then DropdownShow else DropdownHide)
    ensures |Run(c, Init(), trace).events| == Changes(c, Init(), trace)
  {
    RunKeepsInv(c, Init(), trace);
    var r := Run(c, Init(), trace);
    if r.events != [] {
      var n := |r.events| - 1;
      assert r.events[n] == Notify(c, KindAt(n));
    }
  }
}
