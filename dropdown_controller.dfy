/**
 * The object a `dropdown(wrapper, expandOnHover, ...)` call sets up: the
 * closure state and the attributes it writes become fields, the three
 * returned functions and the four kinds of listener become methods. Each
 * method is proved to do what the matching function of DropdownSpec says,
 * and to keep that module's invariant.
 */
module DropdownController {
  import opened Dom
  import opened DropdownSpec
  import DropdownLemmas

  class Dropdown {
    /** The wrapper, and the first toggle and first menu element found in it. */
    const wrapper: ElemId
    const toggleElem: ElemId
    const menuElem: ElemId
    /** Whether the menu opens on hover/focus rather than on click. */
    const expandOnHover: bool

    /** `dropdownIsHidden`. */
    var hidden: bool
    /** The menu's `aria-hidden` attribute; `None` until first written. */
    var menuAriaHidden: Option<bool>
    /** The toggle's `aria-has-popup` attribute. */
    var toggleHasPopup: bool
    /** The element this instance last moved focus to, if any. */
    var focused: Option<ElemId>
    /** Notifications dispatched on the wrapper so far, oldest first. */
    var events: seq<Notification>

    /** The fixed part of the instance. */
    function Cfg(): Config
    {
      Config(wrapper, toggleElem, menuElem, expandOnHover)
    }

    /** The changing part of the instance, as a value. */
    function Snapshot(): State
      reads this
    {
      State(hidden, menuAriaHidden, toggleHasPopup, focused, events)
    }

    ghost predicate Valid()
      reads this
    {
      Inv(Cfg(), Snapshot())
    }

    /**
     * Construction. `toggleMatches` and `menuMatches` are the wrapper's
     * descendants carrying the toggle class and the menu class, in document
     * order; the first of each is used, and there must be one.
     */
    constructor (wrapper: ElemId, toggleMatches: seq<ElemId>, menuMatches: seq<ElemId>, expandOnHover: bool)
      requires |toggleMatches| > 0 && |menuMatches| > 0
      ensures Cfg() == Config(wrapper, toggleMatches[0], menuMatches[0], expandOnHover)
      ensures Snapshot() == Init()
      ensures hidden && toggleHasPopup && menuAriaHidden == None && events == []
      ensures Valid()
    {
      this.wrapper := wrapper;
      this.toggleElem := toggleMatches[0];
      this.menuElem := menuMatches[0];
      this.expandOnHover := expandOnHover;
      hidden := true;
      toggleHasPopup := true;
      menuAriaHidden := None;
      focused := None;
      events := [];
    }

    /** `showDropdown`. */
    method ShowDropdown()
      requires Valid()
      modifies this
      ensures Valid()
      ensures Snapshot() == DropdownSpec.ShowDropdown(Cfg(), old(Snapshot()))
    {
      if hidden {
        menuAriaHidden := Some(false);
        hidden := false;
        events := events + [Notification(DropdownShow, wrapper, toggleElem, menuElem)];
        assert Snapshot() == Step(Cfg(), old(Snapshot()), CallShow);
        DropdownLemmas.StepKeepsInv(Cfg(), old(Snapshot()), CallShow);
      }
    }

    /** `hideDropdown`. */
    method HideDropdown()
      requires Valid()
      modifies this
      ensures Valid()
      ensures Snapshot() == DropdownSpec.HideDropdown(Cfg(), old(Snapshot()))
    {
      if !hidden {
        menuAriaHidden := Some(true);
        hidden := true;
        events := events + [Notification(DropdownHide, wrapper, toggleElem, menuElem)];
        assert Snapshot() == Step(Cfg(), old(Snapshot()), CallHide);
        DropdownLemmas.StepKeepsInv(Cfg(), old(Snapshot()), CallHide);
      }
    }

    /** `toggleDropdown`. */
    method ToggleDropdown()
      requires Valid()
      modifies this
      ensures Valid()
      ensures Snapshot() == DropdownSpec.ToggleDropdown(Cfg(), old(Snapshot()))
      ensures hidden == !old(hidden)
    {
      if hidden {
        ShowDropdown();
      } else {
        HideDropdown();
      }
    }

    /**
     * A `click` on the toggle with the given `button`. Returns whether
     * `preventDefault` was called.
     */
    method OnClick(button: int) returns (preventDefault: bool)
      requires Valid()
      modifies this
      ensures Valid()
      ensures (Snapshot(), preventDefault) == DropdownSpec.OnClick(Cfg(), old(Snapshot()), button)
    {
      preventDefault := false;
      if !expandOnHover {
        if button == PrimaryButton {
          preventDefault := true;
          ToggleDropdown();
        }
      }
    }

    /**
     * Focus leaving something inside the wrapper, towards `relatedTarget`;
     * `descendants` are the wrapper's descendants at that moment.
     */
    method OnFocusLoss(relatedTarget: Option<ElemId>, descendants: seq<ElemId>)
      requires Valid()
      modifies this
      ensures Valid()
      ensures Snapshot() == DropdownSpec.OnFocusLoss(Cfg(), old(Snapshot()), relatedTarget, descendants)
    {
      if !HasElement(descendants, relatedTarget) {
        HideDropdown();
      }
    }

    /** A `keydown` inside the wrapper with the given `keyCode`. */
    method OnKeyDown(keyCode: int)
      requires Valid()
      modifies this
      ensures Valid()
      ensures Snapshot() == DropdownSpec.OnKeyDown(Cfg(), old(Snapshot()), keyCode)
    {
      if keyCode == EscapeKeyCode {
        focused := Some(toggleElem);
        HideDropdown();
      }
    }

    /** The pointer entering the wrapper. */
    method OnMouseEnter()
      requires Valid()
      modifies this
      ensures Valid()
      ensures Snapshot() == DropdownSpec.OnMouseEnter(Cfg(), old(Snapshot()))
    {
      if expandOnHover {
        ShowDropdown();
      }
    }

    /** The pointer leaving the wrapper. */
    method OnMouseLeave()
      requires Valid()
      modifies this
      ensures Valid()
      ensures Snapshot() == DropdownSpec.OnMouseLeave(Cfg(), old(Snapshot()))
    {
      if expandOnHover {
        HideDropdown();
      }
    }

    /** The toggle receiving focus. */
    method OnToggleFocus()
      requires Valid()
      modifies this
      ensures Valid()
      ensures Snapshot() == DropdownSpec.OnToggleFocus(Cfg(), old(Snapshot()))
    {
      if expandOnHover {
        ShowDropdown();
      }
    }
  }
}
