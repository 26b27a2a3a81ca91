/**
 * The dropdown controller as a state machine over values: the state a
 * `dropdown(...)` instance keeps, its three public transitions, and what each
 * registered DOM listener does to that state.
 */
module DropdownSpec {
  import opened Dom

  /** The key code of `Escape`. */
  const EscapeKeyCode: int := 27

  /** The `button` value of a primary (left) mouse click. */
  const PrimaryButton: int := 0

  /**
   * The two custom events the controller dispatches on its wrapper, of event
   * types `dropdown:show` and `dropdown:hide`.
   */
  datatype NotificationKind = DropdownShow | DropdownHide

  /**
   * One dispatched custom event: its kind, the element it is dispatched on,
   * and its detail payload (the toggle and menu elements).
   */
  datatype Notification = Notification(kind: NotificationKind, target: ElemId, toggleElem: ElemId, menuElem: ElemId)

  /** What is fixed when an instance is built. */
  datatype Config = Config(wrapper: ElemId, toggleElem: ElemId, menuElem: ElemId, expandOnHover: bool)

  /**
   * What an instance changes over its life:
   *  - `hidden`: the closure variable `dropdownIsHidden`;
   *  - `menuAriaHidden`: the menu's `aria-hidden` attribute, `None` while unset;
   *  - `toggleHasPopup`: the toggle's `aria-has-popup` attribute;
   *  - `focused`: the element the controller last moved focus to, if any;
   *  - `events`: every notification dispatched so far, oldest first.
   */
  datatype State = State(
    hidden: bool,
    menuAriaHidden: Option<bool>,
    toggleHasPopup: bool,
    focused: Option<ElemId>,
    events: seq<Notification>)

  /** The notification of the given kind that instance `c` dispatches. */
  function Notify(c: Config, kind: NotificationKind): Notification
  {
    Notification(kind, c.wrapper, c.toggleElem, c.menuElem)
  }

  /** The state right after construction. */
  function Init(): State
  {
    State(true, None, true, None, [])
  }

  /** `showDropdown`. */
  function ShowDropdown(c: Config, s: State): State
  {
    if s.hidden then
      s.(menuAriaHidden := Some(false), hidden := false, events := s.events + [Notify(c, DropdownShow)])
    else s
  }

  /** `hideDropdown`. */
  function HideDropdown(c: Config, s: State): State
  {
    if !s.hidden then
      s.(menuAriaHidden := Some(true), hidden := true, events := s.events + [Notify(c, DropdownHide)])
    else s
  }

  /** `toggleDropdown`: whatever the current state, the visibility flips. */
  function ToggleDropdown(c: Config, s: State): (r: State)
    ensures r.hidden == !s.hidden
    ensures r.menuAriaHidden == Some(r.hidden)
    ensures r.events == s.events + [Notify(c, if s.hidden then DropdownShow else DropdownHide)]
    ensures r.toggleHasPopup == s.toggleHasPopup && r.focused == s.focused
  {
    if s.hidden then ShowDropdown(c, s) else HideDropdown(c, s)
  }

  /**
   * The toggle's `click` listener, registered only in click mode. Returns
   * the new state and whether `preventDefault` was called.
   */
  function OnClick(c: Config, s: State, button: int): (State, bool)
  {
    if c.expandOnHover then (s, false)
    else if button == PrimaryButton then (ToggleDropdown(c, s), true)
    else (s, false)
  }

  /**
   * The wrapper's captured focus-loss listener, registered in both modes.
   * `descendants` are the wrapper's descendants at the time of the event.
   */
  function OnFocusLoss(c: Config, s: State, relatedTarget: Option<ElemId>, descendants: seq<ElemId>): State
  {
    if !HasElement(descendants, relatedTarget) then HideDropdown(c, s) else s
  }

  /** The wrapper's captured `keydown` listener, registered in both modes. */
  function OnKeyDown(c: Config, s: State, keyCode: int): State
  {
    if keyCode == EscapeKeyCode then HideDropdown(c, s.(focused := Some(c.toggleElem))) else s
  }

  /** The wrapper's `mouseenter` listener, registered only in hover mode. */
  function OnMouseEnter(c: Config, s: State): State
  {
    if c.expandOnHover then ShowDropdown(c, s) else s
  }

  /** The wrapper's `mouseleave` listener, registered only in hover mode. */
  function OnMouseLeave(c: Config, s: State): State
  {
    if c.expandOnHover then HideDropdown(c, s) else s
  }

  /** The toggle's `focus` listener, registered only in hover mode. */
  function OnToggleFocus(c: Config, s: State): State
  {
    if c.expandOnHover then ShowDropdown(c, s) else s
  }

  /** Anything that can happen to an instance: an API call or a DOM event. */
  datatype Action =
    | CallShow
    | CallHide
    | CallToggle
    | Click(button: int)
    | FocusLoss(relatedTarget: Option<ElemId>, descendants: seq<ElemId>)
    | KeyDown(keyCode: int)
    | MouseEnter
    | MouseLeave
    | ToggleFocus

  /** The state after one action. */
  function Step(c: Config, s: State, a: Action): State
  {
    match a
    case CallShow => ShowDropdown(c, s)
    case CallHide => HideDropdown(c, s)
    case CallToggle => ToggleDropdown(c, s)
    case Click(button) => OnClick(c, s, button).0
    case FocusLoss(related, descendants) => OnFocusLoss(c, s, related, descendants)
    case KeyDown(keyCode) => OnKeyDown(c, s, keyCode)
    case MouseEnter => OnMouseEnter(c, s)
    case MouseLeave => OnMouseLeave(c, s)
    case ToggleFocus => OnToggleFocus(c, s)
  }

  /** The state after a sequence of actions, first action first. */
  function Run(c: Config, s: State, trace: seq<Action>): State
    decreases |trace|
  {
    if trace == [] then s else Run(c, Step(c, s, trace[0]), trace[1..])
  }

  /** The kind of the `i`-th notification an instance ever dispatches. */
  function KindAt(i: nat): NotificationKind
  {
    if i % 2 == 0 then DropdownShow else DropdownHide
  }

  /**
   * The invariant every reachable state keeps: the toggle advertises its
   * popup; the menu's `aria-hidden` is unset exactly while nothing has been
   * dispatched, and once set equals the visibility flag; notifications
   * alternate show, hide, show, ... and all carry this instance's elements;
   * the instance is hidden exactly when an even number has been dispatched.
   */
  ghost predicate Inv(c: Config, s: State)
  {
    && s.toggleHasPopup
    && (s.menuAriaHidden == None <==> s.events == [])
    && (s.menuAriaHidden != None ==> s.menuAriaHidden == Some(s.hidden))
    && (forall i :: 0 <= i < |s.events| ==> s.events[i] == Notify(c, KindAt(i)))
    && (s.hidden <==> |s.events| % 2 == 0)
  }
}
