# htz-a11y-dropdown, modelled in Dafny

`dropdown(wrapper, expandOnHover, toggleElemClass, menuElemClass)` turns a
wrapper element holding a toggle control and a menu panel into an accessible
dropdown. Each instance keeps one flag, `dropdownIsHidden`. It writes the menu's
`aria-hidden` attribute and the toggle's `aria-has-popup` attribute. It
dispatches `dropdown:show` and `dropdown:hide` on the wrapper, each carrying
the toggle and menu elements. It returns `showDropdown`, `hideDropdown` and
`toggleDropdown`, and it registers listeners:

- click on the toggle (click mode only);
- mouseenter and mouseleave on the wrapper, and focus on the toggle (hover mode only);
- focus loss inside the wrapper and the Escape key (both modes).

The model has four modules:

- `Dom` (`dom.dfy`): element references, a nullable reference (`Option`),
  `IndexOf` (the `Array.prototype.indexOf` the source calls) and
  `HasElement`, the descendant test of the focus-loss handler.
- `DropdownSpec` (`dropdown_spec.dfy`): the instance as a value. `Config`
  holds what is fixed at construction. `State` holds the flag, the two
  attributes, the element focus was last moved to, and the log of dispatched
  notifications. Each transition and each listener is a function on `State`.
  `Step` and `Run` apply any sequence of API calls and DOM events.
  `Inv` is the invariant every reachable state keeps.
- `DropdownLemmas` (`dropdown_lemmas.dfy`): the behaviour the code promises,
  proved about those functions. It covers idempotence, the no-op cases,
  alternation under toggle, and the listeners' guards. It also proves one
  notification per change of visibility and the invariant over every run.
- `DropdownController` (`dropdown_controller.dfy`): class `Dropdown`. Its
  fields are the closure state and the attributes; its methods are the
  three API functions and the listeners, updating those fields in place.
  Every method keeps `Valid()` (that is, `Inv`) and leaves the instance in
  exactly the state the matching `DropdownSpec` function gives.

Construction does not write `aria-hidden` (src/index.js:39-42). The model
therefore keeps it unset (`None`) until the first real transition. It does not
assume the menu starts with `aria-hidden` true. `Inv` and
`DropdownLemmas.Reachable` show that, once written, the attribute always
equals the flag.

## Model

| member | source | states |
|---|---|---|
| `Dom.IndexOf` | src/index.js:123 | `indexOf`: the result is -1 exactly when the element is absent; otherwise it is the position of the element's first occurrence |
| `Dom.HasElement` | src/index.js:118-124 | `hasElement` is true exactly when the element is non-null and occurs among the container's descendants |
| `DropdownSpec.ToggleDropdown` | src/index.js:104-106 | `toggleDropdown` always flips the flag and writes `aria-hidden` equal to the new flag. It appends exactly one notification: a show when the instance was hidden, a hide otherwise |
| `DropdownLemmas.InitialState` | src/index.js:39-42 | a new instance is hidden and the toggle has `aria-has-popup` true. The menu's `aria-hidden` is unset, nothing has been dispatched, and the invariant holds |
| `DropdownLemmas.ShowWhenHidden` | src/index.js:51-69 | showing a hidden instance makes it visible and sets `aria-hidden` false. It appends exactly one `dropdown:show` carrying the wrapper, toggle and menu, and changes nothing else |
| `DropdownLemmas.ShowWhenVisible` | src/index.js:52 | showing a visible instance leaves the whole state unchanged |
| `DropdownLemmas.ShowIdempotent` | src/index.js:51-69 | showing twice is the same as showing once; afterwards the instance is visible |
| `DropdownLemmas.HideWhenVisible` | src/index.js:78-96 | hiding a visible instance makes it hidden and sets `aria-hidden` true. It appends exactly one `dropdown:hide` and changes nothing else |
| `DropdownLemmas.HideWhenHidden` | src/index.js:79 | hiding a hidden instance leaves the whole state unchanged |
| `DropdownLemmas.HideIdempotent` | src/index.js:78-96 | hiding twice is the same as hiding once; afterwards the instance is hidden |
| `DropdownLemmas.ToggleTwice` | src/index.js:104-106 | two toggles restore the flag and append one show and one hide. The show comes first when the instance starts hidden. Once `aria-hidden` has been written, everything except the log is restored |
| `DropdownLemmas.TogglesAlternate` | src/index.js:104-106 | `n` toggles flip the flag `n` times and append `n` notifications. Show and hide alternate, starting with show exactly when the instance starts hidden, and the earlier log is kept |
| `DropdownLemmas.ClickGuard` | src/index.js:127-141 | `preventDefault` is called exactly for a button-0 click in click mode, and that click's new state is exactly `ToggleDropdown` of the old one. Any other click, and every click in hover mode, changes nothing |
| `DropdownLemmas.FocusLossGuard` | src/index.js:143-150 | focus loss hides exactly when `relatedTarget` is not among the wrapper's descendants; otherwise nothing changes. A null `relatedTarget` always hides |
| `DropdownLemmas.EscapeGuard` | src/index.js:152-162 | key code 27 gives exactly `HideDropdown` after moving focus to the toggle: it writes `aria-hidden` true and dispatches a hide only if the instance was visible, and `aria-has-popup` stays. Any other key changes nothing |
| `DropdownLemmas.HoverGuard` | src/index.js:127-131 | in hover mode, mouseenter and toggle focus act exactly as `showDropdown` and mouseleave exactly as `hideDropdown`. In click mode none of these changes anything |
| `DropdownLemmas.OneNotificationPerChange` | src/index.js:51-106 | every call or event appends exactly one notification when it changes visibility, naming the new state, and none otherwise. `aria-has-popup` is never changed |
| `DropdownLemmas.StepKeepsInv` | src/index.js:51-96 | every call or event preserves the invariant: `aria-hidden` is unset exactly while nothing has been dispatched, and once set equals the flag. Notifications alternate show/hide from a show, and the instance is hidden exactly when an even number has been dispatched |
| `DropdownLemmas.RunKeepsInv` | src/index.js:51-162 | any sequence of calls and events preserves the invariant, only appends to the log, and adds one notification per change of visibility |
| `DropdownLemmas.Reachable` | src/index.js:39-162 | whatever happens to a new instance, `aria-hidden` is unset or equal to the flag. The instance is hidden exactly when the log is empty or ends with a hide, the log alternates show/hide from a show, and its length is the number of visibility changes |
| `DropdownController.Dropdown.constructor` | src/index.js:27-42 | takes the first toggle match and the first menu match, which must exist. Starts hidden with `aria-has-popup` true, `aria-hidden` unset and no notifications, and establishes the invariant |
| `DropdownController.Dropdown.ShowDropdown` | src/index.js:51-69 | updates the fields in place to `DropdownSpec.ShowDropdown` of the old state and keeps the invariant |
| `DropdownController.Dropdown.HideDropdown` | src/index.js:78-96 | updates the fields in place to `DropdownSpec.HideDropdown` of the old state and keeps the invariant |
| `DropdownController.Dropdown.ToggleDropdown` | src/index.js:104-106 | flips `hidden` in place, ends in `DropdownSpec.ToggleDropdown` of the old state, and keeps the invariant |
| `DropdownController.Dropdown.OnClick` | src/index.js:132-140 | returns whether `preventDefault` was called and ends in the state `DropdownSpec.OnClick` gives; no listener in hover mode |
| `DropdownController.Dropdown.OnFocusLoss` | src/index.js:144-150 | ends in the state `DropdownSpec.OnFocusLoss` gives for that `relatedTarget` and those descendants |
| `DropdownController.Dropdown.OnKeyDown` | src/index.js:153-162 | ends in the state `DropdownSpec.OnKeyDown` gives for that key code |
| `DropdownController.Dropdown.OnMouseEnter` | src/index.js:127-128 | ends in the state `DropdownSpec.OnMouseEnter` gives; only hover mode registers this listener |
| `DropdownController.Dropdown.OnMouseLeave` | src/index.js:127-129 | ends in the state `DropdownSpec.OnMouseLeave` gives; only hover mode registers this listener |
| `DropdownController.Dropdown.OnToggleFocus` | src/index.js:127-130 | ends in the state `DropdownSpec.OnToggleFocus` gives; only hover mode registers this listener |

## Left out

- DOM lookup: `getElementsByClassName` with the toggle and menu class names
  (defaults `js-dropdown-toggle` and `js-dropdown-menu`), and
  `querySelectorAll('*')`. The constructor receives the matches for each class
  and each handler receives the wrapper's descendants as sequences. The
  constructor requires both matches to exist. In the source a missing toggle
  fails at construction (src/index.js:42). A missing menu does not:
  construction, `hideDropdown` on a hidden instance, focus loss and Escape
  still run, and the first `showDropdown` fails at src/index.js:53. The model
  does not capture that partly-working instance.
- `expandOnHover` is a `bool` with no default. The source defaults it to
  `false` (src/index.js:29) and tests it by JavaScript truthiness
  (src/index.js:127); a caller of the model passes the resulting boolean.
- `dispatchEvent` from `htz-dispatch-event`, whose code is not part of this
  model. A dispatch is modelled only as appending a `Notification` (kind,
  target wrapper, toggle, menu) to the instance's log.
- Listener registration: `addEventListener`, the capture flag, browser event
  ordering and the `focusout`/`blur` choice (src/index.js:33). Each listener
  is a method the caller invokes. A listener the chosen mode does not register
  is a method that changes nothing.
- `toggleElem.focus()` is recorded only as the `focused` field. In a browser
  it can fire the toggle's `focus` listener (in hover mode, a show before the
  Escape handler's hide) and blur events. The model does not simulate that
  re-entrancy.
- Attribute values are kept as booleans, not as the strings
  `"true"`/`"false"` that `setAttribute` stores.
- The source has no teardown and never removes its listeners; the model has
  no teardown either.
- `jspm.config.js`: module-loader configuration with no behaviour.
