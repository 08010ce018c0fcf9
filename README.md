# menu-aim, modelled in Dafny

menu-aim decides whether a mouse crossing a sibling menu item is heading
for the submenu of the active item. If it is, the switch to the sibling
waits. The decision compares the gradients from the previous and the
current mouse sample to two reference corners. An inconclusive comparison
schedules a re-check after a delay. The repository has two versions of the
controller, and this project models both:

- `src/index.js` (ES2015). The reference corners come from the menu block,
  padded by 100 pixels above and below, and are chosen by `submenuDirection`.
  Entering an item is deferred only when both gradients move toward the
  submenu. The fast paths are: no active item, a missing sample, a previous
  sample outside the menu, and a sample already found inconclusive.
  Callbacks report activation, deactivation and mouse-leave.
- `index.js` (CommonJS). The reference corners are the left edge of the
  active item's submenu. Entering an item switches at once only when a
  gradient moved the wrong way. Leaving the box that spans the menu and the
  submenu deactivates. While a switch is deferred, the menu carries a
  "delaying" class.

Layout:

- `geometry.dfy`:
  - `Options`: the optional value used for nullable slots.
  - `Geometry`: points, `computeGradient` as a `Slope` (finite, ±Infinity or
    NaN), and JavaScript's `<` on it. It also proves what the trajectory test
    means: the "moving toward" verdict implies the cursor moved horizontally
    toward the submenu's edge.
- `menu_bounds.dfy` (`MenuBounds`): the padded menu rectangle and the
  corner table of `src/index.js`.
- `menu_aim.dfy` (`MenuAim`): the `src/index.js` controller as a pure state
  machine. It has one function per inner function, an invariant, and lemmas
  for the controller's properties.
- `menu_aim_controller.dfy` (`MenuAimController.Controller`): the same
  controller as a class whose methods reassign its fields. Each method is
  proved to take `old(Model())` to the `MenuAim` function of the same name.
- `submenu_aim.dfy` (`SubmenuAim`) and `submenu_aim_controller.dfy`
  (`SubmenuAimController.Controller`): the same two layers for `index.js`.

Conventions:

- Items are values of an opaque type parameter compared by equality.
- The `setTimeout` handle is `pending`, the item a scheduled re-check is
  for. `FireTimer` is the timeout running out.
- The active class on items is the set `marked`.
- The callbacks of `src/index.js` are an event log.
- Coordinates are exact `real`s. The infinities and the NaN of a division
  by zero are kept, with JavaScript's comparison outcomes.

Behaviour of the code that a reader of the usual menu-aim description may not expect (the model follows the code):

- In `src/index.js`, entering the already active item still runs the
  trajectory test. The test can schedule a re-check for that same item; only
  activation itself is a no-op. In `index.js`, a "change" verdict
  deactivates and re-activates the item even when it is the active one.
- In `index.js`, samples start as empty objects. With an item active, a
  missing sample makes every comparison false, so the switch is deferred
  rather than taken (`MissingSampleDefers`).
- `index.js` has no stale-sample bypass. A re-check with no mouse move in
  between defers again, to the same state (`RecheckWithoutMoveDefersAgain`).
- The region `index.js` deactivates outside of is not the union of the menu
  and the submenu. It is the box from the menu's low corner to the
  submenu's far corner (`EffectiveBoxCovers`, `EffectiveBoxMissesRaisedSubmenu`).
- The returned unhook functions do not cancel a pending timeout, and
  nothing rejects calls after unhooking. No teardown guarantee is claimed.

## Model

| member | source | states |
|---|---|---|
| `Geometry.Gradient` | src/index.js:13-15 | the slope is finite exactly off a vertical line, and then times the run gives the rise; a vertical line gives +Infinity or -Infinity by the sign of the rise; NaN exactly when the points coincide |
| `Geometry.LessIsStrictOrder` | src/index.js:178-179 | JavaScript `<` on gradients is irreflexive, asymmetric and transitive, NaN compares false both ways, and any two non-NaN values are comparable |
| `Geometry.ConvergingMovesTowardEdge` | src/index.js:170-185 | with both corners on one vertical edge and both samples left of it, a decreasing gradient to one corner and an increasing one to the other imply distinct corners and a horizontal move, rightward exactly when the first corner is the upper one |
| `Geometry.ConvergingMovesTowardLeftEdge` | src/index.js:170-185 | the mirror image: with both samples right of the edge, the move is leftward exactly when the second corner is the upper one |
| `Geometry.NotDivergingMovesTowardEdge` | index.js:59-67 | with an upper and a lower corner on one vertical edge and both samples left of it, if neither gradient moved the wrong way, the cursor did not move left |
| `MenuBounds.MenuRectangleSpan` | src/index.js:44-59 | for a non-negative size the rectangle is well formed, a point is inside exactly when left <= x <= left+width and top-100 <= y <= top+height+100, and the element's own box lies inside |
| `MenuBounds.ReferenceCornersFaceSubmenu` | src/index.js:61-84 | the chosen corners are corners of the rectangle on the submenu's side (top edge for "top", bottom edge for "bottom", left edge for "left", right edge for anything else), in the order the table gives |
| `MenuAim.InitialInv` | src/index.js:34-39 | the initial state (nothing active, pending or recorded) satisfies the invariant |
| `MenuAim.SaveMouseCoordinatesKeepsInv` | src/index.js:87-93 | recording a sample keeps the invariant |
| `MenuAim.PossiblyActivateKeepsInv` | src/index.js:128-136 | entering an item keeps the invariant: one marked item, a re-check only while an item is active, and a consistent callback trace |
| `MenuAim.FireTimerKeepsInv` | src/index.js:133-135 | the re-check firing keeps the invariant |
| `MenuAim.MouseLeaveKeepsInv` | src/index.js:194-202 | leaving the menu keeps the invariant |
| `MenuAim.ClickKeepsInv` | src/index.js:204-208 | a click keeps the invariant |
| `MenuAim.AtMostOneActive` | src/index.js:102-123 | single-active invariant: at most one item carries the active class, and an item carries it exactly when it is the active item |
| `MenuAim.TraceBalance` | src/index.js:102-123 | over any valid callback trace, activate callbacks outnumber deactivate callbacks by one while an item is active, and equal them otherwise |
| `MenuAim.SaveMouseCoordinatesShifts` | src/index.js:87-93 | the previous sample becomes the old current one, the current sample becomes the new point, and nothing else changes |
| `MenuAim.ActivateEffect` | src/index.js:112-123 | activating the active item changes nothing and fires no callback; otherwise the old item (if any) gets one deactivate callback, then the new item one activate callback, and the new item is the only active one |
| `MenuAim.ShouldChangeFastPaths` | src/index.js:140-168 | with no active item, a missing sample, the previous sample outside the menu rectangle, or the current sample equal to the last checked one, the verdict is "change" and no state is written |
| `MenuAim.ShouldChangeOnTrajectory` | src/index.js:170-191 | otherwise the verdict is "wait" exactly when the trajectory converges; waiting sets the last checked sample to the current one, and changing clears it |
| `MenuAim.PossiblyActivateOutcome` | src/index.js:128-136 | after entering an item, either it is active and nothing is pending, or the active item, the marks and the log are unchanged and exactly one re-check, for this item, is pending |
| `MenuAim.IdleFastPath` | src/index.js:142-145 | with nothing active, entering an item activates it at once with one activate callback |
| `MenuAim.OutsideFastPath` | src/index.js:153-160 | with the previous sample outside the menu rectangle, entering an item activates it at once even while another item is active |
| `MenuAim.StaleSampleBypass` | src/index.js:162-168 | when entering an item was deferred and the re-check fires with no new sample, the re-check activates the item and nothing stays pending |
| `MenuAim.TimerCancellation` | src/index.js:128-129 | entering a second item drops the re-check that entering the first one scheduled |
| `MenuAim.ClickActivates` | src/index.js:204-208 | a click cancels the re-check and makes the clicked item the only active one, whatever the trajectory |
| `MenuAim.MouseLeaveEffect` | src/index.js:194-202 | on a "change" verdict, leaving the menu cancels the re-check, logs a leave with the item active at that moment (possibly none), then deactivates it; otherwise only the last checked sample changes |
| `MenuAim.DeferredMeansMovingRight` | src/index.js:170-185 | with the default right-hand submenu, a deferred activation implies the cursor moved right, wherever the current sample lies, including on or past the right edge when a re-check fires |
| `MenuAim.DeferredMeansMovingLeft` | src/index.js:76-79 | with a left-hand submenu and the previous sample right of the menu's left edge, a deferred activation implies the cursor moved left, wherever the current sample lies |
| `MenuAim.LeftEdgeSampleDefers` | src/index.js:174-184 | with a left-hand submenu and the previous sample exactly on the menu's left edge, strictly between the padded corners, any move into the menu defers, because the gradients from the edge are infinite |
| `MenuAim.ConvergingExample` | src/index.js:178-184 | with corners (100,0) and (100,50), a move from (0,25) to (10,24) defers entering another item |
| `MenuAim.DivergingExample` | src/index.js:187-191 | with the same corners, a move from (0,25) to (0,26) switches at once, with a deactivate and then an activate callback |
| `MenuAimController.Controller.constructor` | src/index.js:30-84 | the rectangle and the corners are computed once from the offset, the size and the direction; nothing is active or recorded |
| `MenuAimController.Controller.SaveMouseCoordinates` | src/index.js:87-93 | the fields become `MenuAim.SaveMouseCoordinates` of the old state, and the invariant holds |
| `MenuAimController.Controller.CancelPendingMenuItemActivations` | src/index.js:96-100 | the pending re-check is dropped and nothing else changes |
| `MenuAimController.Controller.DeactivateActiveMenuItem` | src/index.js:102-109 | the fields become `MenuAim.Deactivate` of the old state |
| `MenuAimController.Controller.ActivateMenuItem` | src/index.js:112-123 | the fields become `MenuAim.Activate` of the old state |
| `MenuAimController.Controller.ShouldChangeActiveMenuItem` | src/index.js:140-192 | the verdict and the new state are those of `MenuAim.ShouldChange` |
| `MenuAimController.Controller.PossiblyActivateMenuItem` | src/index.js:128-136 | the fields become `MenuAim.PossiblyActivate` of the old state, and the invariant holds |
| `MenuAimController.Controller.FireTimer` | src/index.js:133-135 | the fields become `MenuAim.FireTimer` of the old state, and the invariant holds |
| `MenuAimController.Controller.OnMouseLeave` | src/index.js:194-202 | the fields become `MenuAim.OnMouseLeave` of the old state, and the invariant holds |
| `MenuAimController.Controller.OnMenuItemClick` | src/index.js:204-208 | the fields become `MenuAim.OnMenuItemClick` of the old state, and the invariant holds |
| `SubmenuAim.Extremes` | index.js:2-12 | the extreme coordinates span exactly the element's width and height, and are ordered when the size is non-negative |
| `SubmenuAim.InitialInv` | index.js:41-51 | the initial state (empty samples, nothing active or pending, no delaying class) satisfies the invariant |
| `SubmenuAim.PossiblyActivateKeepsInv` | index.js:130-141 | entering an item keeps the invariant: one marked item, the corners of its submenu, and the delaying class exactly while a re-check is pending, which happens only while an item is active |
| `SubmenuAim.FireTimerKeepsInv` | index.js:138-140 | the re-check firing keeps the invariant |
| `SubmenuAim.MouseMoveKeepsInv` | index.js:143-153 | a mouse move keeps the invariant |
| `SubmenuAim.DelayingOnlyWhileActive` | index.js:101-108 | the delaying class is on the menu only while an item is active, and at most one item carries the active class |
| `SubmenuAim.ShouldChangeFinite` | index.js:59-67 | with defined samples and finite gradients, the verdict is "change" exactly when the gradient to the increasing corner grew or the one to the decreasing corner shrank |
| `SubmenuAim.MissingSampleDefers` | index.js:50-51 | with an item active and a sample still undefined, the verdict is not "change", and entering another item leaves a re-check pending |
| `SubmenuAim.StillMouseDefers` | index.js:59-67 | with an item active and equal samples, the verdict is not "change" |
| `SubmenuAim.ActivateSetsCorners` | index.js:111-124 | the item becomes active and marked; the increasing corner is the submenu's origin, and the decreasing corner lies on the same left edge, lower by the submenu's height |
| `SubmenuAim.DeactivateEffect` | index.js:101-109 | with nothing active, deactivation changes nothing; otherwise it clears the item and both corners, removes the delaying class and the active mark, and changes nothing else |
| `SubmenuAim.EffectiveBoxCovers` | index.js:69-84 | with nothing active, the effective box is the menu's; otherwise it runs from the menu's low corner to the submenu's far corner, and it covers both boxes when the submenu lies right of and below the menu's low corner and reaches past the menu |
| `SubmenuAim.EffectiveBoxMissesRaisedSubmenu` | index.js:69-84 | a submenu reaching above the menu's top has its top-left corner outside the effective box |
| `SubmenuAim.MouseMoveEffect` | index.js:143-153 | a move shifts the samples; with an item active and the new point outside the effective box, the re-check is cancelled and nothing stays active or delaying; otherwise nothing else changes |
| `SubmenuAim.PossiblyActivateOutcome` | index.js:130-141 | on a "change" verdict, the item becomes the only active one with nothing pending, even if it was already active; otherwise the active item stays, the menu is delaying, and exactly one re-check, for this item, is pending |
| `SubmenuAim.RecheckWithoutMoveDefersAgain` | index.js:138-140 | a deferred re-check that fires with no mouse move in between returns the very same state |
| `SubmenuAim.DeferredMeansNotMovingAway` | index.js:116-123 | with a submenu of positive height and the previous sample left of it, a deferred activation implies the cursor did not move left, wherever the current sample lies |
| `SubmenuAimController.Controller.constructor` | index.js:41-51 | both samples are undefined; nothing is active, pending or delaying |
| `SubmenuAimController.Controller.CancelPendingMenuItemActivations` | index.js:53-57 | the pending re-check is dropped and nothing else changes |
| `SubmenuAimController.Controller.ShouldChangeActiveMenuItem` | index.js:59-67 | the result is `SubmenuAim.ShouldChange` of the fields, and nothing is modified |
| `SubmenuAimController.Controller.CalculateMenuElementExtremeCoordinates` | index.js:69-84 | the result is `SubmenuAim.EffectiveBox` of the fields, and nothing is modified |
| `SubmenuAimController.Controller.PossiblyDeactivateActiveMenuItem` | index.js:86-99 | the fields become `SubmenuAim.PossiblyDeactivate` of the old state |
| `SubmenuAimController.Controller.DeactivateActiveMenuItem` | index.js:101-109 | the fields become `SubmenuAim.Deactivate` of the old state |
| `SubmenuAimController.Controller.ActivateMenuItem` | index.js:111-124 | the fields become `SubmenuAim.Activate` of the old state |
| `SubmenuAimController.Controller.PossiblyActivateMenuItem` | index.js:130-141 | the fields become `SubmenuAim.PossiblyActivate` of the old state, and the invariant holds |
| `SubmenuAimController.Controller.FireTimer` | index.js:138-140 | the fields become `SubmenuAim.FireTimer` of the old state, and the invariant holds |
| `SubmenuAimController.Controller.OnWindowMouseMove` | index.js:143-153 | the fields become `SubmenuAim.OnWindowMouseMove` of the old state, and the invariant holds |

## Left out

- Reading element geometry (`getBoundingClientRect`, scroll offsets,
  `offsetWidth`/`offsetHeight`): offsets and sizes are inputs. Both files
  add the horizontal scroll offset to the vertical coordinate and the
  vertical one to the horizontal; that is a page-reading concern and is not
  reproduced.
- `index.js` reads the active submenu's offset, and fixes the two corners,
  once, at activation (`index.js:115-123`). Only the menu box
  (`index.js:70`) and the submenu's `offsetWidth`/`offsetHeight`
  (`index.js:77,81`) are re-read at each use, so the source combines an
  offset cached at activation with a size read later. The model takes a
  fixed layout: a menu element, and one submenu per item (`submenuOf`). It
  cannot show a submenu that moves or resizes while it is active. An item without a submenu, on which `querySelector`
  returns null and the source throws, is not modelled.
- Binding and unbinding event listeners, and the returned unhook
  functions. They touch no controller state. `onMenuItemMouseEnter` only
  forwards to `possiblyActivateMenuItem`, which is modelled.
- Option defaulting and class-name strings. `mouseEnterCallback` is
  declared in `src/index.js` but never invoked. The `menuDirection` option
  of `index.js` is read but never used.
- Timer delays and real time. The timeout is a cancellable single slot
  with no clock.
- IEEE-754 rounding and overflow. Arithmetic is exact; only the
  infinities and the NaN of division by zero are kept.
- `index.js` updates the fields of the two sample objects in place. No
  other code holds those objects, so the model replaces the values.
- `MenuAim.DeferredMeansMovingRight`: proved only for the right-hand
  default, and `MenuAim.DeferredMeansMovingLeft` only for "left". The "top"
  and "bottom" directions are not covered by a trajectory theorem.
- The build tooling under `gulp/` (a bundler, a linter, a static server).
