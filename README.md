# Armory interaction helpers, modelled in Dafny

Armory is a helper protocol for UIKit unit tests. It simulates user
interactions on live view controllers: tapping controls and bar-button items,
typing, selecting segments and tabs, sliding, stepping, toggling, tapping
alert buttons, fetching cells and running table-row edit actions. This
project models two parts of its default implementation and proves what each
promises.

- **The element locator** (`Locator`, used by `Controls`, `Tabs`, `Alerts` and
  `Tables`). Segments, tab-bar items and row edit actions are looked up by
  title or image, and the lookup must find **exactly one** element. No match
  gives `titleLookupFailed` or `imageLookupFailed`, and two or more matches
  give `multipleMatchesFound`. The offset of the unique match goes to the
  index-based selector, which throws `indexOutOfBounds` outside `[0, count)`.
  Row edit actions also throw `cellNotEditable` when the delegate answers nil
  for the row; an empty list of actions gives `titleLookupFailed`. Alert buttons are the exception: they take the **first**
  action with the title (`FirstTitled`), and `FirstTitledVersusLocate` proves
  exactly where the two policies agree and where they differ.
- **Control state transitions** (`Controls.Control`, `BarButtonItem`,
  `TextField`, `Tabs.TabBar`, `Tabs.TabBarController`,
  `Alerts.AlertController`, `Tables.TableView`). Each class keeps the fields
  the helpers update, plus a log of what the helpers caused: control events
  sent, selectors performed, handlers run. Each method's postcondition gives
  the whole new state and the result, branch by branch and in the source's
  guard order. For example, `selectSegment(atIndex:)` checks "not tappable or
  already selected" before bounds, and `slide` checks tappable, then the
  range, then "value unchanged".

The protocol exists in two revisions. `Revision.Current` is
`Armory/Armory.swift`. `Revision.Earlier` is the copy in
`Armory/VCTest.swift`; its helpers (lines 321-629) are the same apart from
three differences, each modelled by the revision parameter:
- its bar-button tap has no enabled check (`TapPerforms`,
  `BarButtonRevisionsDiffer`);
- its `slide` clamps a position it has already range-checked, so the clamp is
  dead code (`NormalizedPosition`, `EarlierClampIsDead`);
- its error enum has six cases, without `cellNotEditable` (`ErrorCases`,
  `ErrorCaseCounts`). The earlier revision has no `selectCellAction`.

`HitTest.IsSkippedDuringHitTest` models the `isSkippedDuringHitTest` view
extension.

Eight methods without contracts illustrate the contracts above from a
client's side, using nothing but those contracts:
- `SlideExample` mirrors SliderTests.swift:52-58 and 91-100: a slider over
  [-5, 5] slid to 0.5 reads 0, and a slide to 0 reads the minimum.
- `StepperExample` mirrors StepperTests.swift:58-67: an increment near the
  maximum stops at the maximum.
- `TabSelectionExample` mirrors TabBarControllerTests.swift:31-34, 95 and
  103: tabs titled "Red" and "Blue", looked up by title, by image and by a
  missing title.
- `SegmentIndexExample`, `SegmentTitleExample`, `AmbiguousTabExample`,
  `DuplicateTitleExample` and `EditActionExample` use scenarios of their own:
  duplicated segment titles, two tabs titled "Red", two alert actions titled
  "OK", and a row offering "Delete" and "Share" next to a row with no
  actions.

SliderTests.swift:79-89 expect a position outside [0, 1] to be clamped.
Armory/Armory.swift:514-516 throws `invalidValue` for such a position
instead, and the model follows the code.

## Model

| member | source | states |
|---|---|---|
| `ArmoryErrors.ErrorCases` | Armory/Armory.swift:15-24 | `cellNotEditable` is a case of the current enum and not of the earlier one |
| `ArmoryErrors.ErrorCaseCounts` | Armory/VCTest.swift:15-23 | the earlier enum has exactly six cases and the current one exactly seven, the extra one being `cellNotEditable`; a case belongs to a revision's enum iff the revision is current or the case is not `cellNotEditable` |
| `HitTest.IsSkippedDuringHitTest` | Armory/Extensions/UIView+HitTest.swift:13-17 | a hidden view, a view with user interaction disabled and a view with alpha at most 0.01 are each skipped; a view is not skipped iff it is visible, interactive and has alpha above 0.01 |
| `Locator.Matches` | Armory/Armory.swift:478 | the filter predicate of every lookup (also lines 494, 573, 589, 615, 631 and 709): a title matches only an element whose title is present, an image only an element whose image is present |
| `Locator.TitledItems` | Armory/Armory.swift:426 | alert actions and row edit actions are searched title for title, one element per action, in order |
| `Locator.LookupFailure` | Armory/Armory.swift:477-498 | a missing title gives `titleLookupFailed`, a missing image gives `imageLookupFailed`, and neither is `multipleMatchesFound` or `indexOutOfBounds` |
| `Locator.Offsets` | Armory/Armory.swift:615 | the filtered offsets include every element that bears the key and nothing else, each in range, in strictly increasing order |
| `Locator.NoOffsets` | Armory/Armory.swift:478-482 | the filter keeps no offset iff no segment bears the key, the case that throws the lookup failure |
| `Locator.SeveralOffsets` | Armory/Armory.swift:484-486 | the filter keeps two or more offsets iff two distinct elements bear the key, the case that throws `multipleMatchesFound` |
| `Locator.SingleOffset` | Armory/Armory.swift:488 | when the filter keeps one offset, every element bearing the key is at that offset |
| `Locator.Locate` | Armory/Armory.swift:614-625 | no element bears the key iff the key's lookup failure; two distinct elements bear it iff `multipleMatchesFound`; otherwise the offset of the one element bearing it, and no other element bears it (never first-wins) |
| `Locator.CheckIndex` | Armory/Armory.swift:468-470 | an index is accepted, unchanged, iff it lies in [0, count); otherwise `indexOutOfBounds` |
| `Locator.FirstTitled` | Armory/Armory.swift:426-428 | the lowest offset whose title is present and equal; `titleLookupFailed` iff no element has the title |
| `Locator.FirstTitledVersusLocate` | Armory/Armory.swift:425-441 | first-match and unique-match lookup by title agree when the title is unique, and both fail when it is absent; on a duplicated title the unique lookup is ambiguous while first-match picks an element with a later duplicate |
| `Controls.NormalizedPosition` | Armory/VCTest.swift:475 | the current revision scales the position as given; the earlier one's `cleanValue` always lies in [0, 1], sending positions above 1 to 1 and below 0 to 0 |
| `Controls.EarlierClampIsDead` | Armory/VCTest.swift:466-486 | for every position that passes the range check, the earlier revision's clamped position equals the position, so both revisions compute the same slide target |
| `Controls.SlideTarget` | Armory/Armory.swift:518-519 | the target is min + v*(max - min) in both revisions, exactly min at 0 and exactly max at 1, and within [min, max] |
| `Controls.Clamp` | ArmoryTests/StepperTests.swift:58-80 | the stepper's value setter keeps a value already in [min, max] and sends a value above max to max, below min to min |
| `Controls.Control.Tappable` | Armory/Armory.swift:688-692 | a disabled control is never tappable, nor one the superview's hit test misses; an enabled control the hit test finds is tappable |
| `Controls.Control.Tap` | Armory/Armory.swift:391-398 | one touch-up-inside event iff the control is enabled and hit-testable; otherwise no event |
| `Controls.Control.SelectSegmentAt` | Armory/Armory.swift:463-475 | not tappable or already selected: no error, no change, no event, even out of range; otherwise out of range: `indexOutOfBounds`, no change; otherwise that segment is selected and exactly one value-changed is sent |
| `Controls.Control.SelectSegmentMatching` | Armory/Armory.swift:477-507 | a title or image lookup failure is thrown with nothing changed; a unique match never gives `indexOutOfBounds` and selects that segment as the index-based selector does, with its silent returns |
| `Controls.Control.Slide` | Armory/Armory.swift:509-528 | not tappable: no error, no change; position outside [0, 1]: `invalidValue`, no change; otherwise the value becomes min + v*(max - min), with one value-changed iff it differed; the range invariant is kept |
| `Controls.Control.Increment` | Armory/Armory.swift:530-538 | not tappable or at max: no change and no event; otherwise the value rises by the step (stopping at max) and exactly one value-changed is sent |
| `Controls.Control.Decrement` | Armory/Armory.swift:540-548 | not tappable or at min: no change and no event; otherwise the value falls by the step (stopping at min) and exactly one value-changed is sent |
| `Controls.Control.Toggle` | Armory/Armory.swift:550-558 | tappable: `isOn` flips and exactly one value-changed is sent; otherwise nothing changes |
| `Controls.ToggleTwice` | Armory/Armory.swift:550-558 | toggling twice restores `isOn`, with two value-changed events when tappable and none otherwise |
| `Controls.TapPerforms` | Armory/Armory.swift:400-408 | a bar-button action is never performed without a target and an action, always with both on an enabled item, and on a disabled item only in the earlier revision |
| `Controls.BarButtonRevisionsDiffer` | Armory/VCTest.swift:361-369 | the revisions disagree on a bar-button tap exactly when the item has a target and an action but is disabled, and whatever the current revision performs the earlier performs too |
| `Controls.BarButtonItem.Tap` | Armory/Armory.swift:400-412 | the action is performed once on the target when the revision's guard lets it through, and nothing happens otherwise |
| `Controls.TextField.Type` | Armory/Armory.swift:414-423 | the field becomes first responder and ends with the typed text appended, one character at a time |
| `Tabs.TabBar.SelectTabAt` | Armory/Armory.swift:604-612 | a nil item list or an index outside [0, count) gives `indexOutOfBounds` with the selection unchanged; otherwise the item at that index is selected |
| `Tabs.TabBar.SelectTabMatching` | Armory/Armory.swift:614-644 | a title or image on no item or on several items gives that lookup error with the selection unchanged; on exactly one item, that item is selected |
| `Tabs.TabBarController.SelectTabAt` | Armory/Armory.swift:560-570 | a nil item list or an index outside [0, count) gives `indexOutOfBounds` with the selection unchanged; otherwise the index is selected and the view controller at that index is returned |
| `Tabs.TabBarController.SelectTabMatching` | Armory/Armory.swift:572-602 | the lookup error, with the selection unchanged, unless exactly one tab bears the key; then that tab is selected and its view controller returned |
| `Alerts.AlertController.TapButton` | Armory/Armory.swift:425-441 | `titleLookupFailed` iff no action has the title; otherwise the first action with the title is taken, and if it is disabled nothing happens, else its handler runs once and the alert is dismissed |
| `Tables.CellAt` | Armory/Armory.swift:443-451 | `invalidCellType` when the view shows no cell at the path or the cell is not of the requested class; otherwise that very cell (table views use the same rule, lines 646-654) |
| `Tables.EditAction` | Armory/Armory.swift:703-720 | a nil action list iff `cellNotEditable`; no action with the title iff `titleLookupFailed`; two iff `multipleMatchesFound`; otherwise the offset of the only action with the title |
| `Tables.TableView.EditActionsAt` | Armory/Armory.swift:705 | the delegate answers nil exactly for a row it has no edit actions for, and otherwise that row's actions |
| `Tables.TableView.SelectCellAction` | Armory/Armory.swift:656-671 | the lookup's error with no handler run unless exactly one edit action has the title; then that action's handler runs once, with the index path |

## Left out

- `after`, `pump`, `waitForPresentedViewController` and `waitForDismissedViewController` (Armory/Armory.swift:362-389) are left out. They wait on the run loop through a run-loop observer, a test expectation and a 4-second timeout. `pump` has no effect the model can see, so every helper's trailing `pump()` is dropped.
- `harness` and `build` are left out: they create a `UIWindow`.
- `selectDate`, `selectItem` and `selectRow` are left out: each is a single call forwarded into UIKit.
- `Robot.swift` is not part of this model: it only forwards to the test case.
- Handler retrieval reads the private `handler` key and casts it with `unsafeBitCast`. The model names the handler opaquely and records each run in a log. What the handler does, and the crash on a missing handler, are not modelled.
- `Control.Tappable`: the hit test of the control's superview at its centre is a boolean field (`hitTestable`). View geometry and the superview's own visibility are not modelled.
- `Controls.Control.Increment`, `Controls.Control.Decrement`: the clamp is the UIStepper value setter that the stepper tests rely on. It is a modelling assumption, as is the object invariant (`stepValue > 0`, value within [min, max]).
- `Controls.Control.Slide`: slider arithmetic uses reals, so Float rounding is not modelled.
- `Controls.Control.Increment`, `Controls.Control.Decrement`: stepper values are exact reals, not Double. They promise that a step changes the value, whereas `value += stepValue` on a large Double can round back to the same value.
- `HitTest.IsSkippedDuringHitTest`: alpha is an exact real, not a CGFloat, so the comparison with 0.01 is exact.
- `Locator.Matches`: titles are compared code point by code point. Swift's `String ==` compares by Unicode canonical equivalence, so a title written as "é" (U+00E9) matches "e" followed by U+0301 in Swift but not in the model. The same holds for `Locator.Locate`, `Locator.FirstTitled`, `Tables.EditAction` and `Alerts.AlertController.TapButton`, and for two canonically equal titles counted as a duplicate.
- A force unwrap of `tabBar.items` crashes in the title and image tab lookups. The model turns it into a `requires items.Some?`. The table view's delegate is assumed present and to implement `editActionsForRowAt`, which the source force-unwraps (Armory/Armory.swift:705) and which would otherwise crash. The delegate's answers are a map from index path to actions, a missing row answering nil.
- `Tabs.TabBarController.SelectTabAt`, `Tabs.TabBarController.SelectTabMatching`: they return the selected view controller without modelling the forced `as! A` cast. Both require `Valid()`, which assumes one tab-bar item per view controller, so the "More" tab shown for more than five is not modelled.
- `Tables.CellAt` models the `as? A` cast as membership of the requested class in the cell's set of classes.
- `Controls.TextField.Type` assumes that `becomeFirstResponder` succeeds and that the insertion point is at the end of the text. Text is iterated per `char`, not per grapheme cluster.
- Events sent to a control are kept as a log. What the targets' action methods do is not modelled.
- Alert dismissal is a flag. The animation and its completion are not modelled.
- The test view controllers and other fixtures under ArmoryTests are not modelled, and neither is the network call in ArmoryTests.swift.
