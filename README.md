# KZSwipeTableViewCell gesture logic in Dafny

This project models the gesture-interpretation core of `KZSwipeTableViewCell`. It is a
`UITableViewCell` subclass (a Swift port of MCSwipeTableViewCell). A row can be dragged
horizontally to reveal one of four action states. Each state has a slot holding an icon
view, a background colour, a mode (`.None`, `.Exit`, `.Switch`) and a completion block.
When the drag is released, the row either leaves the screen (Exit) or springs back to
rest (Switch, or nothing reached). The animation's completion then calls the completion
block of the state that was reached.

Without UIKit, the cell is a small event-driven state machine. Its state is a few
numbers, the exit latch `_isExited`, the direction, an installed-overlay flag and the
four-slot table.

- `types.dfy`, module `SwipeTypes`: the enumerations, a slot, and the four-slot table
  (`Slots`) with lookup and single-slot update. Views, colours and completion blocks are
  opaque handles (`nat`).
- `percentage.dfy`, module `PercentageMath`: conversions between offset and percentage,
  the duration derived from velocity, and the direction derived from a percentage.
  `CGFloat` and `NSTimeInterval` are `real`.
- `resolver.dfy`, module `StateResolver`: `canTravelTo`, `stateWithPercentage`,
  `colorWithPercentage`, `viewWithPercentage` and `alphaWithPercentage`. Each is the same
  last-write-wins sequence of threshold tests as in the cell. The module also has the
  release branch's mode lookup exactly as written, and lemmas that relate these functions
  to clear reference tables.
- `machine.dfy`, module `SwipeMachine`: all of the cell's fields as one value
  (`CellState`), with a transition function for each event.
  - The events are configuration, reuse, a pan event, the end of an animation, and the
    completion block.
  - UIKit applies the property changes of an animation block at once and runs the
    completion closure later. The model does the same: the change happens immediately,
    the animation is added to `pending`, and a later `AnimationFinished(i)` event removes
    it and runs its completion.
  - Calls of completion blocks are recorded in `fired`.
- `properties.dfy`, module `SwipeProperties`: lemmas that relate several events. They
  cover the travel check while dragging, the exit/revert decision, the exit latch, the
  one completion per release, reuse, and the two worked examples (Switch at 20 %, Exit
  at 90 %).
- `cell.dfy`, module `SwipeCell`: the class `Cell`, with the fields the source updates
  in place. Each method's `ensures` ties the new state to the matching `SwipeMachine`
  function. The completion log is a ghost field.

Behaviour the model keeps as the code has it:

- `animationDurationWithVelocity` (`KZSwipeTableViewCell.swift:432-444`) uses the
  constants `0.1` and `0.25`, which read like a duration range of [0.1, 0.35]. The
  formula `(0.1 + 0.25) - (vx / w) · (0.1 - 0.25)` works out to
  `0.35 + 0.15 · clamp(vx, -w, w) / w`. So the result lies in [0.2, 0.5], and a
  rightward fling gives the *longer* duration.
- `percentageWithOffset` (:421-422) and `animationDurationWithVelocity` (:443) divide by
  the bounds' width without a guard. All percentage functions therefore require
  `width > 0`.
- `canTravelTo` is applied to the percentage of the position *before* the translation
  is added (:206-218). From rest, a drag always moves, even into a side whose two slots
  are inactive. After that the screenshot is stuck (`TravelCheckIgnoresTarget`,
  `StuckOnBlockedSide`).
- In the release branch, the mode lookup tests `state == .State2` twice. So slot 3's
  mode is never read, and a release in State3 always reverts (`ModeAtRelease`,
  `State3AlwaysReverts`). This is modelled as written.
- The completion state is recomputed from `currentPercentage`, using the slots as they
  are when the animation ends. Suppose the exit path is taken with no overlay installed.
  Then the latch is set but no animation is scheduled, so no completion runs
  (`ExitWithoutOverlaySchedulesNothing`). With both triggers positive this cannot
  happen (`ReleaseWithoutOverlayReverts`). It can happen with a non-positive trigger,
  for instance a second trigger below 0 with slot 2 in Exit mode and `_direction` left
  at Right by an earlier gesture.
- The colour and state tests differ in strictness at the second trigger (`>` vs `>=`)
  and at minus the first trigger (`<` vs `<=`). Exactly at the second trigger, the state
  is already State2 while the colour is still slot 1's (`ColorLagsStateAtSecondTrigger`).

## Model

| member | source | states |
|---|---|---|
| SwipeTypes.Slots.Lookup | KZSwipeTableViewCell/KZSwipeTableViewCell.swift:548-568 | `.None` owns no slot and reads as an empty slot (no mode, no block) |
| SwipeTypes.Slots.With | KZSwipeTableViewCell/KZSwipeTableViewCell.swift:166-194 | writing the slot of a state rewrites that slot only; `.None` changes nothing |
| PercentageMath.OffsetWithPercentage | KZSwipeTableViewCell/KZSwipeTableViewCell.swift:410-419 | result lies in [-width, width]; equals percentage·width for percentages in [-1, 1], and ±width beyond |
| PercentageMath.PercentageWithOffset | KZSwipeTableViewCell/KZSwipeTableViewCell.swift:421-430 | result lies in [-1, 1]; times width it gives back the offset inside [-width, width], and ±1 beyond |
| PercentageMath.AnimationDurationWithVelocity | KZSwipeTableViewCell/KZSwipeTableViewCell.swift:432-444 | result lies in [0.2, 0.5]; (d - 0.35)·width = 0.15·vx inside [-width, width]; 0.5 and 0.2 at and beyond the bounds |
| PercentageMath.DirectionWithPercentage | KZSwipeTableViewCell/KZSwipeTableViewCell.swift:446-454 | Left iff negative, Right iff positive, Center iff zero |
| PercentageMath.ScaleBeyondOne | KZSwipeTableViewCell/KZSwipeTableViewCell.swift:410-419 | scaling by a positive width keeps a percentage on the same side of 1 and of -1, which decides the clamp of `offsetWithPercentage` |
| PercentageMath.PercentageAtWidth | KZSwipeTableViewCell/KZSwipeTableViewCell.swift:421-430 | the edges ±width are at percentages ±1 and the rest position at 0 |
| PercentageMath.PercentageOffsetRoundTrip | KZSwipeTableViewCell/KZSwipeTableViewCell.swift:410-430 | percentage → offset → percentage is the identity on [-1, 1] |
| PercentageMath.OffsetPercentageRoundTrip | KZSwipeTableViewCell/KZSwipeTableViewCell.swift:410-430 | offset → percentage → offset is the identity on [-width, width] |
| PercentageMath.PercentageMonotone | KZSwipeTableViewCell/KZSwipeTableViewCell.swift:421-430 | the percentage does not decrease as the offset grows |
| PercentageMath.DirectionOfOffset | KZSwipeTableViewCell/KZSwipeTableViewCell.swift:421-454 | the direction of the clamped percentage is the sign of the offset |
| PercentageMath.DurationAtRest | KZSwipeTableViewCell/KZSwipeTableViewCell.swift:432-444 | zero velocity gives 0.35 s |
| PercentageMath.DurationMonotone | KZSwipeTableViewCell/KZSwipeTableViewCell.swift:432-444 | the duration does not decrease as the velocity grows |
| StateResolver.CanTravelTo | KZSwipeTableViewCell/KZSwipeTableViewCell.swift:392-406 | false exactly when (p > 0 and slots 1, 2 inactive) or (p < 0 and slots 3, 4 inactive) |
| StateResolver.StateWithPercentage | KZSwipeTableViewCell/KZSwipeTableViewCell.swift:514-534 | a reached state has an active slot and its threshold holds; None iff no threshold holds; State4's threshold always wins |
| StateResolver.StateStaysOnItsSide | KZSwipeTableViewCell/KZSwipeTableViewCell.swift:514-534 | with both triggers positive: positive p never gives State3/4, negative p never State1/2, and \|p\| below both triggers gives None |
| StateResolver.RightStatePriority | KZSwipeTableViewCell/KZSwipeTableViewCell.swift:514-534 | with both triggers positive and p ≥ 0: State2 if p ≥ second and slot 2 active (whatever slot 1 is), else State1 if p > first and slot 1 active, else None |
| StateResolver.LeftStatePriority | KZSwipeTableViewCell/KZSwipeTableViewCell.swift:514-534 | with both triggers positive and p ≤ 0: State4 if p ≤ -second and slot 4 active, else State3 if p ≤ -first and slot 3 active, else None |
| StateResolver.StateMonotoneRight | KZSwipeTableViewCell/KZSwipeTableViewCell.swift:514-534 | dragging further right never moves the state back (None < State1 < State2) |
| StateResolver.StateMonotoneLeft | KZSwipeTableViewCell/KZSwipeTableViewCell.swift:514-534 | dragging further left never moves the state back (None < State3 < State4) |
| StateResolver.ModeAtRelease | KZSwipeTableViewCell/KZSwipeTableViewCell.swift:228-239 | the release lookup gives the slot's mode for State1, State2 and State4, and `.None` for State3 and None |
| StateResolver.ColorWithPercentage | KZSwipeTableViewCell/KZSwipeTableViewCell.swift:492-512 | the default colour when no colour threshold holds; otherwise the default or the colour of some triggered slot |
| StateResolver.ColorSlotWithoutColorIsTransparent | KZSwipeTableViewCell/KZSwipeTableViewCell.swift:492-512 | a triggered slot whose colour is nil leaves the colour as though that slot were inactive |
| StateResolver.ColorFollowsState | KZSwipeTableViewCell/KZSwipeTableViewCell.swift:492-534 | without startImmediately and off the two boundaries: the default colour when no state is reached, else the reached slot's colour when it has one |
| StateResolver.ColorRightPriority | KZSwipeTableViewCell/KZSwipeTableViewCell.swift:492-512 | with both triggers positive, for p ≥ 0 and any startImmediately: slot 2's colour if p > second and slot 2 is active and coloured, else slot 1's if (p > first, or startImmediately and p > 0) and slot 1 is active and coloured, else the default |
| StateResolver.ColorLeftPriority | KZSwipeTableViewCell/KZSwipeTableViewCell.swift:492-512 | with both triggers positive, for p ≤ 0 and any startImmediately: slot 4's colour if p ≤ -second and slot 4 is active and coloured, else slot 3's if (p < -first, or startImmediately and p < 0) and slot 3 is active and coloured, else the default |
| StateResolver.ColorLagsStateAtSecondTrigger | KZSwipeTableViewCell/KZSwipeTableViewCell.swift:492-534 | at p = second with slots 1 and 2 coloured, the state is State2 but the colour is slot 1's |
| StateResolver.ViewWithPercentage | KZSwipeTableViewCell/KZSwipeTableViewCell.swift:456-476 | a resolved view is the view of some triggered active slot; nil when no slot is triggered |
| StateResolver.ViewFollowsState | KZSwipeTableViewCell/KZSwipeTableViewCell.swift:456-534 | once a state is reached, the icon is that state's view; slot 1's icon already shows on [0, second) and slot 3's on (-second, 0) |
| StateResolver.AlphaWithPercentage | KZSwipeTableViewCell/KZSwipeTableViewCell.swift:478-490 | alpha lies in [0, 1]; alpha·first = \|p\| inside (-first, first); 1 at or beyond ±first |
| SwipeMachine.Initial | KZSwipeTableViewCell/KZSwipeTableViewCell.swift:35-81 | a fresh cell is valid, its triggers satisfy 0 < first ≤ second < 1, nothing is scheduled or called, and reuse leaves it as it is |
| SwipeMachine.UninstallSwipingView | KZSwipeTableViewCell/KZSwipeTableViewCell.swift:140-155 | the overlay is gone, so the cell reads as at rest (percentage 0); nothing else changes |
| SwipeMachine.PrepareForReuse | KZSwipeTableViewCell/KZSwipeTableViewCell.swift:87-112 | reuse empties all four slots, clears the latch, uninstalls the overlay and changes nothing else |
| SwipeMachine.ObservedDirection | KZSwipeTableViewCell/KZSwipeTableViewCell.swift:206-210 | with an overlay, the direction is Left iff the screenshot is left of 0 and Right iff right of 0; without one, the old `_direction` is kept |
| SwipeMachine.Drag | KZSwipeTableViewCell/KZSwipeTableViewCell.swift:214-223 | only the overlay changes and it is installed afterwards; the translation is reset iff `canTravelTo` accepts the old percentage; then the screenshot moves by exactly the translation and the overlay is recoloured, re-iconed and re-faded by `animateWithOffset` at the new position; otherwise only the setup happens |
| SwipeMachine.MoveWithDuration | KZSwipeTableViewCell/KZSwipeTableViewCell.swift:323-352 | the latch is set; with an overlay the screenshot ends fully off-screen on the side of the direction (percentage ±1, 0 for Center), the icon is faded, and one exit animation is scheduled; without one nothing else changes |
| SwipeMachine.SwipeToOriginWithCompletion | KZSwipeTableViewCell/KZSwipeTableViewCell.swift:354-376 | the screenshot is back at rest (percentage 0) with the default colour and faded icon; one spring animation with the cell's settings is scheduled; nothing else changes |
| SwipeMachine.Release | KZSwipeTableViewCell/KZSwipeTableViewCell.swift:224-248 | records the percentage and the resolved view; calls nothing; when the as-written mode is Exit and the direction is not Center it latches and schedules the exit animation (if an overlay is installed), otherwise it schedules the spring animation and leaves the latch |
| SwipeMachine.SetSwipeGestureWith | KZSwipeTableViewCell/KZSwipeTableViewCell.swift:166-194 | only the named slot becomes (view, colour, mode, block); `.None` changes nothing; no other field changes |
| SwipeMachine.SetupSwipingView | KZSwipeTableViewCell/KZSwipeTableViewCell.swift:116-138 | afterwards an overlay is installed; with one already installed nothing changes; nothing but the overlay changes |
| SwipeMachine.Percentage | KZSwipeTableViewCell/KZSwipeTableViewCell.swift:206-210 | the percentage read at the start of a pan event lies in [-1, 1]; it is 0 with no overlay, and position / width while the position is within ±width |
| SwipeMachine.AnimateWithOffset | KZSwipeTableViewCell/KZSwipeTableViewCell.swift:269-284 | keeps the position; the indicator takes the resolved colour; a resolved view becomes the icon with `alphaWithPercentage` as its alpha; with no view resolved the icon and alpha stay as they were |
| SwipeMachine.HandlePan | KZSwipeTableViewCell/KZSwipeTableViewCell.swift:198-249 | an exited cell is unchanged; settings and slots never change; no completion is called; at most one animation is appended; translation is reset only on began/changed |
| SwipeMachine.CompletionOf | KZSwipeTableViewCell/KZSwipeTableViewCell.swift:543-573 | at most one call, none iff the recomputed state's slot has no block; a call carries that state (never None), its block and its mode (never `.None`) |
| SwipeMachine.ExecuteCompletionBlock | KZSwipeTableViewCell/KZSwipeTableViewCell.swift:543-573 | appends exactly that call to the log and changes nothing else |
| SwipeMachine.AnimationFinished | KZSwipeTableViewCell/KZSwipeTableViewCell.swift:345-375 | removes the finished animation; the log grows by exactly `executeCompletionBlock`'s call; a revert leaves the cell live with the overlay uninstalled; an exit keeps the latch and overlay; direction, percentage and active view stay |
| SwipeMachine.GestureRecognizerShouldBegin | KZSwipeTableViewCell/KZSwipeTableViewCell.swift:251-265 | begins iff a pan that is mainly horizontal and not rightward with slots 1, 2 inactive; a rightward begin means the right side can be travelled |
| SwipeProperties.RunPan | KZSwipeTableViewCell/KZSwipeTableViewCell.swift:198-249 | any sequence of pan events keeps the cell valid and leaves its settings and slots unchanged |
| SwipeProperties.BlockedDragKeepsOffset | KZSwipeTableViewCell/KZSwipeTableViewCell.swift:214-223 | when `canTravelTo` refuses the current percentage, a drag leaves the overlay unchanged and the translation not reset |
| SwipeProperties.DragMovesByTranslation | KZSwipeTableViewCell/KZSwipeTableViewCell.swift:214-223 | when it accepts, the screenshot moves by exactly translation.x and the translation is reset |
| SwipeProperties.TravelCheckIgnoresTarget | KZSwipeTableViewCell/KZSwipeTableViewCell.swift:206-222 | from rest, with both right slots inactive, a rightward drag still moves to a position the check would refuse |
| SwipeProperties.SetupSwipingViewIdempotent | KZSwipeTableViewCell/KZSwipeTableViewCell.swift:116-119 | installing the overlay twice is the same as once |
| SwipeProperties.StuckOnBlockedSide | KZSwipeTableViewCell/KZSwipeTableViewCell.swift:206-222 | once on a refused position, no sequence of drags moves the screenshot again |
| SwipeProperties.DragsKeepSessionOpen | KZSwipeTableViewCell/KZSwipeTableViewCell.swift:214-223 | drags keep the cell live, install the overlay, schedule nothing and call nothing |
| SwipeProperties.ExitLatchIgnoresEvents | KZSwipeTableViewCell/KZSwipeTableViewCell.swift:198-201 | once exited, every sequence of pan events leaves the cell unchanged |
| SwipeProperties.PanEventsNeverFire | KZSwipeTableViewCell/KZSwipeTableViewCell.swift:198-249 | no sequence of pan events calls a completion block |
| SwipeProperties.ReleaseRecordsPercentage | KZSwipeTableViewCell/KZSwipeTableViewCell.swift:224-226 | a release sets `currentPercentage` to the current percentage and `_activeView` to the resolved view |
| SwipeProperties.ReleaseExitsIff | KZSwipeTableViewCell/KZSwipeTableViewCell.swift:228-247 | the exit latch is set iff the looked-up mode is Exit and the direction is not Center |
| SwipeProperties.ReleaseExitPath | KZSwipeTableViewCell/KZSwipeTableViewCell.swift:323-352 | exit sends the screenshot to ±width by the sign of its position, fades the icon and schedules the exit animation with the velocity's duration |
| SwipeProperties.ReleaseRevertPath | KZSwipeTableViewCell/KZSwipeTableViewCell.swift:354-376 | revert moves the screenshot to 0 with the default colour, fades the icon and schedules the spring animation with the cell's settings |
| SwipeProperties.ReleaseWithoutOverlayReverts | KZSwipeTableViewCell/KZSwipeTableViewCell.swift:206-247 | with both triggers positive, a release with no overlay reverts |
| SwipeProperties.ExitWithoutOverlaySchedulesNothing | KZSwipeTableViewCell/KZSwipeTableViewCell.swift:323-339 | an exit with no overlay latches and schedules no animation |
| SwipeProperties.State3AlwaysReverts | KZSwipeTableViewCell/KZSwipeTableViewCell.swift:231-239 | a release in State3 reverts whatever slot 3's mode is |
| SwipeProperties.RevertSettles | KZSwipeTableViewCell/KZSwipeTableViewCell.swift:368-375 | when the revert animation ends the cell is live, the overlay is gone, and the completion of the released state has run once (when it has one) |
| SwipeProperties.SessionRunsCompletionOnce | KZSwipeTableViewCell/KZSwipeTableViewCell.swift:198-249 | drags, a release and its animation's end schedule exactly one animation and call the released state's block exactly once (when it has one) |
| SwipeProperties.SetSwipeGestureWithCommutes | KZSwipeTableViewCell/KZSwipeTableViewCell.swift:166-194 | configuring two different states in either order gives the same cell |
| SwipeProperties.PrepareForReuseIdempotent | KZSwipeTableViewCell/KZSwipeTableViewCell.swift:87-112 | reuse applied twice equals reuse applied once |
| SwipeProperties.ReusedCellIsInert | KZSwipeTableViewCell/KZSwipeTableViewCell.swift:87-112 | after reuse: no state, the default colour, no icon, travel only from rest, no rightward begin |
| SwipeProperties.SwitchExample | KZSwipeTableViewCell/KZSwipeTableViewCell.swift:198-249 | slot 1 (green, Switch), drag to 20 %, release: reverts, then calls (State1, Switch) once |
| SwipeProperties.ExitExample | KZSwipeTableViewCell/KZSwipeTableViewCell.swift:198-249 | slot 2 (red, Exit), drag to 90 %, release: exits to +width, then calls (State2, Exit) once |
| SwipeCell.Cell.constructor | KZSwipeTableViewCell/KZSwipeTableViewCell.swift:35-81 | default settings (0.6, 0.9, 0.4 s, 0.15, 0.47), empty slots, no overlay, Center, not exited |
| SwipeCell.Cell.SetSwipeGestureWith | KZSwipeTableViewCell/KZSwipeTableViewCell.swift:166-194 | the new state is `SwipeMachine.SetSwipeGestureWith` of the old one |
| SwipeCell.Cell.PrepareForReuse | KZSwipeTableViewCell/KZSwipeTableViewCell.swift:87-112 | the new state is `SwipeMachine.PrepareForReuse` of the old one |
| SwipeCell.Cell.SetupSwipingView | KZSwipeTableViewCell/KZSwipeTableViewCell.swift:116-138 | the new state is `SwipeMachine.SetupSwipingView` of the old one |
| SwipeCell.Cell.UninstallSwipingView | KZSwipeTableViewCell/KZSwipeTableViewCell.swift:140-155 | the overlay is removed and nothing else changes |
| SwipeCell.Cell.AnimateWithOffset | KZSwipeTableViewCell/KZSwipeTableViewCell.swift:269-284 | the overlay, when installed, becomes `SwipeMachine.AnimateWithOffset` of it |
| SwipeCell.Cell.MoveWithDuration | KZSwipeTableViewCell/KZSwipeTableViewCell.swift:323-352 | the new state is `SwipeMachine.MoveWithDuration` of the old one |
| SwipeCell.Cell.SwipeToOriginWithCompletion | KZSwipeTableViewCell/KZSwipeTableViewCell.swift:354-376 | the new state is `SwipeMachine.SwipeToOriginWithCompletion` of the old one |
| SwipeCell.Cell.HandlePanGestureRecognizer | KZSwipeTableViewCell/KZSwipeTableViewCell.swift:198-249 | the new state and the translation reset are `SwipeMachine.HandlePan` of the old state and the event |
| SwipeCell.Cell.HandleDrag | KZSwipeTableViewCell/KZSwipeTableViewCell.swift:214-223 | the began/changed branch follows `SwipeMachine.Drag` |
| SwipeCell.Cell.HandleRelease | KZSwipeTableViewCell/KZSwipeTableViewCell.swift:224-248 | the ended/cancelled branch follows `SwipeMachine.Release`, with the as-written mode lookup |
| SwipeCell.Cell.ExecuteCompletionBlock | KZSwipeTableViewCell/KZSwipeTableViewCell.swift:543-573 | the new state is `SwipeMachine.ExecuteCompletionBlock` of the old one |
| SwipeCell.Cell.AnimationFinished | KZSwipeTableViewCell/KZSwipeTableViewCell.swift:345-375 | the new state is `SwipeMachine.AnimationFinished` of the old one |

## Left out

- Rendering and the view tree are out: `imageWithView` (graphics context), the subview
  juggling in `setupSwipingView`/`uninstallSwipingView`, `setViewOfSlidingView` and
  `viewWithImageName`. The overlay is one optional record, with the screenshot's x-origin,
  the indicator colour, the icon view handle and the icon alpha. Views and colours are
  opaque handles.
- `slideViewWithPercentage` (icon frame geometry and `CGRectIntegral` rounding) is out.
  It is presentation only, and no logical state depends on it.
- Animation timing and spring curves are out. An animation is recorded with its
  duration, damping and initial velocity, and it ends only on an explicit
  `AnimationFinished` event. The order in which animations end is left to the caller.
  The completion closures' `finished` flag is ignored, as the source ignores it.
- IEEE floating-point rounding is out. `CGFloat` and `NSTimeInterval` are exact `real`
  numbers.
- The cell's width is a constant given at construction. The source reads
  `self.bounds` on every call; layout changes are not modelled.
- The recognizer's cumulative translation is not modelled. Each pan event carries
  `translationInView.x`, and the handler reports whether it reset the translation
  (`setTranslation(.zero)`) instead of mutating the recognizer.
- The gesture-recognizer and delegate registration in the initializer is framework
  glue, and is out.
- `super.prepareForReuse()` is the framework's own reset, and is out.
- `init?(coder:)` is out. It unconditionally ends in `fatalError`.
- The screenshot's y-coordinate is out. It never changes.
- The example app's view controller is out. It is demo UI.
- What a completion block does is out. Each block receives the cell itself (:571) and
  may change it, but the model records only the call (block, state, mode) in `fired`.
  No effect of a block on the cell is modelled.
