/**
 * Properties of the cell's gesture logic that relate several events: the
 * travel check while dragging, the exit/revert decision at release, the exit
 * latch, the completion block run once per release, and configuration and reuse.
 */
module SwipeProperties {
  import opened SwipeTypes
  import opened PercentageMath
  import opened StateResolver
  import opened SwipeMachine

  predicate IsDrag(e: PanEvent)
  {
    e.phase == Began || e.phase == Changed
  }

  predicate IsRelease(e: PanEvent)
  {
    e.phase == Ended || e.phase == Cancelled
  }

  /** Feeds a sequence of pan events to the handler, one after the other. */
  function RunPan(s: CellState, es: seq<PanEvent>): (r: CellState)
    requires Valid(s)
    ensures Valid(r) && SameConfiguration(s, r)
    decreases |es|
  {
    if es == [] then s else RunPan(HandlePan(s, es[0]).0, es[1..])
  }

  /** The exit decision of the release branch, stated on the state before the event. */
  predicate ExitsOnRelease(s: CellState)
    requires Valid(s)
  {
    var st := StateWithPercentage(Percentage(s), s.slots, s.firstTrigger, s.secondTrigger);
    ModeAtRelease(st, s.slots) == Exit && ObservedDirection(s) != Center
  }

  // ---------------------------------------------------------------- dragging

  /** Where `canTravelTo` refuses the current position, a drag leaves the overlay as it is. */
  lemma BlockedDragKeepsOffset(s: CellState, e: PanEvent)
    requires Valid(s) && !s.isExited && s.overlay.Some? && IsDrag(e)
    requires !CanTravelTo(Percentage(s), s.slots)
    ensures HandlePan(s, e).0.overlay == s.overlay
    ensures !HandlePan(s, e).1
  {
  }

  /**
   * Where `canTravelTo` accepts the current position, a drag moves the
   * screenshot by exactly the translation and resets the translation.
   */
  lemma DragMovesByTranslation(s: CellState, e: PanEvent)
    requires Valid(s) && !s.isExited && IsDrag(e)
    requires CanTravelTo(Percentage(s), s.slots)
    ensures var r := HandlePan(s, e);
      r.1 && r.0.overlay.Some? &&
      r.0.overlay.value.x == (if s.overlay.Some? then s.overlay.value.x else 0.0) + e.translationX
  {
  }

  /**
   * The travel check looks at the position before the move: from rest, a
   * rightward drag moves the screenshot into the right side even when both
   * right-hand slots are inactive, where the check on the new position would refuse.
   */
  lemma TravelCheckIgnoresTarget(s: CellState, e: PanEvent)
    requires Valid(s) && !s.isExited && IsDrag(e) && e.translationX > 0.0
    requires s.overlay.None? || s.overlay.value.x == 0.0
    requires !Active(s.slots.s1) && !Active(s.slots.s2)
    ensures var r := HandlePan(s, e).0;
      r.overlay.Some? && r.overlay.value.x == e.translationX &&
      !CanTravelTo(PercentageWithOffset(r.overlay.value.x, r.width), r.slots)
  {
    assert Percentage(s) == 0.0;
  }

  /** The first drag installs the overlay; later drags find it installed and do not re-create it. */
  lemma SetupSwipingViewIdempotent(s: CellState)
    ensures SetupSwipingView(SetupSwipingView(s)) == SetupSwipingView(s)
  {
  }

  /**
   * Stuck on a blocked side: once the screenshot sits where `canTravelTo`
   * refuses, no sequence of drags moves it again, in either direction.
   */
  lemma {:induction false} StuckOnBlockedSide(s: CellState, es: seq<PanEvent>)
    requires Valid(s) && !s.isExited && s.overlay.Some?
    requires !CanTravelTo(Percentage(s), s.slots)
    requires forall k :: 0 <= k < |es| ==> IsDrag(es[k])
    ensures RunPan(s, es).overlay == s.overlay
    decreases |es|
  {
    if es != [] {
      var s1 := HandlePan(s, es[0]).0;
      BlockedDragKeepsOffset(s, es[0]);
      assert Percentage(s1) == Percentage(s);
      StuckOnBlockedSide(s1, es[1..]);
    }
  }

  /**
   * A run of drags from a live cell leaves it live and with the overlay
   * installed, schedules no animation and runs no completion block.
   */
  lemma {:induction false} DragsKeepSessionOpen(s: CellState, es: seq<PanEvent>)
    requires Valid(s) && !s.isExited
    requires forall k :: 0 <= k < |es| ==> IsDrag(es[k])
    ensures var r := RunPan(s, es);
      !r.isExited && r.pending == s.pending && r.fired == s.fired &&
      (es != [] || s.overlay.Some? ==> r.overlay.Some?)
    decreases |es|
  {
    if es != [] {
      var s1 := HandlePan(s, es[0]).0;
      assert !s1.isExited && s1.pending == s.pending && s1.overlay.Some?;
      DragsKeepSessionOpen(s1, es[1..]);
    }
  }

  // ------------------------------------------------------------ the exit latch

  /** Once exited, every sequence of pan events leaves the cell exactly as it is. */
  lemma {:induction false} ExitLatchIgnoresEvents(s: CellState, es: seq<PanEvent>)
    requires Valid(s) && s.isExited
    ensures RunPan(s, es) == s
    decreases |es|
  {
    if es != [] {
      assert HandlePan(s, es[0]).0 == s;
      ExitLatchIgnoresEvents(s, es[1..]);
    }
  }

  /** No pan event runs a completion block; only finished animations do. */
  lemma {:induction false} PanEventsNeverFire(s: CellState, es: seq<PanEvent>)
    requires Valid(s)
    ensures RunPan(s, es).fired == s.fired
    decreases |es|
  {
    if es != [] {
      PanEventsNeverFire(HandlePan(s, es[0]).0, es[1..]);
    }
  }

  // ----------------------------------------------------------------- release

  /** A release records the percentage of the position and the resolved view. */
  lemma ReleaseRecordsPercentage(s: CellState, e: PanEvent)
    requires Valid(s) && !s.isExited && IsRelease(e)
    ensures var r := HandlePan(s, e);
      !r.1 && r.0.currentPercentage == Percentage(s) && -1.0 <= r.0.currentPercentage <= 1.0 &&
      r.0.activeView == ViewWithPercentage(Percentage(s), s.slots, s.secondTrigger)
  {
  }

  /**
   * The exit path is taken exactly when the mode looked up at release is
   * Exit and the direction is not Center; it latches `_isExited`, and the
   * revert path does not.
   */
  lemma ReleaseExitsIff(s: CellState, e: PanEvent)
    requires Valid(s) && !s.isExited && IsRelease(e)
    ensures HandlePan(s, e).0.isExited <==> ExitsOnRelease(s)
  {
  }

  /**
   * On the exit path the screenshot is sent a full width to the side of the
   * direction and the exit animation is scheduled with the velocity's duration.
   */
  lemma ReleaseExitPath(s: CellState, e: PanEvent)
    requires Valid(s) && !s.isExited && IsRelease(e) && s.overlay.Some?
    requires ExitsOnRelease(s)
    ensures var r := HandlePan(s, e).0;
      r.isExited && r.overlay.Some? && r.overlay.value.iconAlpha == 0.0 &&
      r.overlay.value.x == (if s.overlay.value.x > 0.0 then s.width else -s.width) &&
      r.pending == s.pending + [ExitAnimation(AnimationDurationWithVelocity(e.velocityX, s.width))]
  {
    DirectionOfOffset(s.overlay.value.x, s.width);
  }

  /**
   * On the revert path the screenshot returns to 0 with the default colour
   * and the spring animation is scheduled with the cell's settings.
   */
  lemma ReleaseRevertPath(s: CellState, e: PanEvent)
    requires Valid(s) && !s.isExited && IsRelease(e)
    requires !ExitsOnRelease(s)
    ensures var r := HandlePan(s, e).0;
      !r.isExited &&
      r.pending == s.pending + [RevertAnimation(s.animationDuration, s.damping, s.velocity)] &&
      (r.overlay.Some? <==> s.overlay.Some?) &&
      (r.overlay.Some? ==> r.overlay.value.x == 0.0 && r.overlay.value.color == s.defaultColor
                           && r.overlay.value.iconAlpha == 0.0)
  {
  }

  /**
   * A release with no overlay installed (no drag was seen) is taken at
   * percentage 0, where no state is reached while both triggers are
   * positive, so it reverts.
   */
  lemma ReleaseWithoutOverlayReverts(s: CellState, e: PanEvent)
    requires Valid(s) && !s.isExited && IsRelease(e) && s.overlay.None?
    requires 0.0 < s.firstTrigger && 0.0 < s.secondTrigger
    ensures !ExitsOnRelease(s)
    ensures !HandlePan(s, e).0.isExited
  {
    StateStaysOnItsSide(0.0, s.slots, s.firstTrigger, s.secondTrigger);
  }

  /**
   * With a trigger configuration that reaches an Exit state at percentage 0,
   * a release with no overlay latches the exit but schedules no animation,
   * so no completion block ever runs for it.
   */
  lemma ExitWithoutOverlaySchedulesNothing(s: CellState, e: PanEvent)
    requires Valid(s) && !s.isExited && IsRelease(e) && s.overlay.None?
    requires ExitsOnRelease(s)
    ensures HandlePan(s, e).0.isExited
    ensures HandlePan(s, e).0.pending == s.pending
  {
  }

  /**
   * Because of the repeated State2 test in the mode lookup, a release in
   * State3 always reverts, even when slot 3's mode is Exit.
   */
  lemma State3AlwaysReverts(s: CellState, e: PanEvent)
    requires Valid(s) && !s.isExited && IsRelease(e)
    requires StateWithPercentage(Percentage(s), s.slots, s.firstTrigger, s.secondTrigger) == State3
    ensures !HandlePan(s, e).0.isExited
    ensures HandlePan(s, e).0.pending == s.pending + [RevertAnimation(s.animationDuration, s.damping, s.velocity)]
  {
    ReleaseRevertPath(s, e);
  }

  /**
   * When the revert animation of a release finishes, the cell is live again,
   * the overlay is uninstalled, and the completion block of the state at
   * release (if any) has been called.
   */
  lemma RevertSettles(s: CellState, e: PanEvent)
    requires Valid(s) && !s.isExited && IsRelease(e)
    requires !ExitsOnRelease(s)
    ensures var r := HandlePan(s, e).0;
      |r.pending| == |s.pending| + 1 &&
      var f := AnimationFinished(r, |s.pending|);
      !f.isExited && f.overlay == None && f.pending == s.pending && f.fired == s.fired + CompletionOf(r)
  {
    var r := HandlePan(s, e).0;
    ReleaseRevertPath(s, e);
    assert r.pending[..|s.pending|] + r.pending[|s.pending| + 1..] == s.pending;
  }

  /**
   * A whole gesture: drags from a live cell, then a release, then the end of
   * the animation it scheduled.  Exactly one animation is scheduled, nothing
   * is called before it ends, and then the completion block of the state at
   * the released position is called once (when that slot has one).
   */
  lemma SessionRunsCompletionOnce(s: CellState, drags: seq<PanEvent>, release: PanEvent)
    requires Valid(s) && !s.isExited && drags != []
    requires forall k :: 0 <= k < |drags| ==> IsDrag(drags[k])
    requires IsRelease(release)
    ensures var d := RunPan(s, drags);
      var r := HandlePan(d, release).0;
      |r.pending| == |s.pending| + 1 && r.fired == s.fired &&
      r.currentPercentage == Percentage(d) &&
      var f := AnimationFinished(r, |s.pending|);
      f.pending == s.pending && f.fired == s.fired + CompletionOf(r)
  {
    var d := RunPan(s, drags);
    DragsKeepSessionOpen(s, drags);
    var r := HandlePan(d, release).0;
    if ExitsOnRelease(d) {
      ReleaseExitPath(d, release);
    } else {
      ReleaseRevertPath(d, release);
    }
    assert r.pending[..|s.pending|] + r.pending[|s.pending| + 1..] == s.pending;
  }

  // ------------------------------------------------------- configuration, reuse

  /** Configuring two different states gives the same table in either order. */
  lemma SetSwipeGestureWithCommutes(s: CellState, v1: ViewId, c1: ColorId, m1: Mode, st1: SwipeState, b1: BlockId,
                                    v2: ViewId, c2: ColorId, m2: Mode, st2: SwipeState, b2: BlockId)
    requires st1 != st2
    ensures SetSwipeGestureWith(SetSwipeGestureWith(s, v1, c1, m1, st1, b1), v2, c2, m2, st2, b2) ==
            SetSwipeGestureWith(SetSwipeGestureWith(s, v2, c2, m2, st2, b2), v1, c1, m1, st1, b1)
  {
  }

  /** Applying `prepareForReuse` twice gives the same state as applying it once. */
  lemma PrepareForReuseIdempotent(s: CellState)
    ensures PrepareForReuse(PrepareForReuse(s)) == PrepareForReuse(s)
  {
  }

  /**
   * After reuse nothing is configured: no state is reached, the colour is the
   * default, no icon shows, only the rest position can be left, and a
   * rightward pan does not begin.
   */
  lemma ReusedCellIsInert(s: CellState, percentage: real, r: Recognizer)
    ensures var t := PrepareForReuse(s);
      StateWithPercentage(percentage, t.slots, t.firstTrigger, t.secondTrigger) == StateNone &&
      ColorWithPercentage(percentage, t.slots, t.firstTrigger, t.secondTrigger, t.startImmediately,
                          t.defaultColor) == t.defaultColor &&
      ViewWithPercentage(percentage, t.slots, t.secondTrigger) == None &&
      (CanTravelTo(percentage, t.slots) <==> percentage == 0.0) &&
      (r.PanRecognizer? && r.velocityX > 0.0 ==> !GestureRecognizerShouldBegin(r, t.slots))
  {
  }

  // ----------------------------------------------------------------- examples

  /**
   * Slot 1 is (green, Switch) with default triggers; a drag by a fifth of
   * the width and a release reach State1, revert, and once the spring
   * animation ends call slot 1's block with (State1, Switch).
   */
  lemma SwitchExample(s: CellState, view: ViewId, green: ColorId, block: BlockId, vx: real)
    requires Valid(s) && !s.isExited && s.overlay.None? && s.pending == []
    requires s.firstTrigger == 0.15 && s.secondTrigger == 0.47
    requires s.slots.s1 == Slot(Some(view), Some(green), Switch, Some(block)) && !Active(s.slots.s2)
    ensures var d := HandlePan(s, PanEvent(Began, 0.2 * s.width, 0.0)).0;
      var r := HandlePan(d, PanEvent(Ended, 0.0, vx)).0;
      var f := AnimationFinished(r, 0);
      r.currentPercentage == 0.2 && !r.isExited &&
      r.pending == [RevertAnimation(s.animationDuration, s.damping, s.velocity)] &&
      f.fired == s.fired + [Firing(block, State1, Switch)] && f.overlay == None && !f.isExited
  {
    var d := HandlePan(s, PanEvent(Began, 0.2 * s.width, 0.0)).0;
    assert d.overlay.value.x == 0.2 * s.width;
    PercentageOffsetRoundTrip(0.2, s.width);
    assert Percentage(d) == 0.2;
  }

  /**
   * Slot 2 is (red, Exit) with default triggers; a drag to nine tenths of the
   * width and a release reach State2, send the screenshot a full width to the
   * right, latch the exit, and once the animation ends call slot 2's block
   * with (State2, Exit).
   */
  lemma ExitExample(s: CellState, view: ViewId, red: ColorId, block: BlockId, vx: real)
    requires Valid(s) && !s.isExited && s.overlay.None? && s.pending == []
    requires s.firstTrigger == 0.15 && s.secondTrigger == 0.47
    requires s.slots.s2 == Slot(Some(view), Some(red), Exit, Some(block))
    ensures var d := HandlePan(s, PanEvent(Began, 0.9 * s.width, 0.0)).0;
      var r := HandlePan(d, PanEvent(Ended, 0.0, vx)).0;
      var f := AnimationFinished(r, 0);
      r.isExited && r.overlay.Some? && r.overlay.value.x == s.width &&
      r.pending == [ExitAnimation(AnimationDurationWithVelocity(vx, s.width))] &&
      f.fired == s.fired + [Firing(block, State2, Exit)] && f.isExited
  {
    var d := HandlePan(s, PanEvent(Began, 0.9 * s.width, 0.0)).0;
    assert d.overlay.value.x == 0.9 * s.width;
    PercentageOffsetRoundTrip(0.9, s.width);
    assert Percentage(d) == 0.9;
  }
}
