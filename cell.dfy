/**
 * KZSwipeTableViewCell as a class: the fields the gesture logic updates in
 * place, and one method per event.  Each method's new state is tied to the
 * transition function of SwipeMachine, whose properties are proved in
 * SwipeProperties.  The completion blocks the cell calls are recorded in the
 * ghost log `fired`.
 */
module SwipeCell {
  import opened SwipeTypes
  import opened PercentageMath
  import opened StateResolver
  import opened SwipeMachine

  class Cell {
    /** The width of the cell's bounds. */
    const width: real

    var damping: real
    var velocity: real
    var animationDuration: real
    var firstTrigger: real
    var secondTrigger: real
    var startImmediately: bool
    var defaultColor: ColorId

    /** The four configuration slots. */
    var slots: Slots

    /** The screenshot, colour indicator and sliding view while they are installed. */
    var overlay: Option<Overlay>
    var direction: Direction
    var isExited: bool
    var currentPercentage: real
    var activeView: Option<ViewId>

    /** Animations scheduled whose completion closure has not run yet. */
    var pending: seq<Animation>

    /** The completion blocks called so far, in order. */
    ghost var fired: seq<Firing>

    /** The cell's fields as one value. */
    ghost function Snapshot(): CellState
      reads this
    {
      CellState(width, damping, velocity, animationDuration, firstTrigger, secondTrigger, startImmediately,
                defaultColor, slots, overlay, direction, isExited, currentPercentage, activeView, pending, fired)
    }

    ghost predicate Valid()
      reads this
    {
      SwipeMachine.Valid(Snapshot())
    }

    /** `init(style:reuseIdentifier:)` with the class's default settings and empty slots. */
    constructor (width: real, defaultColor: ColorId)
      requires width > 0.0
      ensures Valid()
      ensures Snapshot() == Initial(width, defaultColor)
    {
      this.width := width;
      damping, velocity, animationDuration := 0.6, 0.9, 0.4;
      firstTrigger, secondTrigger, startImmediately := 0.15, 0.47, false;
      this.defaultColor := defaultColor;
      slots := NoSlots;
      overlay, direction, isExited := None, Center, false;
      currentPercentage, activeView := 0.0, None;
      pending, fired := [], [];
    }

    /** `setSwipeGestureWith(view:color:mode:state:completionBlock:)`. */
    method SetSwipeGestureWith(view: ViewId, color: ColorId, mode: Mode := ModeNone, state: SwipeState := State1,
                               block: BlockId)
      modifies this`slots
      ensures Snapshot() == SwipeMachine.SetSwipeGestureWith(old(Snapshot()), view, color, mode, state, block)
    {
      var slot := Slot(Some(view), Some(color), mode, Some(block));
      if state == State1 {
        slots := slots.(s1 := slot);
      }
      if state == State2 {
        slots := slots.(s2 := slot);
      }
      if state == State3 {
        slots := slots.(s3 := slot);
      }
      if state == State4 {
        slots := slots.(s4 := slot);
      }
    }

    /** `prepareForReuse`. */
    method PrepareForReuse()
      modifies this
      ensures Snapshot() == SwipeMachine.PrepareForReuse(old(Snapshot()))
    {
      UninstallSwipingView();
      isExited := false;
      slots := Slots(EmptySlot, EmptySlot, EmptySlot, EmptySlot);
    }

    /** `setupSwipingView`. */
    method SetupSwipingView()
      modifies this`overlay
      ensures Snapshot() == SwipeMachine.SetupSwipingView(old(Snapshot()))
    {
      if overlay.Some? {
        return;
      }
      overlay := Some(Overlay(0.0, defaultColor, None, 1.0));
    }

    /** `uninstallSwipingView`. */
    method UninstallSwipingView()
      modifies this`overlay
      ensures Snapshot() == SwipeMachine.UninstallSwipingView(old(Snapshot()))
    {
      overlay := None;
    }

    /** `animateWithOffset`. */
    method AnimateWithOffset(offset: real)
      requires Valid()
      modifies this`overlay
      ensures overlay == if old(overlay).Some?
                         then Some(SwipeMachine.AnimateWithOffset(old(Snapshot()), old(overlay).value, offset))
                         else None
    {
      var percentage := PercentageWithOffset(offset, width);
      if overlay.None? {
        return;
      }
      var view := ViewWithPercentage(percentage, slots, secondTrigger);
      if view.Some? {
        overlay := Some(overlay.value.(icon := view, iconAlpha := AlphaWithPercentage(percentage, firstTrigger)));
      }
      var color := ColorWithPercentage(percentage, slots, firstTrigger, secondTrigger, startImmediately, defaultColor);
      overlay := Some(overlay.value.(color := color));
    }

    /** `moveWithDuration(_:direction:)`. */
    method MoveWithDuration(duration: real, direction: Direction)
      requires Valid()
      modifies this
      ensures Snapshot() == SwipeMachine.MoveWithDuration(old(Snapshot()), duration, direction)
    {
      isExited := true;
      var origin := 0.0;
      if direction == Left {
        origin := -width;
      } else if direction == Right {
        origin := width;
      }
      if overlay.None? {
        return;
      }
      overlay := Some(overlay.value.(x := origin, iconAlpha := 0.0));
      pending := pending + [ExitAnimation(duration)];
    }

    /** `swipeToOriginWithCompletion`, always given `executeCompletionBlock` as its completion. */
    method SwipeToOriginWithCompletion()
      modifies this
      ensures Snapshot() == SwipeMachine.SwipeToOriginWithCompletion(old(Snapshot()))
    {
      if overlay.Some? {
        overlay := Some(overlay.value.(x := 0.0, color := defaultColor, iconAlpha := 0.0));
      }
      pending := pending + [RevertAnimation(animationDuration, damping, velocity)];
    }

    /**
     * `handlePanGestureRecognizer`; `translationReset` says whether the
     * recognizer's translation was set back to zero.
     */
    method HandlePanGestureRecognizer(e: PanEvent) returns (translationReset: bool)
      requires Valid()
      modifies this
      ensures Valid()
      ensures (Snapshot(), translationReset) == HandlePan(old(Snapshot()), e)
    {
      translationReset := false;
      if isExited {
        return;
      }
      var percentage := 0.0;
      if overlay.Some? {
        percentage := PercentageWithOffset(overlay.value.x, width);
        direction := DirectionWithPercentage(percentage);
      }
      assert Snapshot() == old(Snapshot()).(direction := ObservedDirection(old(Snapshot())));

      if e.phase == Began || e.phase == Changed {
        translationReset := HandleDrag(percentage, e.translationX);
      } else if e.phase == Ended || e.phase == Cancelled {
        var duration := AnimationDurationWithVelocity(e.velocityX, width);
        HandleRelease(percentage, duration);
      }
    }

    /** The began/changed branch of `handlePanGestureRecognizer`. */
    method HandleDrag(percentage: real, translationX: real) returns (translationReset: bool)
      requires Valid() && percentage == Percentage(Snapshot())
      modifies this`overlay
      ensures (Snapshot(), translationReset) == Drag(old(Snapshot()), translationX)
    {
      translationReset := false;
      SetupSwipingView();
      if overlay.Some? {
        if CanTravelTo(percentage, slots) {
          overlay := Some(overlay.value.(x := overlay.value.x + translationX));
          AnimateWithOffset(overlay.value.x);
          translationReset := true;
        }
      }
    }

    /** The ended/cancelled branch of `handlePanGestureRecognizer`. */
    method HandleRelease(percentage: real, duration: real)
      requires Valid() && percentage == Percentage(Snapshot())
      modifies this
      ensures Snapshot() == Release(old(Snapshot()), duration)
    {
      activeView := ViewWithPercentage(percentage, slots, secondTrigger);
      currentPercentage := percentage;
      var state := StateWithPercentage(percentage, slots, firstTrigger, secondTrigger);
      var mode := ModeNone;
      if state == State1 {
        mode := slots.s1.mode;
      } else if state == State2 {
        mode := slots.s2.mode;
      } else if state == State2 {
        mode := slots.s3.mode;
      } else if state == State4 {
        mode := slots.s4.mode;
      }
      if mode == Exit && direction != Center {
        MoveWithDuration(duration, direction);
      } else {
        SwipeToOriginWithCompletion();
      }
    }

    /** `executeCompletionBlock`. */
    method ExecuteCompletionBlock()
      modifies this`fired
      ensures Snapshot() == SwipeMachine.ExecuteCompletionBlock(old(Snapshot()))
    {
      var state := StateWithPercentage(currentPercentage, slots, firstTrigger, secondTrigger);
      var mode := ModeNone;
      var block: Option<BlockId> := None;
      match state {
        case State1 => mode, block := slots.s1.mode, slots.s1.block;
        case State2 => mode, block := slots.s2.mode, slots.s2.block;
        case State3 => mode, block := slots.s3.mode, slots.s3.block;
        case State4 => mode, block := slots.s4.mode, slots.s4.block;
        case StateNone =>
      }
      if block.Some? {
        fired := fired + [Firing(block.value, state, mode)];
      }
    }

    /** The completion closure of the `i`-th pending animation runs. */
    method AnimationFinished(i: nat)
      requires i < |pending|
      modifies this
      ensures Snapshot() == SwipeMachine.AnimationFinished(old(Snapshot()), i)
    {
      var animation := pending[i];
      pending := pending[..i] + pending[i + 1..];
      if animation.RevertAnimation? {
        isExited := false;
        UninstallSwipingView();
      }
      ExecuteCompletionBlock();
    }
  }
}
