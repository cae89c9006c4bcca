/**
 * The cell's state as one value and every event that changes it as a
 * function from the old value to the new one: configuration, reuse, the pan
 * gesture handler with its began/changed and ended/cancelled branches, the
 * exit and revert animations, and the completion block run when an animation
 * finishes.  The class in cell.dfy is proved to follow these functions.
 *
 * UIKit applies the property changes inside an animation block at once and
 * runs the completion closure later; here an animation block changes the
 * state immediately and appends the animation to `pending`; the later
 * "animation finished" event removes it and runs its completion.
 */
module SwipeMachine {
  import opened SwipeTypes
  import opened PercentageMath
  import opened StateResolver

  /** UIGestureRecognizerState as seen by the target action. */
  datatype Phase = Possible | Began | Changed | Ended | Cancelled | Failed

  /** One call of the pan target action: the phase, `translationInView.x` and `velocityInView.x`. */
  datatype PanEvent = PanEvent(phase: Phase, translationX: real, velocityX: real)

  /** The recognizer asked about in `gestureRecognizerShouldBegin`, with its velocity when it is a pan. */
  datatype Recognizer = PanRecognizer(velocityX: real, velocityY: real) | OtherRecognizer

  /**
   * The installed overlay (screenshot, colour indicator, sliding view): the
   * screenshot's x-origin, the indicator's background colour, the view shown
   * in the sliding view and the sliding view's alpha.
   */
  datatype Overlay = Overlay(x: real, color: ColorId, icon: Option<ViewId>, iconAlpha: real)

  /** A scheduled animation whose completion closure has not yet run. */
  datatype Animation =
    | ExitAnimation(duration: real)
    | RevertAnimation(duration: real, damping: real, springVelocity: real)

  /** One call of a completion block: which block, with which state and mode. */
  datatype Firing = Firing(block: BlockId, state: SwipeState, mode: Mode)

  /** Every field of the cell that the gesture logic reads or writes. */
  datatype CellState = CellState(
    width: real,
    damping: real,
    velocity: real,
    animationDuration: real,
    firstTrigger: real,
    secondTrigger: real,
    startImmediately: bool,
    defaultColor: ColorId,
    slots: Slots,
    overlay: Option<Overlay>,
    direction: Direction,
    isExited: bool,
    currentPercentage: real,
    activeView: Option<ViewId>,
    pending: seq<Animation>,
    fired: seq<Firing>)

  /** The cell's bounds have a positive width. */
  predicate Valid(s: CellState)
  {
    s.width > 0.0
  }

  /** The settings and the slot table are the same in both states. */
  predicate SameConfiguration(s: CellState, t: CellState)
  {
    s.width == t.width && s.damping == t.damping && s.velocity == t.velocity &&
    s.animationDuration == t.animationDuration && s.firstTrigger == t.firstTrigger &&
    s.secondTrigger == t.secondTrigger && s.startImmediately == t.startImmediately &&
    s.defaultColor == t.defaultColor && s.slots == t.slots
  }

  /**
   * A freshly initialised cell with the default settings of the class: its
   * triggers are ordered as the resolvers expect, nothing is scheduled or
   * called, and it is already in the state `prepareForReuse` leaves.
   */
  function Initial(width: real, defaultColor: ColorId): (r: CellState)
    ensures width > 0.0 ==> Valid(r)
    ensures 0.0 < r.firstTrigger <= r.secondTrigger < 1.0
    ensures r.pending == [] && r.fired == []
    ensures PrepareForReuse(r) == r
  {
    CellState(width, 0.6, 0.9, 0.4, 0.15, 0.47, false, defaultColor, NoSlots,
              None, Center, false, 0.0, None, [], [])
  }

  /** `setSwipeGestureWith`: writes view, colour, mode and block into the slot of `state`. */
  function SetSwipeGestureWith(s: CellState, view: ViewId, color: ColorId, mode: Mode, state: SwipeState,
                               block: BlockId): (r: CellState)
    ensures state == StateNone ==> r == s
    ensures state != StateNone ==> r.slots.Lookup(state) == Slot(Some(view), Some(color), mode, Some(block))
    ensures forall k :: k != state ==> r.slots.Lookup(k) == s.slots.Lookup(k)
    ensures r.(slots := s.slots) == s
  {
    s.(slots := s.slots.With(state, Slot(Some(view), Some(color), mode, Some(block))))
  }

  /** `uninstallSwipingView`: the overlay is removed. */
  function UninstallSwipingView(s: CellState): (r: CellState)
    ensures r.overlay.None?
    ensures Valid(s) ==> Valid(r) && Percentage(r) == 0.0
    ensures r.(overlay := s.overlay) == s
  {
    s.(overlay := None)
  }

  /** `prepareForReuse`: uninstalls the overlay, clears the exit latch and empties all four slots. */
  function PrepareForReuse(s: CellState): (r: CellState)
    ensures forall k :: r.slots.Lookup(k) == EmptySlot
    ensures !r.isExited && r.overlay == None
    ensures r.(slots := s.slots, isExited := s.isExited, overlay := s.overlay) == s
  {
    UninstallSwipingView(s).(isExited := false, slots := NoSlots)
  }

  /** `setupSwipingView`: installs a fresh overlay at x = 0 unless one is installed already. */
  function SetupSwipingView(s: CellState): (r: CellState)
    ensures r.overlay.Some?
    ensures s.overlay.Some? ==> r == s
    ensures r.(overlay := s.overlay) == s
  {
    if s.overlay.Some? then s
    else s.(overlay := Some(Overlay(0.0, s.defaultColor, None, 1.0)))
  }

  /** The percentage of the screenshot's current position; 0 when no overlay is installed. */
  function Percentage(s: CellState): (p: real)
    requires Valid(s)
    ensures -1.0 <= p <= 1.0
    ensures s.overlay.None? ==> p == 0.0
    ensures s.overlay.Some? && -s.width <= s.overlay.value.x <= s.width ==> p * s.width == s.overlay.value.x
  {
    if s.overlay.Some? then PercentageWithOffset(s.overlay.value.x, s.width) else 0.0
  }

  /** `_direction` after the handler's prologue: recomputed only while an overlay is installed. */
  function ObservedDirection(s: CellState): (d: Direction)
    requires Valid(s)
    ensures s.overlay.None? ==> d == s.direction
    ensures s.overlay.Some? ==> (d == Left <==> s.overlay.value.x < 0.0) && (d == Right <==> s.overlay.value.x > 0.0)
  {
    if s.overlay.Some? then DirectionWithPercentage(Percentage(s)) else s.direction
  }

  /**
   * `animateWithOffset`: for the percentage of `offset`, recolours the
   * indicator and, when a view is resolved, shows it in the sliding view with
   * the resolved alpha.
   */
  function AnimateWithOffset(s: CellState, o: Overlay, offset: real): (r: Overlay)
    requires Valid(s)
    ensures r.x == o.x
    ensures r.color == ColorWithPercentage(PercentageWithOffset(offset, s.width), s.slots, s.firstTrigger,
                                           s.secondTrigger, s.startImmediately, s.defaultColor)
    ensures var p := PercentageWithOffset(offset, s.width);
      var v := ViewWithPercentage(p, s.slots, s.secondTrigger);
      (v.Some? ==> r.icon == v && r.iconAlpha == AlphaWithPercentage(p, s.firstTrigger)) &&
      (v.None? ==> r.icon == o.icon && r.iconAlpha == o.iconAlpha)
    ensures 0.0 <= o.iconAlpha <= 1.0 ==> 0.0 <= r.iconAlpha <= 1.0
  {
    var percentage := PercentageWithOffset(offset, s.width);
    var view := ViewWithPercentage(percentage, s.slots, s.secondTrigger);
    var o1 := if view.Some? then o.(icon := view, iconAlpha := AlphaWithPercentage(percentage, s.firstTrigger))
              else o;
    o1.(color := ColorWithPercentage(percentage, s.slots, s.firstTrigger, s.secondTrigger,
                                     s.startImmediately, s.defaultColor))
  }

  /**
   * The began/changed branch: install the overlay, then move the screenshot
   * by the translation when `canTravelTo` accepts the percentage of the
   * position before the move.  The boolean says whether the recognizer's
   * translation was reset to zero.
   */
  function Drag(s: CellState, translationX: real): (r: (CellState, bool))
    requires Valid(s)
    ensures r.0.(overlay := s.overlay) == s
    ensures r.0.overlay.Some?
    ensures r.1 <==> CanTravelTo(Percentage(s), s.slots)
    ensures r.1 ==> r.0.overlay.value.x == (if s.overlay.Some? then s.overlay.value.x else 0.0) + translationX
    ensures !r.1 ==> r.0 == SetupSwipingView(s)
    ensures r.1 ==> var base := SetupSwipingView(s).overlay.value;
      r.0.overlay.value == AnimateWithOffset(s, base.(x := base.x + translationX), base.x + translationX)
  {
    var percentage := Percentage(s);
    var s1 := SetupSwipingView(s);
    if CanTravelTo(percentage, s.slots) then
      var moved := s1.overlay.value.(x := s1.overlay.value.x + translationX);
      (s1.(overlay := Some(AnimateWithOffset(s1, moved, moved.x))), true)
    else
      (s1, false)
  }

  /**
   * `moveWithDuration`: latches `_isExited`; with an overlay installed it
   * sends the screenshot to the side of `direction`, fades the icon and
   * schedules the exit animation.
   */
  function MoveWithDuration(s: CellState, duration: real, direction: Direction): (r: CellState)
    requires Valid(s)
    ensures r.isExited && Valid(r)
    ensures r.(isExited := s.isExited, overlay := s.overlay, pending := s.pending) == s
    ensures s.overlay.None? ==> r.overlay.None? && r.pending == s.pending
    ensures s.overlay.Some? ==>
      r.overlay.Some? && r.overlay.value.(x := s.overlay.value.x, iconAlpha := s.overlay.value.iconAlpha) == s.overlay.value &&
      r.overlay.value.iconAlpha == 0.0 &&
      Percentage(r) == (if direction == Left then -1.0 else if direction == Right then 1.0 else 0.0) &&
      r.pending == s.pending + [ExitAnimation(duration)]
  {
    PercentageAtWidth(s.width);
    var s1 := s.(isExited := true);
    var origin := if direction == Left then -s.width else if direction == Right then s.width else 0.0;
    if s1.overlay.None? then s1
    else s1.(overlay := Some(s1.overlay.value.(x := origin, iconAlpha := 0.0)),
             pending := s1.pending + [ExitAnimation(duration)])
  }

  /**
   * `swipeToOriginWithCompletion`: moves the screenshot back to 0, restores
   * the default colour, fades the icon and schedules the spring animation.
   */
  function SwipeToOriginWithCompletion(s: CellState): (r: CellState)
    ensures r.(overlay := s.overlay, pending := s.pending) == s
    ensures r.pending == s.pending + [RevertAnimation(s.animationDuration, s.damping, s.velocity)]
    ensures r.overlay.Some? <==> s.overlay.Some?
    ensures Valid(s) ==> Valid(r) && Percentage(r) == 0.0
    ensures r.overlay.Some? ==> r.overlay.value.color == s.defaultColor && r.overlay.value.iconAlpha == 0.0 &&
                                r.overlay.value.icon == s.overlay.value.icon
  {
    var overlay := if s.overlay.Some?
                   then Some(s.overlay.value.(x := 0.0, color := s.defaultColor, iconAlpha := 0.0))
                   else None;
    s.(overlay := overlay, pending := s.pending + [RevertAnimation(s.animationDuration, s.damping, s.velocity)])
  }

  /**
   * The ended/cancelled branch: records the active view and the percentage,
   * looks up the mode (as written, see ModeAtRelease) and either exits with
   * the duration derived from the release velocity or reverts.
   */
  function Release(s: CellState, duration: real): (r: CellState)
    requires Valid(s)
    ensures Valid(r) && SameConfiguration(s, r) && r.fired == s.fired && r.direction == s.direction
    ensures r.currentPercentage == Percentage(s)
    ensures r.activeView == ViewWithPercentage(Percentage(s), s.slots, s.secondTrigger)
    ensures var exits := ModeAtRelease(StateWithPercentage(Percentage(s), s.slots, s.firstTrigger, s.secondTrigger),
                                       s.slots) == Exit && s.direction != Center;
      (exits ==> r.isExited &&
                 r.pending == s.pending + (if s.overlay.Some? then [ExitAnimation(duration)] else [])) &&
      (!exits ==> r.isExited == s.isExited &&
                  r.pending == s.pending + [RevertAnimation(s.animationDuration, s.damping, s.velocity)])
  {
    var percentage := Percentage(s);
    var s1 := s.(activeView := ViewWithPercentage(percentage, s.slots, s.secondTrigger),
                 currentPercentage := percentage);
    var state := StateWithPercentage(percentage, s.slots, s.firstTrigger, s.secondTrigger);
    var mode := ModeAtRelease(state, s.slots);
    if mode == Exit && s.direction != Center then
      MoveWithDuration(s1, duration, s.direction)
    else
      SwipeToOriginWithCompletion(s1)
  }

  /**
   * `handlePanGestureRecognizer`: ignored once exited; otherwise refreshes the
   * direction and dispatches on the phase.  The boolean says whether the
   * recognizer's translation was reset to zero.
   */
  function HandlePan(s: CellState, e: PanEvent): (r: (CellState, bool))
    requires Valid(s)
    ensures Valid(r.0) && SameConfiguration(s, r.0)
    ensures s.isExited ==> r == (s, false)
    ensures r.0.fired == s.fired
    ensures |s.pending| <= |r.0.pending| <= |s.pending| + 1 && r.0.pending[..|s.pending|] == s.pending
    ensures r.1 ==> e.phase in {Began, Changed}
  {
    if s.isExited then (s, false)
    else
      var duration := AnimationDurationWithVelocity(e.velocityX, s.width);
      var s1 := s.(direction := ObservedDirection(s));
      match e.phase
      case Began => Drag(s1, e.translationX)
      case Changed => Drag(s1, e.translationX)
      case Ended => (Release(s1, duration), false)
      case Cancelled => (Release(s1, duration), false)
      case _ => (s1, false)
  }

  /**
   * The completion run by `executeCompletionBlock`: the state is recomputed
   * from `currentPercentage`, and that slot's block is called with the state
   * and the slot's mode when the slot has a block.
   */
  function CompletionOf(s: CellState): (calls: seq<Firing>)
    ensures |calls| <= 1
    ensures var st := StateWithPercentage(s.currentPercentage, s.slots, s.firstTrigger, s.secondTrigger);
      (calls == [] <==> s.slots.Lookup(st).block.None?) &&
      (calls != [] ==> st != StateNone && calls[0].state == st && Some(calls[0].block) == s.slots.Lookup(st).block
                       && calls[0].mode == s.slots.Lookup(st).mode && calls[0].mode != ModeNone)
  {
    var state := StateWithPercentage(s.currentPercentage, s.slots, s.firstTrigger, s.secondTrigger);
    var slot := s.slots.Lookup(state);
    if slot.block.Some? then [Firing(slot.block.value, state, slot.mode)] else []
  }

  /** `executeCompletionBlock`: records the call of the completion block, if any. */
  function ExecuteCompletionBlock(s: CellState): (r: CellState)
    ensures r.(fired := s.fired) == s
    ensures r.fired == s.fired + CompletionOf(s)
  {
    s.(fired := s.fired + CompletionOf(s))
  }

  /**
   * The completion closure of the `i`-th pending animation: the exit
   * animation runs the completion block; the revert animation first clears
   * `_isExited` and uninstalls the overlay.
   */
  function AnimationFinished(s: CellState, i: nat): (r: CellState)
    requires i < |s.pending|
    ensures r.pending == s.pending[..i] + s.pending[i + 1..]
    ensures r.fired == s.fired + CompletionOf(s)
    ensures r.direction == s.direction && r.currentPercentage == s.currentPercentage && r.activeView == s.activeView
    ensures s.pending[i].RevertAnimation? ==> !r.isExited && r.overlay == None
    ensures s.pending[i].ExitAnimation? ==> r.isExited == s.isExited && r.overlay == s.overlay
    ensures SameConfiguration(s, r)
  {
    var s1 := s.(pending := s.pending[..i] + s.pending[i + 1..]);
    match s.pending[i]
    case ExitAnimation(_) => ExecuteCompletionBlock(s1)
    case RevertAnimation(_, _, _) => ExecuteCompletionBlock(UninstallSwipingView(s1).(isExited := false))
  }

  function Abs(x: real): real
  {
    if x < 0.0 then -x else x
  }

  /**
   * `gestureRecognizerShouldBegin`: only a pan whose velocity is mainly
   * horizontal begins, and a rightward one only when slot 1 or slot 2 is
   * active.  A leftward pan begins even when slots 3 and 4 are both inactive.
   */
  function GestureRecognizerShouldBegin(r: Recognizer, slots: Slots): (b: bool)
    ensures b <==> r.PanRecognizer? && Abs(r.velocityX) > Abs(r.velocityY) &&
                   !(r.velocityX > 0.0 && !Active(slots.s1) && !Active(slots.s2))
    ensures b && r.velocityX > 0.0 ==> forall p :: p > 0.0 ==> CanTravelTo(p, slots)
  {
    match r
    case OtherRecognizer => false
    case PanRecognizer(vx, vy) =>
      if Abs(vx) > Abs(vy) then
        if vx > 0.0 && slots.s1.mode == ModeNone && slots.s2.mode == ModeNone then false
        else true
      else false
  }
}
