/**
 * The slot resolvers: from a percentage and the four configured slots they
 * decide whether the screenshot may travel, which state is reached, which
 * background colour and which icon view are shown, and how opaque the icon is.
 * Each is a fixed sequence of threshold tests in which the last test that
 * holds wins, exactly as in the cell.  `first` and `second` are the cell's
 * first and second trigger fractions (0.15 and 0.47 by default).
 */
module StateResolver {
  import opened SwipeTypes

  /** A slot takes part in resolution only when its mode is not `.None`. */
  predicate Active(slot: Slot)
  {
    slot.mode != ModeNone
  }

  /** `canTravelTo`: a side whose two slots are both inactive cannot be entered. */
  function CanTravelTo(percentage: real, slots: Slots): (b: bool)
    ensures !b <==> ((percentage > 0.0 && !Active(slots.s1) && !Active(slots.s2)) ||
                     (percentage < 0.0 && !Active(slots.s3) && !Active(slots.s4)))
  {
    if !Active(slots.s1) && !Active(slots.s2) && percentage > 0.0 then false
    else if !Active(slots.s3) && !Active(slots.s4) && percentage < 0.0 then false
    else true
  }

  /** The threshold test of `stateWithPercentage` for the state `st`. */
  predicate StateTriggered(st: SwipeState, percentage: real, slots: Slots, first: real, second: real)
  {
    match st
    case StateNone => false
    case State1 => percentage > first && Active(slots.s1)
    case State2 => percentage >= second && Active(slots.s2)
    case State3 => percentage <= -first && Active(slots.s3)
    case State4 => percentage <= -second && Active(slots.s4)
  }

  /**
   * `stateWithPercentage`: the four tests in the order State1, State2, State3,
   * State4, each overwriting the result of the earlier ones when it holds.
   */
  function StateWithPercentage(percentage: real, slots: Slots, first: real, second: real): (st: SwipeState)
    ensures st != StateNone ==> Active(slots.Lookup(st)) && StateTriggered(st, percentage, slots, first, second)
    ensures st == StateNone <==>
      !StateTriggered(State1, percentage, slots, first, second) && !StateTriggered(State2, percentage, slots, first, second) &&
      !StateTriggered(State3, percentage, slots, first, second) && !StateTriggered(State4, percentage, slots, first, second)
    ensures StateTriggered(State4, percentage, slots, first, second) ==> st == State4
  {
    var st0 := StateNone;
    var st1 := if percentage > first && Active(slots.s1) then State1 else st0;
    var st2 := if percentage >= second && Active(slots.s2) then State2 else st1;
    var st3 := if percentage <= -first && Active(slots.s3) then State3 else st2;
    if percentage <= -second && Active(slots.s4) then State4 else st3
  }

  /** Rank of a reached state among the rightward ones. */
  function RightRank(st: SwipeState): nat
  {
    match st
    case State1 => 1
    case State2 => 2
    case _ => 0
  }

  /** Rank of a reached state among the leftward ones. */
  function LeftRank(st: SwipeState): nat
  {
    match st
    case State3 => 1
    case State4 => 2
    case _ => 0
  }

  /**
   * With both triggers positive, each side only ever reaches its own two
   * states, and no state is reached closer to rest than both triggers.
   */
  lemma StateStaysOnItsSide(percentage: real, slots: Slots, first: real, second: real)
    requires 0.0 < first && 0.0 < second
    ensures var st := StateWithPercentage(percentage, slots, first, second);
      (percentage > 0.0 ==> st in {StateNone, State1, State2}) &&
      (percentage < 0.0 ==> st in {StateNone, State3, State4}) &&
      (-first < percentage < first && -second < percentage < second ==> st == StateNone)
  {
  }

  /**
   * On the right side the outcome is a priority table: State2 when the second
   * trigger is reached and slot 2 is active, whether or not slot 1 is, else
   * State1 past the first trigger, else nothing.
   */
  lemma RightStatePriority(percentage: real, slots: Slots, first: real, second: real)
    requires 0.0 < first && 0.0 < second
    requires percentage >= 0.0
    ensures StateWithPercentage(percentage, slots, first, second) ==
      if percentage >= second && Active(slots.s2) then State2
      else if percentage > first && Active(slots.s1) then State1
      else StateNone
  {
  }

  /** The same priority on the left side; here the first trigger is reached at equality. */
  lemma LeftStatePriority(percentage: real, slots: Slots, first: real, second: real)
    requires 0.0 < first && 0.0 < second
    requires percentage <= 0.0
    ensures StateWithPercentage(percentage, slots, first, second) ==
      if percentage <= -second && Active(slots.s4) then State4
      else if percentage <= -first && Active(slots.s3) then State3
      else StateNone
  {
  }

  /** Dragging further right never moves the state back from State2 to State1 or to none. */
  lemma StateMonotoneRight(p1: real, p2: real, slots: Slots, first: real, second: real)
    requires 0.0 < first <= second
    requires 0.0 <= p1 <= p2
    ensures RightRank(StateWithPercentage(p1, slots, first, second))
         <= RightRank(StateWithPercentage(p2, slots, first, second))
  {
    RightStatePriority(p1, slots, first, second);
    RightStatePriority(p2, slots, first, second);
  }

  /** Dragging further left never moves the state back from State4 to State3 or to none. */
  lemma StateMonotoneLeft(p1: real, p2: real, slots: Slots, first: real, second: real)
    requires 0.0 < first <= second
    requires p2 <= p1 <= 0.0
    ensures LeftRank(StateWithPercentage(p1, slots, first, second))
         <= LeftRank(StateWithPercentage(p2, slots, first, second))
  {
    LeftStatePriority(p1, slots, first, second);
    LeftStatePriority(p2, slots, first, second);
  }

  /**
   * The mode lookup of the release branch of `handlePanGestureRecognizer`,
   * as written: its third test repeats `state == .State2`, so the mode of
   * slot 3 is never read and State3 resolves to `.None`.
   */
  function ModeAtRelease(st: SwipeState, slots: Slots): (mode: Mode)
    ensures mode == (if st == State3 then ModeNone else slots.Lookup(st).mode)
  {
    if st == State1 then slots.s1.mode
    else if st == State2 then slots.s2.mode
    else if st == State2 then slots.s3.mode
    else if st == State4 then slots.s4.mode
    else ModeNone
  }

  /** The threshold test of `colorWithPercentage` for the slot of `st`. */
  predicate ColorTriggered(st: SwipeState, percentage: real, slots: Slots, first: real, second: real,
                           startImmediately: bool)
  {
    match st
    case StateNone => false
    case State1 => (percentage > first || (startImmediately && percentage > 0.0)) && Active(slots.s1)
    case State2 => percentage > second && Active(slots.s2)
    case State3 => (percentage < -first || (startImmediately && percentage < 0.0)) && Active(slots.s3)
    case State4 => percentage <= -second && Active(slots.s4)
  }

  /**
   * `colorWithPercentage`: starts from the default colour; each triggered
   * slot, in the order 1, 2, 3, 4, replaces it by its own colour when it has
   * one (`colorK ?? color`).
   */
  function ColorWithPercentage(percentage: real, slots: Slots, first: real, second: real,
                               startImmediately: bool, defaultColor: ColorId): (color: ColorId)
    ensures (forall k :: !ColorTriggered(k, percentage, slots, first, second, startImmediately))
            ==> color == defaultColor
    ensures color == defaultColor ||
            exists k :: ColorTriggered(k, percentage, slots, first, second, startImmediately)
                        && slots.Lookup(k).color == Some(color)
  {
    var c0 := defaultColor;
    var c1 := if ColorTriggered(State1, percentage, slots, first, second, startImmediately)
              then slots.s1.color.GetOr(c0) else c0;
    var c2 := if ColorTriggered(State2, percentage, slots, first, second, startImmediately)
              then slots.s2.color.GetOr(c1) else c1;
    var c3 := if ColorTriggered(State3, percentage, slots, first, second, startImmediately)
              then slots.s3.color.GetOr(c2) else c2;
    var c4 := if ColorTriggered(State4, percentage, slots, first, second, startImmediately)
              then slots.s4.color.GetOr(c3) else c3;
    c4
  }

  /**
   * A triggered slot without a colour keeps the colour chosen before it: the
   * result is the same as if that slot were switched off.
   */
  lemma ColorSlotWithoutColorIsTransparent(st: SwipeState, percentage: real, slots: Slots, first: real,
                                           second: real, startImmediately: bool, defaultColor: ColorId)
    requires slots.Lookup(st).color == None
    ensures ColorWithPercentage(percentage, slots, first, second, startImmediately, defaultColor) ==
            ColorWithPercentage(percentage, slots.With(st, slots.Lookup(st).(mode := ModeNone)),
                                first, second, startImmediately, defaultColor)
  {
  }

  /**
   * Away from the two boundaries where the colour and state tests differ in
   * strictness, and without `startImmediately`, the colour is the reached
   * state's colour when it has one, and the default colour when no state is reached.
   */
  lemma ColorFollowsState(percentage: real, slots: Slots, first: real, second: real, defaultColor: ColorId)
    requires 0.0 < first <= second
    requires percentage != second && percentage != -first
    ensures var st := StateWithPercentage(percentage, slots, first, second);
      var color := ColorWithPercentage(percentage, slots, first, second, false, defaultColor);
      (st == StateNone ==> color == defaultColor) &&
      (st != StateNone && slots.Lookup(st).color.Some? ==> color == slots.Lookup(st).color.value)
  {
    var st := StateWithPercentage(percentage, slots, first, second);
    if percentage >= 0.0 {
      RightStatePriority(percentage, slots, first, second);
    } else {
      LeftStatePriority(percentage, slots, first, second);
    }
  }

  /**
   * On the right side the colour is a priority table for any
   * `startImmediately`: slot 2's colour past the second trigger, else slot
   * 1's past the first trigger (or as soon as the screenshot moves right when
   * `startImmediately` is set), else the default.  A slot without a colour
   * does not take part.
   */
  lemma ColorRightPriority(percentage: real, slots: Slots, first: real, second: real,
                           startImmediately: bool, defaultColor: ColorId)
    requires 0.0 < first && 0.0 < second
    requires percentage >= 0.0
    ensures ColorWithPercentage(percentage, slots, first, second, startImmediately, defaultColor) ==
      if percentage > second && Active(slots.s2) && slots.s2.color.Some? then slots.s2.color.value
      else if (percentage > first || (startImmediately && percentage > 0.0)) && Active(slots.s1)
              && slots.s1.color.Some? then slots.s1.color.value
      else defaultColor
  {
  }

  /** The same table on the left side, where the second trigger is reached at equality. */
  lemma ColorLeftPriority(percentage: real, slots: Slots, first: real, second: real,
                          startImmediately: bool, defaultColor: ColorId)
    requires 0.0 < first && 0.0 < second
    requires percentage <= 0.0
    ensures ColorWithPercentage(percentage, slots, first, second, startImmediately, defaultColor) ==
      if percentage <= -second && Active(slots.s4) && slots.s4.color.Some? then slots.s4.color.value
      else if (percentage < -first || (startImmediately && percentage < 0.0)) && Active(slots.s3)
              && slots.s3.color.Some? then slots.s3.color.value
      else defaultColor
  {
  }

  /**
   * Exactly at the second trigger the state is already State2 while the
   * colour is still slot 1's, since the colour test for slot 2 is strict.
   */
  lemma ColorLagsStateAtSecondTrigger(slots: Slots, first: real, second: real, defaultColor: ColorId,
                                      c1: ColorId, c2: ColorId)
    requires 0.0 < first < second
    requires Active(slots.s1) && Active(slots.s2)
    requires slots.s1.color == Some(c1) && slots.s2.color == Some(c2)
    ensures StateWithPercentage(second, slots, first, second) == State2
    ensures ColorWithPercentage(second, slots, first, second, false, defaultColor) == c1
  {
  }

  /** The threshold test of `viewWithPercentage` for the slot of `st`. */
  predicate ViewTriggered(st: SwipeState, percentage: real, slots: Slots, second: real)
  {
    match st
    case StateNone => false
    case State1 => percentage >= 0.0 && Active(slots.s1)
    case State2 => percentage >= second && Active(slots.s2)
    case State3 => percentage < 0.0 && Active(slots.s3)
    case State4 => percentage <= -second && Active(slots.s4)
  }

  /**
   * `viewWithPercentage`: the view of the last triggered slot in the order
   * 1, 2, 3, 4; unlike the colour, a slot without a view overwrites with nil.
   */
  function ViewWithPercentage(percentage: real, slots: Slots, second: real): (view: Option<ViewId>)
    ensures view.Some? ==> exists k :: ViewTriggered(k, percentage, slots, second) && slots.Lookup(k).view == view
    ensures (forall k :: !ViewTriggered(k, percentage, slots, second)) ==> view == None
  {
    var v0: Option<ViewId> := None;
    var v1 := if ViewTriggered(State1, percentage, slots, second) then slots.s1.view else v0;
    var v2 := if ViewTriggered(State2, percentage, slots, second) then slots.s2.view else v1;
    var v3 := if ViewTriggered(State3, percentage, slots, second) then slots.s3.view else v2;
    var v4 := if ViewTriggered(State4, percentage, slots, second) then slots.s4.view else v3;
    v4
  }

  /**
   * Once a state is reached, the icon shown is that state's view; the icon of
   * slot 1 (right) or slot 3 (left) already shows before its first trigger
   * is reached, up to the second trigger.
   */
  lemma ViewFollowsState(percentage: real, slots: Slots, first: real, second: real)
    requires 0.0 < first <= second
    ensures var st := StateWithPercentage(percentage, slots, first, second);
      st != StateNone ==> ViewWithPercentage(percentage, slots, second) == slots.Lookup(st).view
    ensures 0.0 <= percentage < second && Active(slots.s1) ==>
      ViewWithPercentage(percentage, slots, second) == slots.s1.view
    ensures -second < percentage < 0.0 && Active(slots.s3) ==>
      ViewWithPercentage(percentage, slots, second) == slots.s3.view
  {
    if percentage >= 0.0 {
      RightStatePriority(percentage, slots, first, second);
    } else {
      LeftStatePriority(percentage, slots, first, second);
    }
  }

  /**
   * `alphaWithPercentage`: the icon fades in linearly while |percentage| is
   * below the first trigger and is opaque from there on.
   */
  function AlphaWithPercentage(percentage: real, first: real): (alpha: real)
    ensures 0.0 <= alpha <= 1.0
    ensures -first < percentage < first ==> alpha * first == (if percentage < 0.0 then -percentage else percentage)
    ensures (percentage >= first || percentage <= -first) ==> alpha == 1.0
  {
    if percentage >= 0.0 && percentage < first then percentage / first
    else if percentage < 0.0 && percentage > -first then
      var ratio := percentage / first;
      if ratio < 0.0 then -ratio else ratio
    else 1.0
  }
}
