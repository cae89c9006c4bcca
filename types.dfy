/**
 * The value types of the swipeable table cell: the direction, state and mode
 * enumerations, and the four-slot configuration table (icon view, colour,
 * mode, completion block per state).  Views, colours and completion blocks are
 * opaque handles: the model only compares them and passes them on.
 */
module SwipeTypes {

  /** Opaque handle of a UIView shown as the sliding icon. */
  type ViewId = nat
  /** Opaque handle of a UIColor. */
  type ColorId = nat
  /** Opaque handle of a completion closure. */
  type BlockId = nat

  /** Swift's optional: `nil` or a wrapped value. */
  datatype Option<T> = None | Some(value: T) {
    /** Swift's `??` operator. */
    function GetOr(default: T): (r: T)
      ensures Some? ==> r == value
      ensures None? ==> r == default
    {
      match this
      case Some(v) => v
      case None => default
    }
  }

  /** KZSwipeTableViewCellDirection. */
  datatype Direction = Left | Right | Center

  /** KZSwipeTableViewCellState; `.None` is written StateNone. */
  datatype SwipeState = StateNone | State1 | State2 | State3 | State4

  /** KZSwipeTableViewCellMode; `.None` is written ModeNone. */
  datatype Mode = ModeNone | Exit | Switch

  /** One configuration slot: `_viewK`, `_colorK`, `_modeForStateK`, `completionBlockK`. */
  datatype Slot = Slot(view: Option<ViewId>, color: Option<ColorId>, mode: Mode, block: Option<BlockId>)

  /** A slot that was never configured, or was cleared on reuse. */
  const EmptySlot := Slot(None, None, ModeNone, None)

  /** The four slots; State1/State2 belong to rightward drags, State3/State4 to leftward ones. */
  datatype Slots = Slots(s1: Slot, s2: Slot, s3: Slot, s4: Slot) {

    /** The slot that belongs to a state; `StateNone` owns no slot and reads as empty. */
    function Lookup(st: SwipeState): (r: Slot)
      ensures st == StateNone ==> r == EmptySlot
    {
      match st
      case StateNone => EmptySlot
      case State1 => s1
      case State2 => s2
      case State3 => s3
      case State4 => s4
    }

    /** Rewrites the slot of `st` and no other; `StateNone` names no slot and changes nothing. */
    function With(st: SwipeState, slot: Slot): (r: Slots)
      ensures st == StateNone ==> r == this
      ensures st != StateNone ==> r.Lookup(st) == slot
      ensures forall k :: k != st ==> r.Lookup(k) == Lookup(k)
    {
      match st
      case StateNone => this
      case State1 => this.(s1 := slot)
      case State2 => this.(s2 := slot)
      case State3 => this.(s3 := slot)
      case State4 => this.(s4 := slot)
    }
  }

  /** The configuration table after `prepareForReuse`: every slot (nil, nil, .None, nil). */
  const NoSlots := Slots(EmptySlot, EmptySlot, EmptySlot, EmptySlot)
}
