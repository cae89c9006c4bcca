/**
 * Conversions between the screenshot's horizontal offset and the swipe
 * percentage, the exit-animation duration derived from the release velocity,
 * and the swipe direction derived from the sign of the percentage.  CGFloat
 * and NSTimeInterval are modelled as `real`; the cell width is the width of
 * the cell's bounds and must be positive, because the cell divides by it.
 */
module PercentageMath {
  import opened SwipeTypes

  /** `offsetWithPercentage`: percentage times width, clamped to [-width, width]. */
  function OffsetWithPercentage(percentage: real, width: real): (offset: real)
    requires width > 0.0
    ensures -width <= offset <= width
    ensures -1.0 <= percentage <= 1.0 ==> offset == percentage * width
    ensures percentage < -1.0 ==> offset == -width
    ensures percentage > 1.0 ==> offset == width
  {
    var offset := percentage * width;
    ScaleBeyondOne(percentage, width);
    if offset < -width then -width
    else if offset > width then width
    else offset
  }

  /** Scaling by a positive width keeps a percentage's position relative to -1 and 1. */
  lemma ScaleBeyondOne(percentage: real, width: real)
    requires width > 0.0
    ensures percentage > 1.0 ==> percentage * width > width
    ensures percentage < -1.0 ==> percentage * width < -width
    ensures percentage <= 1.0 ==> percentage * width <= width
    ensures percentage >= -1.0 ==> percentage * width >= -width
  {
    if percentage > 1.0 {
      assert (percentage - 1.0) * width > 0.0;
    } else {
      assert (1.0 - percentage) * width >= 0.0;
    }
    if percentage < -1.0 {
      assert (-1.0 - percentage) * width > 0.0;
    } else {
      assert (percentage + 1.0) * width >= 0.0;
    }
  }

  /** `percentageWithOffset`: offset divided by width, clamped to [-1, 1]. */
  function PercentageWithOffset(offset: real, width: real): (percentage: real)
    requires width > 0.0
    ensures -1.0 <= percentage <= 1.0
    ensures -width <= offset <= width ==> percentage * width == offset
    ensures offset < -width ==> percentage == -1.0
    ensures offset > width ==> percentage == 1.0
  {
    var percentage := offset / width;
    if percentage < -1.0 then -1.0
    else if percentage > 1.0 then 1.0
    else percentage
  }

  /**
   * `animationDurationWithVelocity`: the horizontal velocity is clamped to
   * [-width, width] and mapped affinely, (0.1 + 0.25) - (v / width) * (0.1 - 0.25),
   * so a rightward fling lengthens the animation and a leftward one shortens it.
   */
  function AnimationDurationWithVelocity(velocityX: real, width: real): (duration: real)
    requires width > 0.0
    ensures 0.2 <= duration <= 0.5
    ensures -width <= velocityX <= width ==> (duration - 0.35) * width == 0.15 * velocityX
    ensures velocityX >= width ==> duration == 0.5
    ensures velocityX <= -width ==> duration == 0.2
  {
    var animationDurationDiff := 0.1 - 0.25;
    var horizontalVelocity :=
      if velocityX < -width then -width
      else if velocityX > width then width
      else velocityX;
    var ratio := horizontalVelocity / width;
    assert ratio * width == horizontalVelocity;
    assert -1.0 <= ratio <= 1.0 by {
      assert (ratio + 1.0) * width >= 0.0 && (1.0 - ratio) * width >= 0.0;
    }
    (0.1 + 0.25) - ratio * animationDurationDiff
  }

  /** `directionWithPercentage`: the sign of the percentage. */
  function DirectionWithPercentage(percentage: real): (d: Direction)
    ensures d == Left <==> percentage < 0.0
    ensures d == Right <==> percentage > 0.0
    ensures d == Center <==> percentage == 0.0
  {
    if percentage < 0.0 then Left
    else if percentage > 0.0 then Right
    else Center
  }

  /** Inside [-1, 1], converting a percentage to an offset and back is the identity. */
  lemma PercentageOffsetRoundTrip(percentage: real, width: real)
    requires width > 0.0
    requires -1.0 <= percentage <= 1.0
    ensures PercentageWithOffset(OffsetWithPercentage(percentage, width), width) == percentage
  {
    var o := OffsetWithPercentage(percentage, width);
    var q := PercentageWithOffset(o, width);
    assert q * width == percentage * width;
  }

  /** The rest position and the two edges of the cell are at percentages 0, 1 and -1. */
  lemma PercentageAtWidth(width: real)
    requires width > 0.0
    ensures PercentageWithOffset(width, width) == 1.0
    ensures PercentageWithOffset(-width, width) == -1.0
    ensures PercentageWithOffset(0.0, width) == 0.0
  {
    assert width / width == 1.0;
    assert (-width) / width == -1.0;
  }

  /** Inside [-width, width], converting an offset to a percentage and back is the identity. */
  lemma OffsetPercentageRoundTrip(offset: real, width: real)
    requires width > 0.0
    requires -width <= offset <= width
    ensures OffsetWithPercentage(PercentageWithOffset(offset, width), width) == offset
  {
  }

  /** The percentage never decreases as the offset grows. */
  lemma PercentageMonotone(o1: real, o2: real, width: real)
    requires width > 0.0
    requires o1 <= o2
    ensures PercentageWithOffset(o1, width) <= PercentageWithOffset(o2, width)
  {
    assert o1 / width <= o2 / width;
  }

  /** The percentage has the sign of the offset, so the direction is that of the offset. */
  lemma DirectionOfOffset(offset: real, width: real)
    requires width > 0.0
    ensures DirectionWithPercentage(PercentageWithOffset(offset, width)) ==
            (if offset < 0.0 then Left else if offset > 0.0 then Right else Center)
  {
  }

  /** A release at rest gives the middle duration of 0.35 s. */
  lemma DurationAtRest(width: real)
    requires width > 0.0
    ensures AnimationDurationWithVelocity(0.0, width) == 0.35
  {
  }

  /** The duration never decreases as the horizontal velocity grows. */
  lemma DurationMonotone(v1: real, v2: real, width: real)
    requires width > 0.0
    requires v1 <= v2
    ensures AnimationDurationWithVelocity(v1, width) <= AnimationDurationWithVelocity(v2, width)
  {
  }
}
