/**
 * The menu encoder: a quadrature count kept by the encoder driver, read in
 * detents, with a latched press. Polling it returns the change in detents
 * since the previous poll, and after a press the change up to the press,
 * so turning the knob while pressing it does not move the menu.
 */
module RotaryEncoder {

  /** The count moves this many steps per detent. */
  const PositionsPerDetent: int := 2

  /**
   * The position in detents for a raw count: C++ `/` rounds toward zero,
   * so a negative count is divided as its magnitude and negated.
   */
  function Detents(count: int): (p: int)
    ensures count - PositionsPerDetent < p * PositionsPerDetent < count + PositionsPerDetent
    ensures 0 <= count ==> 0 <= p
    ensures count <= 0 ==> p <= 0
  {
    if count >= 0 then count / PositionsPerDetent else -((-count) / PositionsPerDetent)
  }

  /** Turning either way by the same amount reads the same distance in detents. */
  lemma DetentsSymmetric(count: int)
    ensures Detents(-count) == -Detents(count)
  {
  }

  /** A negative half detent reads as 0, where rounding down would read -1. */
  lemma DetentsTruncate()
    ensures Detents(-1) == 0 && -1 / PositionsPerDetent == -1
  {
  }

  function Sum(xs: seq<int>): int
  {
    if |xs| == 0 then 0 else xs[0] + Sum(xs[1..])
  }

  /**
   * The changes reported by successive polls with no press pending, when
   * the position recorded before is `positionOld` and the counts at the
   * polls are `counts`.
   */
  function Changes(positionOld: int, counts: seq<int>): (cs: seq<int>)
    ensures |cs| == |counts|
    decreases |counts|
  {
    if |counts| == 0 then []
    else [Detents(counts[0]) - positionOld] + Changes(Detents(counts[0]), counts[1..])
  }

  /** The changes add up to the last position minus the one recorded before them. */
  lemma {:induction false} ChangesTelescope(positionOld: int, counts: seq<int>)
    requires |counts| > 0
    ensures Sum(Changes(positionOld, counts)) == Detents(counts[|counts| - 1]) - positionOld
    decreases |counts|
  {
    if |counts| > 1 {
      ChangesTelescope(Detents(counts[0]), counts[1..]);
    }
  }

  class Encoder {
    /** The raw count, kept by the encoder driver. */
    var count: int
    var hasPressed: bool
    var positionOld: int
    var positionOnPress: int

    /** The press flag and recorded positions start with whatever was in memory. */
    constructor (count: int, hasPressed: bool, positionOld: int, positionOnPress: int)
      ensures this.count == count && this.hasPressed == hasPressed
      ensures this.positionOld == positionOld && this.positionOnPress == positionOnPress
    {
      this.count := count;
      this.hasPressed := hasPressed;
      this.positionOld := positionOld;
      this.positionOnPress := positionOnPress;
    }

    /** The driver saw the knob turn to a new count. */
    method Turn(newCount: int)
      modifies this`count
      ensures count == newCount
    {
      count := newCount;
    }

    method GetPos() returns (p: int)
      ensures p == Detents(count)
    {
      p := Detents(count);
    }

    /** Report whether a press is pending, and clear it. */
    method HasPressed() returns (pressed: bool)
      modifies this`hasPressed
      ensures pressed == old(hasPressed) && !hasPressed
    {
      pressed := hasPressed;
      hasPressed := false;
    }

    /**
     * The change since the last poll: up to the press when one is pending,
     * up to now otherwise. The position now is recorded either way, and the
     * press stays pending.
     */
    method GetChange() returns (change: int)
      modifies this`positionOld
      ensures hasPressed ==> change == positionOnPress - old(positionOld)
      ensures !hasPressed ==> change == Detents(count) - old(positionOld)
      ensures positionOld == Detents(count)
    {
      var positionEnc := GetPos();
      var positionToUse := if hasPressed then positionOnPress else positionEnc;
      change := positionToUse - positionOld;
      positionOld := positionEnc;
    }

    /** The switch interrupt: record where the knob was and latch the press. */
    method OnPress()
      modifies this`positionOnPress, this`hasPressed
      ensures positionOnPress == Detents(count) && hasPressed
    {
      positionOnPress := GetPos();
      hasPressed := true;
    }
  }
}
