/**
 * `Wind` and `Fairy`: patterns whose drawing is computed in floating point.
 * The catalog still holds them, so the tick steps them and the commands
 * reach them; what they draw is not modelled. Their step keeps the one
 * thing the tick relies on: it may end the growing phase (full) or the
 * shrinking phase (idle), and does so when the pattern's own list of
 * elements says so, which is drawn here from the random source.
 */
module UnmodelledPattern {
  import opened Pixels
  import opened Oracle
  import opened Lifecycle

  class Unmodelled {
    const numPx: nat
    var state: int
    var loopCount: int

    ghost predicate Valid()
      reads this
    {
      IsState(state)
    }

    /** `Wind(numPixels)` or `Fairy(numPixels)`: idle. */
    constructor (n: nat)
      ensures Valid() && numPx == n
      ensures state == IDLE && loopCount == 0
    {
      numPx, state, loopCount := n, IDLE, 0;
    }

    /** `clear()`: empties the element list, which is not modelled. */
    method Clear()
      requires Valid()
      modifies this
      ensures Valid() && state == old(state) && loopCount == old(loopCount)
    {
    }

    /**
     * `_step(state, strip)`: a full pattern stays full; a growing one
     * becomes full, and a shrinking one idle, when its element list is
     * full or empty, which the random source decides here.
     */
    method Step(phase: int, strip: array<Pixel>, rng: Rand) returns (next: int)
      requires Valid() && IsRunning(phase) && strip.Length == numPx
      modifies rng
      ensures Advances(phase, next)
      ensures phase == FULL ==> next == FULL
    {
      next := phase;
      if phase != FULL {
        var d := rng.Below(2);
        if d == 0 {
          next := if phase == GROWING then FULL else IDLE;
        }
      }
    }
  }
}
