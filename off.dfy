/**
 * The `Off` pattern: it switches the strip off one pixel per tick, in a
 * shuffled sweep order, and reshuffles the order after every sweep.
 */
module OffPattern {
  import opened Pixels
  import opened Oracle
  import opened Lifecycle

  class Off {
    const numPx: nat
    var state: int
    var loopCount: int
    /** `strip_order`: a shuffled `range(numPx)`. */
    var order: seq<int>
    /** Index of the next entry of `order` to switch off. */
    var i: int

    ghost predicate Valid()
      reads this
    {
      0 < numPx && IsPermutationOf(order, Iota(numPx)) && 0 <= i <= numPx && IsState(state) &&
      |order| == numPx && forall k :: 0 <= k < numPx ==> 0 <= order[k] < numPx
    }

    /** `Off(numPixels)`: idle, a freshly shuffled order, cleared. */
    constructor (n: nat, rng: Rand)
      requires 0 < n
      modifies rng
      ensures Valid() && numPx == n
      ensures state == IDLE && loopCount == 0 && IsCleared()
    {
      var o := rng.Shuffle(Iota(n));
      IotaPermutation(o, n);
      numPx, state, loopCount, order, i := n, IDLE, 0, o, 0;
    }

    /** What `clear()` establishes: the next sweep starts at the beginning of the order. */
    ghost predicate IsCleared()
      reads this
    {
      i == 0
    }

    /** `clear()`. */
    method Clear()
      requires Valid()
      modifies this
      ensures Valid() && IsCleared()
      ensures state == old(state) && loopCount == old(loopCount) && order == old(order)
    {
      i := 0;
    }

    /**
     * `_step(state, strip)`. While the sweep is not over, exactly the pixel
     * `order[i]` is switched off and `i` moves on; once all `numPx` entries
     * are done, the next call restarts the sweep with a reshuffled order and
     * ends the growing phase (full) or the shrinking phase (idle) without
     * writing; in the full phase it goes straight on with the new sweep.
     */
    method Step(phase: int, strip: array<Pixel>, rng: Rand) returns (next: int)
      requires Valid() && IsRunning(phase) && strip.Length == numPx
      modifies this, strip, rng
      ensures Valid() && Advances(phase, next)
      ensures state == old(state) && loopCount == old(loopCount)
      ensures old(i) < numPx ==>
        next == phase && i == old(i) + 1 && order == old(order) &&
        strip[..] == old(strip[..])[old(order)[old(i)] := BLACK]
      ensures old(i) == numPx && phase != FULL ==>
        next == (if phase == GROWING then FULL else IDLE) && i == 0 &&
        strip[..] == old(strip[..])
      ensures old(i) == numPx && phase == FULL ==>
        next == FULL && i == 1 && strip[..] == old(strip[..])[order[0] := BLACK]
    {
      if i >= |order| {
        i := 0;
        order := rng.Shuffle(order);
        IotaPermutation(order, numPx);
        if phase == GROWING {
          return FULL;
        } else if phase == SHRINKING {
          return IDLE;
        }
      }
      SetPixelColor(strip, order[i], BLACK);
      i := i + 1;
      return phase;
    }
  }

  /** The strip after switching off the first `k` entries of a sweep order. */
  function SweepPrefix(px: seq<Pixel>, order: seq<int>, k: nat): seq<Pixel>
    requires k <= |order|
  {
    if k == 0 then px
    else
      var s := SweepPrefix(px, order, k - 1);
      if 0 <= order[k - 1] < |s| then s[order[k - 1] := BLACK] else s
  }

  /** After `k` calls a pixel is off exactly when it is among the first `k` entries, and otherwise unchanged. */
  lemma {:induction false} SweepPrefixAt(px: seq<Pixel>, order: seq<int>, k: nat)
    requires k <= |order|
    ensures |SweepPrefix(px, order, k)| == |px|
    ensures forall x :: 0 <= x < |px| ==>
      SweepPrefix(px, order, k)[x] == if x in order[..k] then BLACK else px[x]
  {
    if k > 0 {
      SweepPrefixAt(px, order, k - 1);
      assert order[..k] == order[..k - 1] + [order[k - 1]];
    }
  }

  /**
   * One full sweep switches the whole strip off: after `numPx` calls from
   * `i == 0` every pixel is black, because the sweep order is a permutation
   * of the strip's positions.
   */
  lemma {:induction false} SweepSwitchesAllOff(px: seq<Pixel>, order: seq<int>)
    requires |order| == |px| && IsPermutationOf(order, Iota(|px|))
    ensures SweepPrefix(px, order, |px|) == seq(|px|, _ => BLACK)
  {
    IotaPermutation(order, |px|);
    SweepPrefixAt(px, order, |px|);
    assert order[..|px|] == order;
  }

  /**
   * Growing from a cleared `Off`: the first `numPx` calls switch off
   * `order[0]`, `order[1]`, ... one per call and stay growing, leaving the
   * whole strip black; the call after them reports full.
   */
  method GrowToFull(off: Off, strip: array<Pixel>, rng: Rand) returns (next: int)
    requires off.Valid() && off.IsCleared() && strip.Length == off.numPx
    modifies off, strip, rng
    ensures off.Valid() && next == FULL && off.i == 0
    ensures strip[..] == seq(strip.Length, _ => BLACK)
  {
    ghost var order := off.order;
    ghost var px := strip[..];
    var k := 0;
    while k < off.numPx
      invariant off.Valid() && 0 <= k <= off.numPx && off.i == k && off.order == order
      invariant strip[..] == SweepPrefix(px, order, k)
    {
      var s := off.Step(GROWING, strip, rng);
      assert s == GROWING;
      k := k + 1;
    }
    SweepSwitchesAllOff(px, order);
    next := off.Step(GROWING, strip, rng);
  }
}
