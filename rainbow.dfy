/**
 * The `Rainbow` pattern: every tick it paints the next ten positions of a
 * shuffled order with the colour wheel, shifted by a clock-derived phase;
 * while shrinking it paints them black instead, and it goes idle at the
 * start of its third black pass.
 */
module RainbowPattern {
  import opened Pixels
  import opened ColorWheel
  import opened Oracle
  import opened Lifecycle
  import opened Passes

  /** Positions painted per call (`range(10)`). */
  const PASS := 10

  /**
   * The colour `_step` gives position `pos` in phase `phase`: the wheel colour
   * of `(pos + clock) % 256`, or black while shrinking. `clock` stands for
   * `int(time() * 30)`.
   */
  function Hue(phase: int, pos: int, clock: int): Pixel
  {
    if phase != SHRINKING then Wheel((pos + clock) % 256) else BLACK
  }

  /** The colours `_step` would give every position of a strip of `n` pixels. */
  function Palette(phase: int, clock: int, n: nat): (pal: seq<Pixel>)
    ensures |pal| == n && forall k :: 0 <= k < n ==> pal[k] == Hue(phase, k, clock)
  {
    seq(n, k => Hue(phase, k, clock))
  }

  /** `px` with every position in `painted` overwritten by its palette colour. */
  function Paint(px: seq<Pixel>, painted: set<int>, pal: seq<Pixel>): (r: seq<Pixel>)
    requires |pal| == |px|
    ensures |r| == |px|
  {
    seq(|px|, k requires 0 <= k < |px| => if k in painted then pal[k] else px[k])
  }

  lemma PaintOneMore(px: seq<Pixel>, painted: set<int>, pal: seq<Pixel>, pos: int)
    requires |pal| == |px| && 0 <= pos < |px|
    ensures Paint(px, painted + {pos}, pal) == Paint(px, painted, pal)[pos := pal[pos]]
  {
  }

  /** The positions painted by the first `u` visits from index `start`. */
  ghost function Visited(order: seq<int>, start: int, u: nat): set<int>
    requires 0 < |order| && 0 <= start <= |order|
  {
    if u == 0 then {}
    else Visited(order, start, u - 1) + {order[Wrapped(Cursor(start, |order|, u - 1), |order|)]}
  }

  class Rainbow {
    const numPx: nat
    var state: int
    var loopCount: int
    var order: seq<int>
    var i: int
    /** Black passes started so far while shrinking. */
    var cleared: int
    /** Its own buffer until the first growing pass completes; the strip's pixel array after that. */
    var buff: array<Pixel>

    ghost predicate Valid()
      reads this
    {
      0 < numPx && IsPermutationOf(order, Iota(numPx)) && |order| == numPx &&
      (forall k :: 0 <= k < numPx ==> 0 <= order[k] < numPx) &&
      0 <= i <= numPx && 0 <= cleared <= 2 && buff.Length == numPx && IsState(state)
    }

    /** `Rainbow(numPixels)`: idle, cleared, with a black buffer of its own. */
    constructor (n: nat, rng: Rand)
      requires 0 < n
      modifies rng
      ensures Valid() && numPx == n && fresh(buff)
      ensures state == IDLE && loopCount == 0 && IsCleared()
      ensures buff[..] == seq(n, _ => BLACK)
    {
      var o := rng.Shuffle(Iota(n));
      o := rng.Shuffle(o);
      IotaPermutation(o, n);
      numPx, state, loopCount, order, i, cleared := n, IDLE, 0, o, 0, 0;
      buff := new Pixel[n](_ => BLACK);
    }

    ghost predicate IsCleared()
      reads this
    {
      i == 0 && cleared == 0
    }

    /** `clear()`: restart the pass and the black-pass count, reshuffle the order. */
    method Clear(rng: Rand)
      requires Valid()
      modifies this, rng
      ensures Valid() && IsCleared() && buff == old(buff)
      ensures state == old(state) && loopCount == old(loopCount)
    {
      i, cleared := 0, 0;
      order := rng.Shuffle(order);
      IotaPermutation(order, numPx);
    }

    /**
     * One visit of `_step`'s loop: wrap the pass index at the end of the
     * order (a growing pattern stops there and reports full, adopting the
     * strip's pixels as its buffer), count a new black pass when shrinking
     * (reporting idle at the third one), otherwise paint the position at the
     * current entry with its `Hue` and move on. The result is `phase` when
     * a position was painted.
     */
    method Visit(phase: int, strip: array<Pixel>, clock: int) returns (r: int)
      requires Valid() && IsRunning(phase) && strip.Length == numPx
      modifies this, buff
      ensures Valid() && state == old(state) && loopCount == old(loopCount) && order == old(order)
      ensures r == phase || (phase == GROWING && r == FULL) || (phase == SHRINKING && r == IDLE)
      ensures r == phase ==>
        buff == old(buff) && i == Wrapped(old(i), numPx) + 1 &&
        cleared == old(cleared) + (if phase == SHRINKING && Wrapped(old(i), numPx) == 0 then 1 else 0) &&
        buff[..] == old(buff[..])[order[Wrapped(old(i), numPx)] := Hue(phase, order[Wrapped(old(i), numPx)], clock)]
      ensures r == phase && phase == GROWING ==> old(i) < numPx
      ensures r != phase && phase == GROWING ==> old(i) >= numPx && buff == strip && i == 0
      ensures r != phase && phase == SHRINKING ==> buff == old(buff) && i == 0 && cleared == 0
      ensures phase == SHRINKING ==> (r == IDLE <==> Wrapped(old(i), numPx) == 0 && old(cleared) == 2)
      ensures r != phase ==> old(buff)[..] == old(buff[..])
      ensures old(buff) != strip ==> strip[..] == old(strip[..])
    {
      if i >= |order| {
        i := 0;
        if phase == GROWING {
          buff := strip;
          return FULL;
        }
      }
      if i == 0 && phase == SHRINKING {
        if cleared == 2 {
          cleared := 0;
          return IDLE;
        }
        cleared := cleared + 1;
      }
      buff[order[i]] := Hue(phase, order[i], clock);
      i := i + 1;
      return phase;
    }

    /**
     * What `t` visits from pass index `start`, with buffer `px` and
     * black-pass count `c0`, have made of the pattern: the visited positions
     * are painted, the pass index has moved on, and every pass started while
     * shrinking is counted.
     */
    ghost predicate Run(phase: int, clock: int, px: seq<Pixel>, start: int, c0: int, t: nat)
      reads this, buff
    {
      Valid() && |px| == numPx && 0 <= start <= numPx &&
      (phase == GROWING ==> i == start + t) && i == Cursor(start, numPx, t) &&
      buff[..] == Paint(px, Visited(order, start, t), Palette(phase, clock, numPx)) &&
      cleared == c0 + (if phase == SHRINKING then Starts(start, numPx, t) else 0)
    }

    /**
     * One visit of the loop of `_step`, extending a run of `t` visits:
     * either one more position is painted, or the pass has ended (growing)
     * or a third black pass has started (shrinking).
     */
    method Advance(phase: int, strip: array<Pixel>, clock: int, ghost px: seq<Pixel>, ghost start: int, ghost c0: int,
                   ghost t: nat) returns (r: int)
      requires IsRunning(phase) && strip.Length == numPx && t < PASS && Run(phase, clock, px, start, c0, t)
      modifies this, buff
      ensures Valid() && state == old(state) && loopCount == old(loopCount) && order == old(order)
      ensures r == phase || (phase == GROWING && r == FULL) || (phase == SHRINKING && r == IDLE)
      ensures r == phase ==> buff == old(buff) && Run(phase, clock, px, start, c0, t + 1)
      ensures r != phase && phase == GROWING ==> numPx - start < PASS && t == numPx - start && buff == strip && i == 0
      ensures r != phase && phase == SHRINKING ==>
        buff == old(buff) && i == 0 && cleared == 0 && c0 + Starts(start, numPx, PASS) > 2
      ensures r != phase ==> old(buff)[..] == old(buff[..])
      ensures old(buff) != strip ==> strip[..] == old(strip[..])
    {
      r := Visit(phase, strip, clock);
      if r != phase {
        if phase == SHRINKING {
          StartsGrow(start, numPx, t + 1, PASS);
        }
        return;
      }
      ghost var pos := order[Wrapped(Cursor(start, numPx, t), numPx)];
      PaintOneMore(px, Visited(order, start, t), Palette(phase, clock, numPx), pos);
    }

    /**
     * `_step(state, strip)`. It visits at most ten entries of the order,
     * wrapping from the last entry to the first, and paints each visited
     * position with its `Hue`; nothing else changes in the buffer, and the
     * strip changes only through the buffer.
     * - growing: when the pass reaches its end (fewer than ten entries were
     *   left) the call stops there, reports full and from then on paints
     *   the strip itself;
     * - full: ten positions, always;
     * - shrinking: black; it reports idle, without painting further, when
     *   a pass starts after two black passes were started.
     */
    method Step(phase: int, strip: array<Pixel>, clock: int) returns (next: int, ghost painted: nat)
      requires Valid() && IsRunning(phase) && strip.Length == numPx
      modifies this, buff
      ensures Valid() && Advances(phase, next)
      ensures state == old(state) && loopCount == old(loopCount) && order == old(order)
      ensures painted <= PASS && (painted < PASS <==> next != phase)
      ensures old(buff)[..] == Paint(old(buff[..]), Visited(order, old(i), painted), Palette(phase, clock, numPx))
      ensures old(buff) != strip ==> strip[..] == old(strip[..])
      ensures phase == GROWING ==> (next == FULL <==> numPx - old(i) < PASS)
      ensures phase == GROWING && next == FULL ==> painted == numPx - old(i) && buff == strip && i == 0
      ensures next != FULL ==> buff == old(buff)
      ensures buff == old(buff) || buff == strip
      ensures next == IDLE ==> i == 0 && cleared == 0
      ensures phase == SHRINKING ==> (next == IDLE <==> old(cleared) + Starts(old(i), numPx, PASS) > 2)
      ensures next == phase ==>
        i == Cursor(old(i), numPx, PASS) &&
        cleared == old(cleared) + (if phase == SHRINKING then Starts(old(i), numPx, PASS) else 0)
    {
      ghost var start, px, c0 := i, buff[..], cleared;
      painted := 0;
      for t := 0 to PASS
        invariant Valid() && buff == old(buff) && order == old(order)
        invariant state == old(state) && loopCount == old(loopCount)
        invariant painted == t && Run(phase, clock, px, start, c0, t)
        invariant buff != strip ==> strip[..] == old(strip[..])
      {
        var r := Advance(phase, strip, clock, px, start, c0, t);
        if r != phase {
          return r, painted;
        }
        painted := painted + 1;
      }
      return phase, painted;
    }
  }
}
