/**
 * The `Candycane` pattern: up to 20 red or white stripes slide along the
 * strip. Each tick every stripe moves forward by its speed, one pixel at a
 * time, lighting its leading edge and darkening its trailing edge; a stripe
 * whose trailing edge has left the strip is replaced by a new one at the
 * start, or, while shrinking, the first such stripe is dropped.
 */
module CandycanePattern {
  import opened Pixels
  import opened Oracle
  import opened Lifecycle
  import opened Retirement

  /** The most stripes a `Candycane` holds: growing ends when the list has this many. */
  const CAPACITY := 20

  /** A new stripe is added on every fifth tick while growing. */
  const SPAWN_EVERY := 5

  /** Extra pixels per tick every stripe moves while shrinking. */
  const HURRY := 2

  /** `Color(255, 0, 0)` and `Color(255, 255, 255)`. */
  const RED: Pixel := 0xFF_0000
  const WHITE: Pixel := 0xFF_FFFF

  /** A stripe: the pixel at its centre, its radius, its speed in pixels per tick, its colour. */
  datatype Stripe = Stripe(pos: int, radius: int, speed: int, color: Pixel)

  /** What `newStripe` produces: radius 2..6, speed 1..3, red or white, centred one radius before pixel 0. */
  predicate Fresh(s: Stripe)
  {
    2 <= s.radius <= 6 && 1 <= s.speed <= 3 && s.pos == -s.radius && (s.color == RED || s.color == WHITE)
  }

  /** The shape every stripe keeps: a fresh stripe's radius, speed and colour. */
  predicate Shaped(s: Stripe)
  {
    2 <= s.radius <= 6 && 1 <= s.speed <= 3 && (s.color == RED || s.color == WHITE)
  }

  /** A stripe whose trailing edge has passed the end of a strip of `numPx` pixels. */
  function Gone(numPx: int): Stripe -> bool
  {
    (s: Stripe) => s.pos - s.radius > numPx
  }

  /** The pixels a stripe moves in one tick: its speed, plus `HURRY` while shrinking. */
  function Stride(s: Stripe, phase: int): int
  {
    s.speed + (if phase == SHRINKING then HURRY else 0)
  }

  /** A stripe moved forward by its stride. */
  function Shift(phase: int): Stripe -> Stripe
  {
    (s: Stripe) => s.(pos := s.pos + Stride(s, phase))
  }

  /**
   * One pixel of movement of a stripe centred at `p`: its leading edge
   * (capped at `numPx`) takes its colour, then its trailing edge (not
   * below 0) goes dark.
   */
  function Wipe(px: seq<Pixel>, s: Stripe, p: int, numPx: int): seq<Pixel>
  {
    Put(Put(px, Min(numPx, p + s.radius), s.color), Max(0, p - s.radius), BLACK)
  }

  function Min(a: int, b: int): int { if a < b then a else b }
  function Max(a: int, b: int): int { if a < b then b else a }

  /** The strip after stripe `s` moves `n` pixels from its current centre. */
  function Trail(px: seq<Pixel>, s: Stripe, n: nat, numPx: int): (r: seq<Pixel>)
    ensures |r| == |px|
  {
    if n == 0 then px else Wipe(Trail(px, s, n - 1, numPx), s, s.pos + n - 1, numPx)
  }

  /**
   * Moving a stripe writes only inside the band it sweeps, from its first
   * trailing edge to its last leading edge, both clamped to pixel 0 (a
   * stripe still left of the strip darkens pixel 0).
   */
  lemma {:induction false} TrailStaysInBand(px: seq<Pixel>, s: Stripe, n: nat, numPx: int, q: int)
    requires 0 <= q < |px| == numPx && s.radius >= 0
    requires q < Max(0, s.pos - s.radius) || q > Max(0, s.pos + n - 1 + s.radius)
    ensures Trail(px, s, n, numPx)[q] == px[q]
  {
    if n > 0 {
      var p := s.pos + n - 1;
      TrailStaysInBand(px, s, n - 1, numPx, q);
      assert q != Min(numPx, p + s.radius) && q != Max(0, p - s.radius);
    }
  }

  /**
   * After moving, a stripe's last leading edge shows its colour and its
   * last trailing edge is dark (when the leading edge is past pixel 0 and
   * on the strip).
   */
  lemma TrailEdges(px: seq<Pixel>, s: Stripe, n: nat, numPx: int)
    requires n > 0 && s.radius > 0
    requires 0 < s.pos + n - 1 + s.radius < numPx && numPx <= |px|
    ensures Trail(px, s, n, numPx)[s.pos + n - 1 + s.radius] == s.color
    ensures s.pos + n - 1 - s.radius < |px| ==> Trail(px, s, n, numPx)[Max(0, s.pos + n - 1 - s.radius)] == BLACK
  {
  }

  /** The strip after the stripes of `ss` take their turns in order; a gone stripe does not paint. */
  function Render(px: seq<Pixel>, ss: seq<Stripe>, phase: int, numPx: int): (r: seq<Pixel>)
    ensures |r| == |px|
  {
    if ss == [] then px
    else
      var last := ss[|ss| - 1];
      var before := Render(px, ss[..|ss| - 1], phase, numPx);
      if Gone(numPx)(last) then before
      else Trail(before, last, if Stride(last, phase) < 0 then 0 else Stride(last, phase), numPx)
  }

  /**
   * What a growing or full tick makes of stripe `a`: a gone stripe is
   * replaced by a fresh one, any other moves forward by its speed.
   */
  predicate Rolled(a: Stripe, b: Stripe, numPx: int)
  {
    if Gone(numPx)(a) then Fresh(b) else b == Shift(FULL)(a)
  }

  /** The first `i` stripes of `olds` became the first `i` of `news` by `Rolled`. */
  ghost predicate RolledUpTo(olds: seq<Stripe>, news: seq<Stripe>, numPx: int, i: int)
  {
    0 <= i <= |olds| && i <= |news| && forall k :: 0 <= k < i ==> Rolled(olds[k], news[k], numPx)
  }

  /** None of the first `i` stripes is gone. */
  ghost predicate NoneGoneBefore(ss: seq<Stripe>, numPx: int, i: int)
  {
    forall k :: 0 <= k < i && k < |ss| ==> !Gone(numPx)(ss[k])
  }

  /**
   * The state of `_step`'s loop over the stripes after `i` of them: `ss`
   * is `os` with its first `i` stripes `Rolled` (none of them gone while
   * shrinking, where they move by their stride instead), and the strip is
   * the `Render` of those `i` stripes over `px`.
   */
  ghost predicate RolledTo(os: seq<Stripe>, ss: seq<Stripe>, px: seq<Pixel>, now: seq<Pixel>,
                           numPx: int, i: int, phase: int)
  {
    0 <= i <= |os| == |ss| && ss[i..] == os[i..] &&
    (phase != SHRINKING ==> RolledUpTo(os, ss, numPx, i)) &&
    (phase == SHRINKING ==>
      NoneGoneBefore(os, numPx, i) && forall k :: 0 <= k < i ==> ss[k] == Shift(phase)(os[k])) &&
    now == Render(px, os[..i], phase, numPx)
  }

  /**
   * What `_step`'s loop over the stripes does to the list `os` and the
   * strip `px`: growing or full, every stripe is `Rolled` and the strip is
   * their `Render`; shrinking, the list is `Retire`d (stripes move by their
   * stride, the first gone one is dropped) and the strip is the `Render` of
   * the stripes before the dropped one.
   */
  ghost predicate Swept(os: seq<Stripe>, ss: seq<Stripe>, px: seq<Pixel>, now: seq<Pixel>, numPx: int, phase: int)
  {
    (phase != SHRINKING ==>
      |ss| == |os| && RolledUpTo(os, ss, numPx, |os|) && now == Render(px, os, phase, numPx)) &&
    (phase == SHRINKING ==>
      ss == Retire(os, Gone(numPx), Shift(phase)) &&
      now == Render(px, os[..FirstDone(os, Gone(numPx))], phase, numPx))
  }

  /**
   * What one pass of the loop does to stripe `i` of `ss` (the list becomes
   * `ss2`, the strip `mid` becomes `now`): a gone stripe is dropped while
   * shrinking (`dropped`) and replaced by a fresh one otherwise, leaving
   * the strip alone; any other stripe moves by its stride and paints its
   * `Trail`.
   */
  ghost predicate Rolling(ss: seq<Stripe>, ss2: seq<Stripe>, i: int, phase: int, numPx: int,
                          mid: seq<Pixel>, now: seq<Pixel>, dropped: bool)
  {
    0 <= i < |ss| &&
    (dropped <==> phase == SHRINKING && Gone(numPx)(ss[i])) &&
    (dropped ==> ss2 == ss[..i] + ss[i + 1..] && now == mid) &&
    (!dropped ==> |ss2| == |ss| && ss2 == ss[i := ss2[i]]) &&
    (!dropped && Gone(numPx)(ss[i]) ==> Fresh(ss2[i]) && now == mid) &&
    (!Gone(numPx)(ss[i]) ==>
      ss2[i] == Shift(phase)(ss[i]) && Stride(ss[i], phase) >= 0 &&
      now == Trail(mid, ss[i], Stride(ss[i], phase), numPx))
  }

  class Candycane {
    const numPx: nat
    var state: int
    var loopCount: int
    /** `strip_order` of the base pattern: shuffled, never used by this pattern. */
    var order: seq<int>
    var stripes: seq<Stripe>

    ghost predicate Valid()
      reads this
    {
      IsState(state) && Fits(stripes)
    }

    /** A stripe list the pattern can hold: at most 20 stripes, each `Shaped`. */
    predicate Fits(ss: seq<Stripe>)
    {
      |ss| <= CAPACITY && forall k :: 0 <= k < |ss| ==> Shaped(ss[k])
    }

    /** `Candycane(numPixels)`: idle and cleared. */
    constructor (n: nat, rng: Rand)
      modifies rng
      ensures Valid() && numPx == n
      ensures state == IDLE && loopCount == 0 && IsCleared()
    {
      var o := rng.Shuffle(Iota(n));
      numPx, state, loopCount, order, stripes := n, IDLE, 0, o, [];
    }

    ghost predicate IsCleared()
      reads this
    {
      stripes == []
    }

    /** `clear()`. */
    method Clear()
      requires Valid()
      modifies this
      ensures Valid() && IsCleared()
      ensures state == old(state) && loopCount == old(loopCount)
    {
      stripes := [];
    }

    /**
     * `newStripe()`: radius `int(random() * 5) + 2`; speed
     * `int(random() * 2 + 0.5) + 1`, which is `(u + 1) / 2 + 1` for
     * `u = int(random() * 4)`; red when `random() < 0.5`, else white.
     */
    static method NewStripe(rng: Rand) returns (s: Stripe)
      modifies rng
      ensures Fresh(s)
    {
      var r := rng.Below(5);
      var u := rng.Below(4);
      var c := rng.Below(2);
      var radius: int := r + 2;
      s := Stripe(-radius, radius, (u + 1) / 2 + 1, if c == 0 then RED else WHITE);
    }

    /**
     * `for speed in range(n)` for one stripe: `n` times, light the leading
     * edge, darken the trailing edge, move one pixel.
     */
    method Glide(s: Stripe, n: nat, strip: array<Pixel>) returns (s': Stripe)
      requires strip.Length == numPx
      modifies strip
      ensures s' == s.(pos := s.pos + n)
      ensures strip[..] == Trail(old(strip[..]), s, n, numPx)
    {
      s' := s;
      for k := 0 to n
        invariant s' == s.(pos := s.pos + k)
        invariant strip[..] == Trail(old(strip[..]), s, k, numPx)
      {
        SetPixelColor(strip, Min(numPx, s'.pos + s'.radius), s'.color);
        SetPixelColor(strip, Max(0, s'.pos - s'.radius), BLACK);
        s' := s'.(pos := s'.pos + 1);
      }
    }

    /** One pass of `_step`'s loop over the stripes, for stripe `i` of `ss`. */
    method Roll(ss: seq<Stripe>, i: int, phase: int, strip: array<Pixel>, rng: Rand)
      returns (ss': seq<Stripe>, dropped: bool)
      requires Fits(ss) && IsRunning(phase) && strip.Length == numPx && 0 <= i < |ss|
      modifies strip, rng
      ensures Fits(ss') && Rolling(ss, ss', i, phase, numPx, old(strip[..]), strip[..], dropped)
    {
      if ss[i].pos - ss[i].radius > numPx {
        if phase != SHRINKING {
          var s := NewStripe(rng);
          return ss[i := s], false;
        } else {
          return ss[..i] + ss[i + 1..], true;
        }
      } else {
        var s := Glide(ss[i], ss[i].speed + (if phase == SHRINKING then HURRY else 0), strip);
        return ss[i := s], false;
      }
    }

    /** The loop of `_step` over the stripes, stopping after a drop; `ss` is the resulting list. */
    method Sweep(phase: int, strip: array<Pixel>, rng: Rand) returns (ss: seq<Stripe>, dropped: bool)
      requires Valid() && IsRunning(phase) && strip.Length == numPx
      modifies strip, rng
      ensures Fits(ss) && Swept(stripes, ss, old(strip[..]), strip[..], numPx, phase)
      ensures dropped ==> phase == SHRINKING && stripes != []
      ensures ss == [] && stripes != [] ==> dropped
    {
      ghost var px := strip[..];
      ss := stripes;
      var n := |stripes|;
      var i := 0;
      dropped := false;
      assert stripes[..0] == [];
      while i < n && !dropped
        invariant Fits(ss)
        invariant !dropped ==> RolledTo(stripes, ss, px, strip[..], numPx, i, phase)
        invariant dropped ==> phase == SHRINKING && stripes != [] && Swept(stripes, ss, px, strip[..], numPx, phase)
        invariant !dropped ==> |ss| == n
        decreases n - i, !dropped
      {
        ghost var mid := strip[..];
        ghost var before := ss;
        ss, dropped := Roll(ss, i, phase, strip, rng);
        if dropped {
          RollDrop(stripes, before, ss, px, mid, strip[..], numPx, i, phase);
        } else {
          RollKeeps(stripes, before, ss, px, mid, strip[..], numPx, i, phase);
          i := i + 1;
        }
      }
      if !dropped {
        RollAll(stripes, ss, px, strip[..], numPx, phase);
      }
    }

    /**
     * `_step(state, strip)`.
     * - growing or full: every stripe is `Rolled` and the strip shows their
     *   `Render`; growing then adds a fresh stripe on every fifth tick, or
     *   reports full once the list holds 20;
     * - shrinking: the list is `Retire`d (each stripe moving two pixels
     *   more than its speed), the strip shows the `Render` of the stripes
     *   before the dropped one, and the step reports idle exactly when that
     *   drop empties the list.
     */
    method Step(phase: int, strip: array<Pixel>, rng: Rand) returns (next: int)
      requires Valid() && IsRunning(phase) && strip.Length == numPx
      modifies this, strip, rng
      ensures Valid() && Advances(phase, next)
      ensures state == old(state) && loopCount == old(loopCount)
      ensures phase == GROWING ==> (next == FULL <==> |old(stripes)| == CAPACITY)
      ensures phase != SHRINKING ==>
        |stripes| == |old(stripes)| +
          (if phase == GROWING && |old(stripes)| < CAPACITY && loopCount % SPAWN_EVERY == 0 then 1 else 0) &&
        RolledUpTo(old(stripes), stripes, numPx, |old(stripes)|) &&
        (|stripes| > |old(stripes)| ==> Fresh(stripes[|old(stripes)|])) &&
        strip[..] == Render(old(strip[..]), old(stripes), phase, numPx)
      ensures phase == SHRINKING ==>
        stripes == Retire(old(stripes), Gone(numPx), Shift(phase)) &&
        (next == IDLE <==> old(stripes) != [] && stripes == []) &&
        strip[..] == Render(old(strip[..]), old(stripes)[..FirstDone(old(stripes), Gone(numPx))], phase, numPx)
    {
      var ss, dropped := Sweep(phase, strip, rng);
      stripes := ss;
      if dropped && |stripes| == 0 {
        return IDLE;
      }
      if phase == GROWING {
        if |stripes| < CAPACITY {
          if loopCount % SPAWN_EVERY == 0 {
            var s := NewStripe(rng);
            stripes := stripes + [s];
          }
        } else {
          return FULL;
        }
      }
      return phase;
    }
  }

  /** The sweep's loop invariant carries over a stripe that stays in the list. */
  lemma RollKeeps(os: seq<Stripe>, before: seq<Stripe>, after: seq<Stripe>, px: seq<Pixel>,
                  mid: seq<Pixel>, now: seq<Pixel>, numPx: int, i: int, phase: int)
    requires RolledTo(os, before, px, mid, numPx, i, phase) && i < |os|
    requires Rolling(before, after, i, phase, numPx, mid, now, false)
    ensures RolledTo(os, after, px, now, numPx, i + 1, phase)
  {
    assert before[i] == os[i] by {
      assert before[i..][0] == os[i..][0];
    }
    assert after[i + 1..] == os[i + 1..] by {
      assert after[i + 1..] == before[i..][1..] && os[i + 1..] == os[i..][1..];
    }
    assert os[..i + 1][..i] == os[..i];
  }

  /** The sweep's result when stripe `i` is dropped while shrinking. */
  lemma RollDrop(os: seq<Stripe>, before: seq<Stripe>, after: seq<Stripe>, px: seq<Pixel>,
                 mid: seq<Pixel>, now: seq<Pixel>, numPx: int, i: int, phase: int)
    requires RolledTo(os, before, px, mid, numPx, i, phase) && i < |os|
    requires Rolling(before, after, i, phase, numPx, mid, now, true)
    ensures Swept(os, after, px, now, numPx, phase)
  {
    assert before[i] == os[i] by {
      assert before[i..][0] == os[i..][0];
    }
    DropAt(os, before, i, Gone(numPx), Shift(phase));
  }

  /** The sweep's result when it visits every stripe. */
  lemma RollAll(os: seq<Stripe>, ss: seq<Stripe>, px: seq<Pixel>, now: seq<Pixel>, numPx: int, phase: int)
    requires RolledTo(os, ss, px, now, numPx, |os|, phase)
    ensures Swept(os, ss, px, now, numPx, phase)
  {
    assert os[..|os|] == os;
    if phase == SHRINKING {
      NoneDone(os, ss, Gone(numPx), Shift(phase));
    }
  }
}
