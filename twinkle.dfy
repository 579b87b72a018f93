/**
 * The `Twinkle` pattern: up to 50 stars, each brightening from black
 * towards white and then dimming back to black, after which it moves to a
 * new position and rises again; while shrinking, the first star to reach
 * black is taken out of the list instead.
 */
module TwinklePattern {
  import opened Pixels
  import opened Oracle
  import opened Lifecycle
  import opened Retirement

  /** The most stars a `Twinkle` holds: growing ends when the list has this many. */
  const CAPACITY := 50

  /** A new star is added on every fourth tick while growing. */
  const SPAWN_EVERY := 4

  /** The largest brightening step of one channel in one tick: `int(random() ** 3 * 25)` is at most 24. */
  const BOOST: bv8 := 24

  /** A star: its pixel, whether it is brightening, and its red, green and blue channels. */
  datatype Star = Star(pos: int, rising: bool, red: bv8, green: bv8, blue: bv8)

  /** A star the pattern can hold: on the strip. */
  predicate Shaped(s: Star, numPx: int)
  {
    0 <= s.pos < numPx
  }

  predicate Dark(s: Star) { s.red == 0 && s.green == 0 && s.blue == 0 }

  predicate White(s: Star) { s.red == 255 && s.green == 255 && s.blue == 255 }

  /** A star that has dimmed all the way to black. */
  predicate Out(s: Star) { !s.rising && Dark(s) }

  /** A new star: rising from black at a pixel of the strip. */
  predicate Newborn(s: Star, numPx: int) { s.rising && Dark(s) && 0 <= s.pos < numPx }

  /** One brightening step of a channel: up by at most `BOOST` (so never past 255). */
  predicate Brighter(c: bv8, c2: bv8) { c <= c2 && c2 - c <= BOOST }

  /** One dimming step of a channel: nine tenths, rounded down. */
  function Dim(c: bv8): (d: bv8)
    ensures d <= c && (d == c <==> c == 0)
  {
    ((c as bv16) * 9 / 10) as bv8
  }

  /**
   * What one tick does to a star that stays in the list: a dark dimming
   * star moves to a new pixel and starts rising, a dimming star dims, a
   * white rising star turns to dimming, and any other rising star
   * brightens on every channel.
   */
  predicate Twinkled(a: Star, b: Star, numPx: int)
  {
    if Out(a) then Newborn(b, numPx)
    else if !a.rising then
      b == a.(red := Dim(a.red), green := Dim(a.green), blue := Dim(a.blue))
    else if White(a) then b == a.(rising := false)
    else b.pos == a.pos && b.rising && Brighter(a.red, b.red) && Brighter(a.green, b.green) && Brighter(a.blue, b.blue)
  }

  /** The colour a star shows. */
  function Shade(s: Star): Pixel
  {
    Color(s.red, s.green, s.blue)
  }

  /** The strip after each star of `ss`, in order, writes its colour at its pixel. */
  function Show(px: seq<Pixel>, ss: seq<Star>, numPx: int): (r: seq<Pixel>)
    requires forall k :: 0 <= k < |ss| ==> Shaped(ss[k], numPx)
    ensures |r| == |px|
  {
    if ss == [] then px
    else
      var last := ss[|ss| - 1];
      assert Shaped(last, numPx);
      Put(Show(px, ss[..|ss| - 1], numPx), last.pos, Shade(last))
  }

  /** The strip a star shows on: a pixel no star of `ss` sits on keeps its colour. */
  lemma {:induction false} ShowLeavesUnlit(px: seq<Pixel>, ss: seq<Star>, numPx: int, q: int)
    requires forall k :: 0 <= k < |ss| ==> Shaped(ss[k], numPx)
    requires 0 <= q < |px| && forall k :: 0 <= k < |ss| ==> ss[k].pos != q
    ensures Show(px, ss, numPx)[q] == px[q]
  {
    if ss != [] {
      ShowLeavesUnlit(px, ss[..|ss| - 1], numPx, q);
    }
  }

  /** The last star of `ss` on a pixel decides its colour. */
  lemma {:induction false} ShowLastWins(px: seq<Pixel>, ss: seq<Star>, numPx: int, k: int)
    requires forall j :: 0 <= j < |ss| ==> Shaped(ss[j], numPx)
    requires 0 <= k < |ss| && ss[k].pos < |px| && forall j :: k < j < |ss| ==> ss[j].pos != ss[k].pos
    ensures Show(px, ss, numPx)[ss[k].pos] == Shade(ss[k])
  {
    if k < |ss| - 1 {
      ShowLastWins(px, ss[..|ss| - 1], numPx, k);
    }
  }

  /**
   * `list.remove(x)`: the first element EQUAL to `x` is taken out, which
   * need not be the element that was visited.
   */
  function RemoveFirst(ss: seq<Star>, x: Star): (r: seq<Star>)
    ensures x in ss ==> |r| == |ss| - 1
    ensures x !in ss ==> r == ss
  {
    if ss == [] then []
    else
      assert ss == [ss[0]] + ss[1..];
      if ss[0] == x then ss[1..] else [ss[0]] + RemoveFirst(ss[1..], x)
  }

  /**
   * `list.remove(x)` takes out the FIRST element equal to `x`, the one at
   * `j`, and keeps the others in their order.
   */
  lemma {:induction false} RemoveFirstSplits(ss: seq<Star>, x: Star, j: int)
    requires 0 <= j < |ss| && ss[j] == x && forall k :: 0 <= k < j ==> ss[k] != x
    ensures RemoveFirst(ss, x) == ss[..j] + ss[j + 1..]
  {
    if j > 0 {
      var tail := ss[1..];
      assert forall k :: 0 <= k < j - 1 ==> tail[k] != x;
      RemoveFirstSplits(tail, x, j - 1);
      calc {
        RemoveFirst(ss, x);
      ==  { assert ss[0] != x; }
        [ss[0]] + RemoveFirst(tail, x);
      ==
        [ss[0]] + (tail[..j - 1] + tail[j..]);
      ==  { assert ss[..j] == [ss[0]] + tail[..j - 1]; assert ss[j + 1..] == tail[j..]; }
        ss[..j] + ss[j + 1..];
      }
    }
  }

  /** `list.remove(x)` takes out exactly one element equal to `x` and keeps every other one. */
  lemma {:induction false} RemoveFirstTakesOne(ss: seq<Star>, x: Star)
    requires x in ss
    ensures multiset(RemoveFirst(ss, x)) == multiset(ss) - multiset{x}
  {
    assert ss == [ss[0]] + ss[1..];
    if ss[0] != x {
      assert x in ss[1..];
      RemoveFirstTakesOne(ss[1..], x);
    }
  }

  /** Removing a star keeps every remaining star `Shaped`. */
  lemma {:induction false} RemoveKeepsShape(ss: seq<Star>, x: Star, numPx: int)
    requires AllShaped(ss, numPx)
    ensures AllShaped(RemoveFirst(ss, x), numPx)
  {
    if ss != [] && ss[0] != x {
      RemoveKeepsShape(ss[1..], x, numPx);
    }
  }

  /** The first `i` stars of `olds` became the first `i` of `news` by `Twinkled`. */
  ghost predicate TwinkledUpTo(olds: seq<Star>, news: seq<Star>, numPx: int, i: int)
  {
    0 <= i <= |olds| && i <= |news| && forall k :: 0 <= k < i ==> Twinkled(olds[k], news[k], numPx)
  }

  ghost predicate AllShaped(ss: seq<Star>, numPx: int)
  {
    forall k :: 0 <= k < |ss| ==> Shaped(ss[k], numPx)
  }

  /**
   * The state of `_step`'s loop over the stars after `i` of them: `ss` is
   * `os` with its first `i` stars `Twinkled` (none of them out while
   * shrinking), and the strip shows those `i` stars over `px`.
   */
  ghost predicate ShoneTo(os: seq<Star>, ss: seq<Star>, px: seq<Pixel>, now: seq<Pixel>,
                          numPx: int, i: int, phase: int)
  {
    0 <= i <= |os| == |ss| && ss[i..] == os[i..] && AllShaped(ss, numPx) &&
    TwinkledUpTo(os, ss, numPx, i) &&
    (phase == SHRINKING ==> forall k :: 0 <= k < i ==> !Out(os[k])) &&
    now == Show(px, ss[..i], numPx)
  }

  /**
   * The pass that ends in a removal: star `i` of `os`, the first one out,
   * is removed (by value) from `mid`, which holds the stars before it
   * `Twinkled`; the strip shows those stars only.
   */
  ghost predicate Faded(os: seq<Star>, mid: seq<Star>, ss: seq<Star>, px: seq<Pixel>, now: seq<Pixel>,
                        numPx: int, i: int)
  {
    0 <= i < |os| == |mid| && mid[i..] == os[i..] && AllShaped(mid, numPx) &&
    TwinkledUpTo(os, mid, numPx, i) &&
    ss == RemoveFirst(mid, os[i]) &&
    now == Show(px, mid[..i], numPx)
  }

  /**
   * What `_step`'s loop over the stars does, `mid` being the list as it
   * stood before a removal: while shrinking with a star out, it is `Faded`
   * at the first such star; otherwise no star is removed (`ss` is `mid`),
   * every star is `Twinkled` and the strip shows them all in list order.
   */
  ghost predicate Shone(os: seq<Star>, mid: seq<Star>, ss: seq<Star>, px: seq<Pixel>, now: seq<Pixel>,
                        numPx: int, phase: int)
  {
    var i := FirstDone(os, Out);
    (phase == SHRINKING && i < |os| ==> Faded(os, mid, ss, px, now, numPx, i)) &&
    (phase != SHRINKING || i == |os| ==>
      ss == mid && |ss| == |os| && AllShaped(ss, numPx) && TwinkledUpTo(os, ss, numPx, |os|) &&
      now == Show(px, ss, numPx))
  }

  /**
   * What one pass of the loop does to star `i` of `ss` (the list becomes
   * `ss2`, the strip `mid` becomes `now`): while shrinking an out star is
   * removed by value (`dropped`) and nothing is written; otherwise the star
   * is `Twinkled` and shows its new colour at its (new) pixel.
   */
  ghost predicate Shining(ss: seq<Star>, ss2: seq<Star>, i: int, phase: int, numPx: int,
                          mid: seq<Pixel>, now: seq<Pixel>, dropped: bool)
  {
    0 <= i < |ss| &&
    (dropped <==> phase == SHRINKING && Out(ss[i])) &&
    (dropped ==> ss2 == RemoveFirst(ss, ss[i]) && now == mid) &&
    (!dropped ==>
      |ss2| == |ss| && ss2 == ss[i := ss2[i]] && Twinkled(ss[i], ss2[i], numPx) &&
      Shaped(ss2[i], numPx) && now == Put(mid, ss2[i].pos, Shade(ss2[i])))
  }

  class Twinkle {
    const numPx: nat
    var state: int
    var loopCount: int
    /** `strip_order` of the base pattern: shuffled, never used by this pattern. */
    var order: seq<int>
    var stars: seq<Star>

    ghost predicate Valid()
      reads this
    {
      numPx > 0 && IsState(state) && Fits(stars)
    }

    /** A star list the pattern can hold: at most 50 stars, each `Shaped`. */
    predicate Fits(ss: seq<Star>)
    {
      |ss| <= CAPACITY && forall k :: 0 <= k < |ss| ==> Shaped(ss[k], numPx)
    }

    /**
     * `Twinkle(numPixels)`: idle and cleared. A strip of no pixels is
     * refused: a dark star's new pixel is drawn modulo the pixel count.
     */
    constructor (n: nat, rng: Rand)
      requires n > 0
      modifies rng
      ensures Valid() && numPx == n
      ensures state == IDLE && loopCount == 0 && IsCleared()
    {
      var o := rng.Shuffle(Iota(n));
      numPx, state, loopCount, order, stars := n, IDLE, 0, o, [];
    }

    ghost predicate IsCleared()
      reads this
    {
      stars == []
    }

    /** `clear()`. */
    method Clear()
      requires Valid()
      modifies this
      ensures Valid() && IsCleared()
      ensures state == old(state) && loopCount == old(loopCount)
    {
      stars := [];
    }

    /** `min(255, int(c + random() ** 3 * 25))`: the increment drawn is some value 0..24. */
    static method Brighten(c: bv8, rng: Rand) returns (c2: bv8)
      modifies rng
      ensures Brighter(c, c2)
    {
      var d := rng.Below(BOOST as nat + 1);
      var step := d as bv8;
      c2 := if c as bv16 + step as bv16 > 255 then 255 else c + step;
    }

    /** The new state of star `s` in one tick, when it stays in the list. */
    method Turn(s: Star, rng: Rand) returns (s': Star)
      requires Shaped(s, numPx)
      modifies rng
      ensures Shaped(s', numPx) && Twinkled(s, s', numPx)
    {
      if !s.rising {
        if Dark(s) {
          var idx := rng.Below(900);
          s' := Star(idx % numPx, true, s.red, s.green, s.blue);
        } else {
          s' := s.(red := Dim(s.red), green := Dim(s.green), blue := Dim(s.blue));
        }
      } else if White(s) {
        s' := s.(rising := false);
      } else {
        var r := Brighten(s.red, rng);
        var g := Brighten(s.green, rng);
        var b := Brighten(s.blue, rng);
        s' := s.(red := r, green := g, blue := b);
      }
    }

    /**
     * One pass of `_step`'s loop over the stars, for star `i` of `ss` when
     * it stays in the list: the loop's state after `i` stars of `os`
     * becomes its state after `i + 1`.
     */
    method Shine(ghost os: seq<Star>, ghost px: seq<Pixel>, ss: seq<Star>, i: int, phase: int,
                 strip: array<Pixel>, rng: Rand)
      returns (ss': seq<Star>)
      requires Fits(ss) && IsRunning(phase) && strip.Length == numPx
      requires ShoneTo(os, ss, px, strip[..], numPx, i, phase) && i < |os|
      requires !(phase == SHRINKING && Out(ss[i]))
      modifies strip, rng
      ensures Fits(ss') && ShoneTo(os, ss', px, strip[..], numPx, i + 1, phase)
    {
      ghost var now := strip[..];
      var s := Turn(ss[i], rng);
      SetPixelColor(strip, s.pos, Shade(s));
      ss' := ss[i := s];
      ShineKeeps(os, ss, ss', px, now, strip[..], numPx, i, phase);
    }

    /**
     * The loop of `_step` over the stars: it stops at the first star out
     * while shrinking and removes it (`dropped`); `ss` is the resulting
     * list and `mid` the list as it stood before the removal.
     */
    method Sweep(phase: int, strip: array<Pixel>, rng: Rand) returns (ss: seq<Star>, dropped: bool, ghost mid: seq<Star>)
      requires Valid() && IsRunning(phase) && strip.Length == numPx
      modifies strip, rng
      ensures Fits(ss) && Shone(stars, mid, ss, old(strip[..]), strip[..], numPx, phase)
      ensures dropped ==> phase == SHRINKING && stars != []
      ensures !dropped ==> |ss| == |stars|
    {
      ghost var px := strip[..];
      ss := stars;
      var n := |stars|;
      var i := 0;
      ShineStart(stars, px, numPx, phase);
      while i < n && !(phase == SHRINKING && Out(ss[i]))
        invariant Fits(ss) && ShoneTo(stars, ss, px, strip[..], numPx, i, phase)
        decreases n - i
      {
        ss := Shine(stars, px, ss, i, phase, strip, rng);
        i := i + 1;
      }
      mid := ss;
      dropped := i < n;
      if dropped {
        RemoveKeepsShape(ss, ss[i], numPx);
        ss := RemoveFirst(ss, ss[i]);
        ShineDrop(stars, mid, ss, px, strip[..], numPx, i);
      } else {
        ShineAll(stars, ss, px, strip[..], numPx, phase);
      }
    }

    /**
     * `_step(state, strip)`.
     * - growing or full, or shrinking with no star out: every star is
     *   `Twinkled` and the strip shows the stars in list order; growing
     *   then adds a new star on every fourth tick, or reports full once
     *   the list holds 50;
     * - shrinking with a star out: the first such star is removed (by
     *   value), the stars before it are `Twinkled` and shown, and the step
     *   reports idle exactly when the list becomes empty.
     */
    method Step(phase: int, strip: array<Pixel>, rng: Rand) returns (next: int, ghost mid: seq<Star>)
      requires Valid() && IsRunning(phase) && strip.Length == numPx
      modifies this, strip, rng
      ensures Valid() && Advances(phase, next)
      ensures state == old(state) && loopCount == old(loopCount)
      ensures phase == GROWING ==> (next == FULL <==> |old(stars)| == CAPACITY)
      ensures phase == SHRINKING ==>
        Shone(old(stars), mid, stars, old(strip[..]), strip[..], numPx, phase) &&
        (next == IDLE <==> old(stars) != [] && stars == [])
      ensures phase != SHRINKING ==>
        Shone(old(stars), mid, mid, old(strip[..]), strip[..], numPx, phase) &&
        |mid| <= |stars| && stars[..|mid|] == mid &&
        |stars| == |old(stars)| + (if phase == GROWING && |old(stars)| < CAPACITY && loopCount % SPAWN_EVERY == 0 then 1 else 0) &&
        (|stars| > |old(stars)| ==> Newborn(stars[|old(stars)|], numPx))
    {
      var ss, dropped;
      ss, dropped, mid := Sweep(phase, strip, rng);
      stars := ss;
      if dropped && |stars| == 0 {
        return IDLE, mid;
      }
      if phase == GROWING {
        if |stars| < CAPACITY {
          if loopCount % SPAWN_EVERY == 0 {
            var p := rng.Below(numPx);
            stars := stars + [Star(p, true, 0, 0, 0)];
          }
        } else {
          return FULL, mid;
        }
      }
      return phase, mid;
    }
  }

  /** The sweep's loop invariant holds before the first star. */
  lemma ShineStart(os: seq<Star>, px: seq<Pixel>, numPx: int, phase: int)
    requires AllShaped(os, numPx)
    ensures ShoneTo(os, os, px, px, numPx, 0, phase)
  {
    assert os[..0] == [];
  }

  /** The sweep's loop invariant carries over a star that stays in the list. */
  lemma ShineKeeps(os: seq<Star>, before: seq<Star>, after: seq<Star>, px: seq<Pixel>,
                   mid: seq<Pixel>, now: seq<Pixel>, numPx: int, i: int, phase: int)
    requires ShoneTo(os, before, px, mid, numPx, i, phase) && i < |os| && AllShaped(after, numPx)
    requires Shining(before, after, i, phase, numPx, mid, now, false)
    ensures ShoneTo(os, after, px, now, numPx, i + 1, phase)
  {
    assert before[i] == os[i] by {
      assert before[i..][0] == os[i..][0];
    }
    assert after[i + 1..] == os[i + 1..] by {
      assert after[i + 1..] == before[i..][1..] && os[i + 1..] == os[i..][1..];
    }
    assert after[..i + 1][..i] == before[..i];
  }

  /** The sweep's result when star `i`, out, is removed while shrinking. */
  lemma ShineDrop(os: seq<Star>, mid: seq<Star>, ss: seq<Star>, px: seq<Pixel>, now: seq<Pixel>, numPx: int, i: int)
    requires ShoneTo(os, mid, px, now, numPx, i, SHRINKING) && i < |os|
    requires Out(mid[i]) && ss == RemoveFirst(mid, mid[i])
    ensures Shone(os, mid, ss, px, now, numPx, SHRINKING)
  {
    assert mid[i] == os[i] by {
      assert mid[i..][0] == os[i..][0];
    }
    FirstDoneAt(os, Out, i);
  }

  /** The sweep's result when it visits every star. */
  lemma ShineAll(os: seq<Star>, ss: seq<Star>, px: seq<Pixel>, now: seq<Pixel>, numPx: int, phase: int)
    requires ShoneTo(os, ss, px, now, numPx, |os|, phase)
    ensures Shone(os, ss, ss, px, now, numPx, phase)
    ensures phase == SHRINKING ==> FirstDone(os, Out) == |os|
  {
    assert ss[..|os|] == ss;
    if phase == SHRINKING {
      FirstDoneNone(os, Out);
    }
  }
}
