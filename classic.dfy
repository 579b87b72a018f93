/**
 * The `Classic` pattern: up to 75 warm-white dots, one per group of four
 * pixels, each lit for a random countdown. When a dot's countdown runs out
 * it is switched off and, unless the pattern is shrinking, relit nearby;
 * while shrinking the first expired dot is dropped instead.
 */
module ClassicPattern {
  import opened Pixels
  import opened Oracle
  import opened Lifecycle
  import opened Retirement

  /** The most dots a `Classic` holds: growing ends when the list has this many. */
  const CAPACITY := 75

  /** The colour of a lit dot, `Color(220, 180, 50)`. */
  const GOLD: Pixel := 0xDC_B432

  /** A lit dot: its position and the ticks it still waits before going out. */
  datatype Dot = Dot(pos: int, wait: int)

  /** A dot whose countdown has run out. */
  predicate Expired(d: Dot)
  {
    d.wait == 0
  }

  /** One tick of a dot's countdown. */
  function CountDown(d: Dot): Dot
  {
    d.(wait := d.wait - 1)
  }

  /** A dot placed by `newDot` for group `base`: in one of the four pixels of the group, with a countdown below 100. */
  predicate Placed(d: Dot, base: int)
  {
    base <= d.pos < base + 4 && 0 <= d.wait < 100
  }

  /**
   * What a growing or full step makes of dot `a` of group `base`: a dot
   * still waiting counts down; an expired one is relit, in its own pixel or
   * anywhere in its group, with a fresh countdown.
   */
  predicate Renewed(a: Dot, b: Dot, base: int)
  {
    if a.wait != 0 then b == a.(wait := a.wait - 1)
    else Placed(b, base) || (b.pos == a.pos && 0 <= b.wait < 100)
  }

  /** The first `i` dots of `olds` became the first `i` dots of `news` by `Renewed`. */
  ghost predicate RenewedUpTo(olds: seq<Dot>, news: seq<Dot>, order: seq<int>, i: int)
  {
    0 <= i <= |olds| && i <= |news| && i <= |order| &&
    forall k :: 0 <= k < i ==> Renewed(olds[k], news[k], order[k])
  }

  /** None of the first `i` dots has expired. */
  ghost predicate NoneExpiredBefore(ds: seq<Dot>, i: int)
  {
    forall k :: 0 <= k < i && k < |ds| ==> !Expired(ds[k])
  }

  /** Some dot of `ds` sits on pixel `p`. */
  ghost predicate Lit(ds: seq<Dot>, p: int)
  {
    exists k :: 0 <= k < |ds| && ds[k].pos == p
  }

  /** Some expired dot of `ds` sits on pixel `p`. */
  ghost predicate Doused(ds: seq<Dot>, p: int)
  {
    exists k :: 0 <= k < |ds| && ds[k].wait == 0 && ds[k].pos == p
  }

  /**
   * How a pixel may have changed in a growing or full step: not at all, to
   * gold where a dot now sits, or to black where an expired dot sat.
   */
  ghost predicate Explained(now: Pixel, before: Pixel, p: int, olds: seq<Dot>, news: seq<Dot>)
  {
    now == before || (now == GOLD && Lit(news, p)) || (now == BLACK && Doused(olds, p))
  }

  /** Every pixel of the strip `now`, once `before`, is `Explained` by the dot lists. */
  ghost predicate AllExplained(now: seq<Pixel>, before: seq<Pixel>, olds: seq<Dot>, news: seq<Dot>)
  {
    |now| == |before| && forall p :: 0 <= p < |now| ==> Explained(now[p], before[p], p, olds, news)
  }

  /**
   * The strip `px` after a growing or full sweep turned the dots `olds`
   * into `news`: dot by dot, in list order, an expired dot's pixel goes
   * black and its relit pixel gold; a dot still waiting writes nothing.
   */
  function Relight(px: seq<Pixel>, olds: seq<Dot>, news: seq<Dot>): (r: seq<Pixel>)
    requires |olds| == |news|
    ensures |r| == |px|
  {
    if olds == [] then px
    else
      var k := |olds| - 1;
      var before := Relight(px, olds[..k], news[..k]);
      if olds[k].wait == 0 then Put(Put(before, olds[k].pos, BLACK), news[k].pos, GOLD) else before
  }

  /** Relighting changes a pixel only to gold where a dot now sits or to black where an expired dot sat. */
  lemma {:induction false} RelightExplained(px: seq<Pixel>, olds: seq<Dot>, news: seq<Dot>)
    requires |olds| == |news|
    ensures AllExplained(Relight(px, olds, news), px, olds, news)
  {
    if olds != [] {
      var k := |olds| - 1;
      RelightExplained(px, olds[..k], news[..k]);
      ExplainedExtend(Relight(px, olds[..k], news[..k]), Relight(px, olds, news), px,
                      olds[..k], news[..k], olds[k], news[k]);
      assert olds[..k] + [olds[k]] == olds && news[..k] + [news[k]] == news;
    }
  }

  /** A relit dot shows gold unless a later expired dot switches its pixel off. */
  lemma {:induction false} RelitShowsGold(px: seq<Pixel>, olds: seq<Dot>, news: seq<Dot>, k: int)
    requires |olds| == |news| && 0 <= k < |olds| && olds[k].wait == 0 && 0 <= news[k].pos < |px|
    requires forall j :: k < j < |olds| && olds[j].wait == 0 ==> olds[j].pos != news[k].pos
    ensures Relight(px, olds, news)[news[k].pos] == GOLD
  {
    var last := |olds| - 1;
    if k < last {
      RelitShowsGold(px, olds[..last], news[..last], k);
    }
  }

  class Classic {
    /** The pixel count rounded down to a multiple of four. */
    const numPx: nat
    /** The number of groups of four pixels. */
    const groups: nat
    var state: int
    var loopCount: int
    /** `strip_order`: a shuffled `range(0, numPx, 4)`, the first pixel of every group of four. */
    var order: seq<int>
    var dots: seq<Dot>

    ghost predicate Valid()
      reads this
    {
      numPx == 4 * groups && CAPACITY <= groups && IsState(state) &&
      IsPermutationOf(order, Stride4(groups)) && |order| == groups &&
      (forall k :: 0 <= k < |order| ==> 0 <= order[k] && order[k] + 3 < numPx) &&
      Fits(dots)
    }

    /** A dot list the pattern can hold: at most 75 dots, on the strip, with countdowns not below zero. */
    ghost predicate Fits(ds: seq<Dot>)
      reads this
    {
      |ds| <= CAPACITY && forall k :: 0 <= k < |ds| ==> 0 <= ds[k].pos < numPx && 0 <= ds[k].wait
    }

    /** A shuffled group order is a valid `order`. */
    static lemma OrderFits(o: seq<int>, groups: nat)
      requires IsPermutationOf(o, Stride4(groups))
      ensures |o| == groups && forall k :: 0 <= k < |o| ==> 0 <= o[k] && o[k] + 3 < 4 * groups
    {
      StridePermutation(o, groups);
    }

    /**
     * `Classic(numPixels)`: the pixel count is rounded down to a multiple of
     * four and the order holds the group starts. The source needs at least
     * 75 groups, since a new dot takes the group at its own list index.
     */
    constructor (n: nat, rng: Rand)
      requires 4 * CAPACITY <= n
      modifies rng
      ensures Valid() && numPx == n - n % 4
      ensures state == IDLE && loopCount == 0 && IsCleared()
    {
      var m := n - n % 4;
      var discarded := rng.Shuffle(Iota(m));
      var o := rng.Shuffle(Stride4(m / 4));
      OrderFits(o, m / 4);
      numPx, groups, state, loopCount, order, dots := m, m / 4, IDLE, 0, o, [];
    }

    ghost predicate IsCleared()
      reads this
    {
      dots == []
    }

    /** `clear()`. */
    method Clear()
      requires Valid()
      modifies this
      ensures Valid() && IsCleared()
      ensures state == old(state) && loopCount == old(loopCount) && order == old(order)
    {
      dots := [];
    }

    /** `shuffle(self.strip_order)`. */
    method Reshuffle(rng: Rand)
      requires Valid()
      modifies this`order, rng
      ensures Valid()
    {
      order := rng.Shuffle(order);
      OrderFits(order, groups);
    }

    /**
     * `newDot(strip, idx)` with `ds` the current dot list: a dot in group
     * `order[idx]`, or, with probability 0.95 when `idx` names an existing
     * dot, in that dot's pixel; the pixel is lit gold and the countdown is
     * below 100.
     */
    method NewDot(ds: seq<Dot>, strip: array<Pixel>, idx: int, rng: Rand) returns (d: Dot)
      requires Valid() && Fits(ds) && 0 <= idx < |order| && strip.Length == numPx
      modifies strip, rng
      ensures Placed(d, order[idx]) || (idx < |ds| && d.pos == ds[idx].pos && 0 <= d.wait < 100)
      ensures 0 <= d.pos < numPx
      ensures strip[..] == old(strip[..])[d.pos := GOLD]
    {
      var jitter := rng.Below(100);
      var x := order[idx] + jitter % 4;
      var roll := rng.Below(100);
      if roll >= 5 && idx < |ds| {
        x := ds[idx].pos;
      }
      SetPixelColor(strip, x, GOLD);
      var w := rng.Below(100);
      d := Dot(x, w);
    }

    /** `self.dots.append(self.newDot(strip, len(self.dots)))`: a fresh dot in the next group. */
    method Spawn(strip: array<Pixel>, rng: Rand)
      requires Valid() && |dots| < CAPACITY && strip.Length == numPx
      modifies this`dots, strip, rng
      ensures Valid() && |dots| == |old(dots)| + 1 && dots[..|old(dots)|] == old(dots)
      ensures Placed(dots[|old(dots)|], order[|old(dots)|])
      ensures strip[..] == old(strip[..])[dots[|old(dots)|].pos := GOLD]
    {
      var d := NewDot(dots, strip, |dots|, rng);
      dots := dots + [d];
    }

    /**
     * One pass of `_step`'s loop over the dots, for dot `i` of `ds`: a dot
     * still waiting counts down; an expired dot goes dark and is relit by
     * `newDot` (growing or full) or dropped from the list (shrinking).
     * `gone` says whether the dot was dropped.
     */
    method Tend(ds: seq<Dot>, i: int, phase: int, strip: array<Pixel>, rng: Rand) returns (ds': seq<Dot>, gone: bool)
      requires Valid() && Fits(ds) && IsRunning(phase) && strip.Length == numPx && 0 <= i < |ds|
      modifies strip, rng
      ensures Fits(ds') && Tended(ds, ds', i, phase, order, old(strip[..]), strip[..], gone)
    {
      if ds[i].wait == 0 {
        SetPixelColor(strip, ds[i].pos, BLACK);
        if phase != SHRINKING {
          var d := NewDot(ds, strip, i, rng);
          return ds[i := d], false;
        } else {
          return ds[..i] + ds[i + 1..], true;
        }
      } else {
        return ds[i := ds[i].(wait := ds[i].wait - 1)], false;
      }
    }

    /**
     * The loop of `_step` over the dots, `Tend`ing each in turn and
     * stopping after a drop; `ds` is the resulting list.
     */
    method Sweep(phase: int, strip: array<Pixel>, rng: Rand) returns (ds: seq<Dot>, dropped: bool)
      requires Valid() && IsRunning(phase) && strip.Length == numPx
      modifies strip, rng
      ensures Fits(ds) && |strip[..]| == |old(strip[..])|
      ensures Swept(dots, ds, order, old(strip[..]), strip[..], phase)
      ensures dropped ==> phase == SHRINKING && dots != []
      ensures ds == [] && dots != [] ==> dropped
    {
      ghost var px := strip[..];
      ds := dots;
      var n := |dots|;
      var i := 0;
      dropped := false;
      while i < n && !dropped
        invariant Fits(ds) && |strip[..]| == |px|
        invariant !dropped ==> SweptTo(dots, ds, order, px, strip[..], i, phase)
        invariant dropped ==> phase == SHRINKING && dots != [] && Swept(dots, ds, order, px, strip[..], phase)
        invariant !dropped ==> |ds| == n
        decreases n - i, !dropped
      {
        ghost var mid := strip[..];
        ghost var before := ds;
        ds, dropped := Tend(ds, i, phase, strip, rng);
        if dropped {
          SweptDrop(dots, before, ds, order, px, mid, strip[..], i, phase);
        } else {
          SweepKeeps(dots, before, ds, order, px, mid, strip[..], i, phase);
          i := i + 1;
        }
      }
      if !dropped {
        SweptAll(dots, ds, order, px, strip[..], phase);
      }
    }

    /**
     * `_step(state, strip)`.
     * - growing or full: every dot counts down or, once expired, goes dark
     *   and is relit (`Renewed`); growing then adds one dot in the next
     *   group, or reports full when the list already holds 75; pixels
     *   change only where the dots say (`Explained`);
     * - shrinking: the list becomes `Retire` of itself and only the dropped
     *   dot's pixel goes dark; the step reports idle exactly when that drop
     *   empties the list, and then reshuffles the group order.
     */
    method Step(phase: int, strip: array<Pixel>, rng: Rand) returns (next: int)
      requires Valid() && IsRunning(phase) && strip.Length == numPx
      modifies this, strip, rng
      ensures Valid() && Advances(phase, next)
      ensures state == old(state) && loopCount == old(loopCount)
      ensures phase == GROWING ==> (next == FULL <==> |old(dots)| == CAPACITY)
      ensures next != IDLE ==> order == old(order)
      ensures phase != SHRINKING ==>
        order == old(order) &&
        |dots| == |old(dots)| + (if phase == GROWING && |old(dots)| < CAPACITY then 1 else 0) &&
        RenewedUpTo(old(dots), dots, order, |old(dots)|) &&
        (|dots| > |old(dots)| ==> Placed(dots[|old(dots)|], order[|old(dots)|])) &&
        strip[..] == (var lit := Relight(old(strip[..]), old(dots), dots[..|old(dots)|]);
                      if |dots| > |old(dots)| then Put(lit, dots[|old(dots)|].pos, GOLD) else lit)
      ensures phase == SHRINKING ==> dots == Retire(old(dots), Expired, CountDown)
      ensures phase == SHRINKING ==> (next == IDLE <==> old(dots) != [] && dots == [])
      ensures phase == SHRINKING ==>
        strip[..] == if FirstDone(old(dots), Expired) < |old(dots)|
                     then old(strip[..])[old(dots)[FirstDone(old(dots), Expired)].pos := BLACK]
                     else old(strip[..])
    {
      ghost var px := strip[..];
      var ds, dropped := Sweep(phase, strip, rng);
      dots := ds;
      assert phase != SHRINKING ==> dots[..|old(dots)|] == ds;
      if dropped && |dots| == 0 {
        Reshuffle(rng);
        return IDLE;
      }
      if phase == GROWING {
        if |dots| < CAPACITY {
          Spawn(strip, rng);
          assert dots[..|ds|] == ds;
        } else {
          return FULL;
        }
      }
      return phase;
    }
  }

  /**
   * The state of `_step`'s loop over the dots after `i` of them: `ds` is
   * the original list `od` with its first `i` dots `Renewed`; while
   * shrinking none of them had expired and the strip `now` is still `px`,
   * otherwise it is `px` relit by those first `i` dots.
   */
  ghost predicate SweptTo(od: seq<Dot>, ds: seq<Dot>, order: seq<int>, px: seq<Pixel>, now: seq<Pixel>,
                          i: int, phase: int)
  {
    0 <= i <= |od| == |ds| <= |order| && ds[i..] == od[i..] && RenewedUpTo(od, ds, order, i) &&
    (phase == SHRINKING ==> now == px && NoneExpiredBefore(od, i)) &&
    (phase != SHRINKING ==> now == Relight(px, od[..i], ds[..i]))
  }

  /**
   * What `_step`'s loop over the dots does to the list `od` and the strip
   * `px`: growing or full, every dot is `Renewed` and the strip is
   * `Relight`ed; shrinking, the list is `Retire`d and only the dropped
   * dot's pixel goes dark.
   */
  ghost predicate Swept(od: seq<Dot>, ds: seq<Dot>, order: seq<int>, px: seq<Pixel>, now: seq<Pixel>, phase: int)
  {
    (phase != SHRINKING ==>
      |ds| == |od| && RenewedUpTo(od, ds, order, |od|) && now == Relight(px, od, ds)) &&
    (phase == SHRINKING ==>
      ds == Retire(od, Expired, CountDown) &&
      now == if FirstDone(od, Expired) < |od| && 0 <= od[FirstDone(od, Expired)].pos < |px|
             then px[od[FirstDone(od, Expired)].pos := BLACK]
             else px)
  }

  /**
   * What one pass of the loop over the dots does to dot `i` of `ds` (the
   * list becomes `ds2`) and to the strip (`mid` becomes `now`): `gone`,
   * the dot is dropped and its pixel goes dark, which happens exactly when
   * it has expired while shrinking; otherwise it is `Renewed` in place, and
   * the strip is unchanged while it waits, and once it has expired its old
   * pixel goes black and then its new pixel gold.
   */
  ghost predicate Tended(ds: seq<Dot>, ds2: seq<Dot>, i: int, phase: int, order: seq<int>,
                         mid: seq<Pixel>, now: seq<Pixel>, gone: bool)
  {
    0 <= i < |ds| && i < |order| && |now| == |mid| &&
    (gone <==> phase == SHRINKING && ds[i].wait == 0) &&
    (gone ==> ds2 == ds[..i] + ds[i + 1..] && 0 <= ds[i].pos < |mid| && now == mid[ds[i].pos := BLACK]) &&
    (!gone ==> |ds2| == |ds| && ds2 == ds[i := ds2[i]] && Renewed(ds[i], ds2[i], order[i])) &&
    (!gone && ds[i].wait != 0 ==> now == mid) &&
    (!gone && ds[i].wait == 0 ==>
      0 <= ds[i].pos < |mid| && 0 <= ds2[i].pos < |mid| && now == mid[ds[i].pos := BLACK][ds2[i].pos := GOLD])
  }

  /** The sweep's loop invariant carries over a dot that stays in the list. */
  lemma SweepKeeps(od: seq<Dot>, before: seq<Dot>, after: seq<Dot>, order: seq<int>,
                   px: seq<Pixel>, mid: seq<Pixel>, now: seq<Pixel>, i: int, phase: int)
    requires SweptTo(od, before, order, px, mid, i, phase) && i < |od|
    requires Tended(before, after, i, phase, order, mid, now, false)
    ensures SweptTo(od, after, order, px, now, i + 1, phase)
  {
    assert before[i] == od[i] by {
      assert before[i..][0] == od[i..][0];
    }
    assert after[i + 1..] == od[i + 1..] by {
      assert after[i + 1..] == before[i..][1..] && od[i + 1..] == od[i..][1..];
    }
    if phase != SHRINKING {
      assert od[..i + 1][..i] == od[..i] && od[..i + 1][i] == od[i];
      assert after[..i + 1][..i] == before[..i] && after[..i + 1][i] == after[i];
    }
  }

  /** The sweep's result when dot `i` is dropped while shrinking. */
  lemma SweptDrop(od: seq<Dot>, before: seq<Dot>, after: seq<Dot>, order: seq<int>,
                  px: seq<Pixel>, mid: seq<Pixel>, now: seq<Pixel>, i: int, phase: int)
    requires SweptTo(od, before, order, px, mid, i, phase) && i < |od|
    requires Tended(before, after, i, phase, order, mid, now, true)
    ensures Swept(od, after, order, px, now, phase) && FirstDone(od, Expired) == i
  {
    assert before[i] == od[i] by {
      assert before[i..][0] == od[i..][0];
    }
    DropAt(od, before, i, Expired, CountDown);
  }

  /** The sweep's result when it visits every dot. */
  lemma SweptAll(od: seq<Dot>, ds: seq<Dot>, order: seq<int>, px: seq<Pixel>, now: seq<Pixel>, phase: int)
    requires SweptTo(od, ds, order, px, now, |od|, phase)
    ensures Swept(od, ds, order, px, now, phase)
  {
    assert od[..|od|] == od && ds[..|ds|] == ds;
    if phase == SHRINKING {
      NoneDone(od, ds, Expired, CountDown);
    }
  }

  /**
   * One more dot in both lists keeps every pixel explained, when the pixel
   * changed only to gold at the new dot or to black at the expired old one.
   */
  lemma ExplainedExtend(mid: seq<Pixel>, after: seq<Pixel>, px: seq<Pixel>,
                        olds: seq<Dot>, news: seq<Dot>, a: Dot, b: Dot)
    requires |mid| == |after| == |px|
    requires AllExplained(mid, px, olds, news)
    requires forall p :: 0 <= p < |px| ==>
      after[p] == mid[p] || (after[p] == GOLD && p == b.pos) || (after[p] == BLACK && a.wait == 0 && p == a.pos)
    ensures AllExplained(after, px, olds + [a], news + [b])
  {
    forall p | 0 <= p < |px|
      ensures Explained(after[p], px[p], p, olds + [a], news + [b])
    {
      if after[p] == GOLD && p == b.pos {
        assert (news + [b])[|news|].pos == p;
      } else if after[p] == BLACK && a.wait == 0 && p == a.pos {
        assert (olds + [a])[|olds|] == a;
      } else if mid[p] != px[p] {
        if mid[p] == GOLD && Lit(news, p) {
          var k :| 0 <= k < |news| && news[k].pos == p;
          assert (news + [b])[k].pos == p;
        } else {
          var k :| 0 <= k < |olds| && olds[k].wait == 0 && olds[k].pos == p;
          assert (olds + [a])[k] == olds[k];
        }
      }
    }
  }
}
