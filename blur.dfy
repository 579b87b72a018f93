/**
 * The `Blur` pattern: once growing has adopted the strip's pixels as its
 * buffer, every tick it visits the next forty positions of a shuffled
 * order and replaces each by the average of its two neighbours (the strip
 * is a ring), then repaints its coloured dots, adds or renews a dot every
 * tenth tick and splashes a four-pixel burst of a wheel colour every
 * thirtieth; while shrinking it paints the visited positions black and goes
 * idle at the start of its third black pass.
 */
module BlurPattern {
  import opened Pixels
  import opened ColorWheel
  import opened Oracle
  import opened Lifecycle
  import opened Passes

  /** Positions visited per call (`range(40)`). */
  const PASS := 40

  /** The most dots: one is added every tenth tick until there are this many. */
  const DOTS := 10

  /** Dots are added and renewed on every tenth tick. */
  const DOT_EVERY := 10

  /** A burst is splashed on every thirtieth tick. */
  const BURST_EVERY := 30

  /** The pixels a burst covers. */
  const BURST := 4

  /** The base colour may change on every hundredth tick. */
  const BASE_EVERY := 100

  /** The hues of new dots lie this far at most past the base colour. */
  const TINT := 40

  /** The neighbour before `p` on a ring of `n` pixels: index -1 is the last pixel. */
  function Left(p: int, n: int): (q: int)
    requires 0 <= p < n
    ensures 0 <= q < n && (p == 0 ==> q == n - 1) && (p > 0 ==> q == p - 1)
  {
    if p == 0 then n - 1 else p - 1
  }

  /** The neighbour after `p` on a ring of `n` pixels: `(p + 1) % n`. */
  function Right(p: int, n: int): (q: int)
    requires 0 <= p < n
    ensures 0 <= q < n && (p == n - 1 ==> q == 0) && (p < n - 1 ==> q == p + 1)
  {
    (p + 1) % n
  }

  /**
   * What one visit of `_step`'s loop does to the buffer at position `p`:
   * the neighbour average while growing or full, black while shrinking.
   */
  function Touch(px: seq<Pixel>, p: int, phase: int): (r: seq<Pixel>)
    requires 0 <= p < |px|
    ensures |r| == |px|
  {
    px[p := if phase == SHRINKING then BLACK else Mix(px[Left(p, |px|)], px[Right(p, |px|)])]
  }

  /** The buffer after visiting the positions of `ps` in order. */
  function Blurred(px: seq<Pixel>, ps: seq<int>, phase: int): (r: seq<Pixel>)
    requires forall k :: 0 <= k < |ps| ==> 0 <= ps[k] < |px|
    ensures |r| == |px|
  {
    if ps == [] then px else Touch(Blurred(px, ps[..|ps| - 1], phase), ps[|ps| - 1], phase)
  }

  /** A visit averages the two neighbours channel by channel, rounding down. */
  lemma TouchAverages(px: seq<Pixel>, p: int)
    requires 0 <= p < |px|
    ensures var c := Touch(px, p, FULL)[p];
      var c0 := px[Left(p, |px|)];
      var c2 := px[Right(p, |px|)];
      Red(c) == (Red(c0) + Red(c2)) / 2 && Green(c) == (Green(c0) + Green(c2)) / 2 &&
      Blue(c) == (Blue(c0) + Blue(c2)) / 2
  {
  }

  /** Blurring over one more position touches that position last. */
  lemma BlurredOn(px: seq<Pixel>, ps: seq<int>, p: int, phase: int)
    requires forall k :: 0 <= k < |ps| ==> 0 <= ps[k] < |px|
    requires 0 <= p < |px|
    ensures Blurred(px, ps + [p], phase) == Touch(Blurred(px, ps, phase), p, phase)
  {
    assert (ps + [p])[..|ps|] == ps;
  }

  /** A buffer of a single colour is left as it is by blurring. */
  lemma {:induction false} BlurredKeepsUniform(px: seq<Pixel>, ps: seq<int>, c: Pixel)
    requires forall k :: 0 <= k < |ps| ==> 0 <= ps[k] < |px|
    requires forall k :: 0 <= k < |px| ==> px[k] == c
    ensures Blurred(px, ps, FULL) == px
  {
    if ps != [] {
      BlurredKeepsUniform(px, ps[..|ps| - 1], c);
      MixIdempotent(c);
    }
  }

  /** While shrinking, a visited position is black and an unvisited one keeps its colour. */
  lemma {:induction false} BlurredFadesOut(px: seq<Pixel>, ps: seq<int>, q: int)
    requires forall k :: 0 <= k < |ps| ==> 0 <= ps[k] < |px|
    requires 0 <= q < |px|
    ensures Blurred(px, ps, SHRINKING)[q] == if q in ps then BLACK else px[q]
  {
    if ps != [] {
      BlurredFadesOut(px, ps[..|ps| - 1], q);
      assert q in ps <==> q in ps[..|ps| - 1] || q == ps[|ps| - 1] by {
        assert ps == ps[..|ps| - 1] + [ps[|ps| - 1]];
      }
    }
  }

  /**
   * The positions a run of visits has read, starting at index `start` of
   * the order `o0`, when the order is now `o` and the pass index `c`: the
   * entries of `o0` from `start` up to its end, and the entries of `o`
   * before `c` for the visits since the last reshuffle.
   */
  ghost predicate Walked(o0: seq<int>, start: int, visited: seq<int>, o: seq<int>, c: int)
  {
    0 < |o0| == |o| && 0 <= start <= |o0| && c == Cursor(start, |o0|, |visited|) &&
    (start + |visited| <= |o0| ==> o == o0 && c == start + |visited|) &&
    (forall k :: 0 <= k < |visited| && start + k < |o0| ==> visited[k] == o0[start + k]) &&
    (c <= |visited| ==> visited[|visited| - c..] == o[..c])
  }

  /** A run that stays inside one pass visits a stretch of the order, in order. */
  lemma WalkedInsidePass(o0: seq<int>, start: int, visited: seq<int>, o: seq<int>, c: int)
    requires Walked(o0, start, visited, o, c) && start + |visited| <= |o0|
    ensures visited == o0[start..start + |visited|]
  {
    forall k | 0 <= k < |visited|
      ensures visited[k] == o0[start..start + |visited|][k]
    {
    }
  }

  /** One more visit: the order is reshuffled only at the end of a pass, and the entry at the wrapped index is read. */
  lemma WalkOn(o0: seq<int>, start: int, visited: seq<int>, o: seq<int>, c: int, o2: seq<int>, pos: int)
    requires Walked(o0, start, visited, o, c) && |o2| == |o0|
    requires c < |o0| ==> o2 == o
    requires pos == o2[Wrapped(c, |o0|)]
    ensures Walked(o0, start, visited + [pos], o2, Wrapped(c, |o0|) + 1)
  {
    var t, n := |visited|, |o0|;
    StretchOn(o0, start, visited, pos);
    if c < n {
      TailOn(visited, o, c, pos);
    } else {
      assert (visited + [pos])[t..] == [pos] && o2[..1] == [o2[0]];
    }
  }

  /** The visits of a run that read the first order, one visit later. */
  lemma StretchOn(o0: seq<int>, start: int, visited: seq<int>, pos: int)
    requires 0 <= start && forall k :: 0 <= k < |visited| && start + k < |o0| ==> visited[k] == o0[start + k]
    requires start + |visited| < |o0| ==> pos == o0[start + |visited|]
    ensures forall k :: 0 <= k <= |visited| && start + k < |o0| ==> (visited + [pos])[k] == o0[start + k]
  {
    forall k | 0 <= k <= |visited| && start + k < |o0|
      ensures (visited + [pos])[k] == o0[start + k]
    {
      if k < |visited| {
        assert (visited + [pos])[k] == visited[k];
      }
    }
  }

  /** The visits of a run since the last reshuffle, one visit later inside the same pass. */
  lemma TailOn(visited: seq<int>, o: seq<int>, c: int, pos: int)
    requires 0 <= c < |o| && pos == o[c]
    requires c <= |visited| ==> visited[|visited| - c..] == o[..c]
    ensures c + 1 <= |visited| + 1 ==> (visited + [pos])[|visited| - c..] == o[..c + 1]
  {
    if c <= |visited| {
      assert (visited + [pos])[|visited| - c..] == visited[|visited| - c..] + [pos];
      assert o[..c + 1] == o[..c] + [o[c]];
    }
  }

  /** A dot: its pixel and its colour. */
  datatype Dot = Dot(pos: int, color: Pixel)

  /** `int(ch * bri)` for a brightness `bri = k / 256`: never more than `ch`. */
  function Scale(ch: int, k: int): (r: int)
    requires 0 <= ch < 256 && 0 <= k < 256
    ensures 0 <= r <= ch
  {
    assert ch * k <= ch * 256;
    ch * k / 256
  }

  /** A colour dimmed to brightness `k / 256`: `wheel(pos, bri)` is `wheel(pos)` dimmed channel by channel. */
  function Dimmed(p: Pixel, k: int): Pixel
    requires 0 <= k < 256
  {
    Color(Scale(Red(p) as int, k) as bv8, Scale(Green(p) as int, k) as bv8, Scale(Blue(p) as int, k) as bv8)
  }

  /** A dot colour: the wheel colour `j` steps past the base colour, dimmed to brightness `k / 256`. */
  predicate Tint(c: Pixel, base: int, j: int, k: int)
  {
    0 <= base < 256 && 0 <= j < TINT && 0 <= k < 256 && c == Dimmed(Wheel((base + j) % 256), k)
  }

  /** The buffer after every dot, in order, paints its colour at its pixel. */
  function Stamp(px: seq<Pixel>, ds: seq<Dot>): (r: seq<Pixel>)
    ensures |r| == |px|
  {
    if ds == [] then px else Put(Stamp(px, ds[..|ds| - 1]), ds[|ds| - 1].pos, ds[|ds| - 1].color)
  }

  /** The buffer after a burst of colour `c` over the four pixels from `j`; no burst when `j` is negative. */
  function Burst(px: seq<Pixel>, j: int, c: Pixel): (r: seq<Pixel>)
    ensures |r| == |px|
  {
    if j < 0 then px else Put(Put(Put(Put(px, j, c), j + 1, c), j + 2, c), j + 3, c)
  }

  /**
   * A run of visits `visited` from pass index `start` of order `o0`, over
   * buffer contents `px` and with `c0` black passes started, has left the
   * buffer contents `now`, the order `o`, the pass index `c` and the count
   * `cl`.
   */
  ghost predicate Ran(phase: int, px: seq<Pixel>, o0: seq<int>, start: int, c0: int, visited: seq<int>,
                      now: seq<Pixel>, o: seq<int>, c: int, cl: int)
  {
    |px| == |o0| && 0 <= start <= |o0| && 0 < |o0| &&
    (forall k :: 0 <= k < |visited| ==> 0 <= visited[k] < |px|) &&
    now == Blurred(px, visited, phase) && Walked(o0, start, visited, o, c) &&
    cl == c0 + (if phase == SHRINKING then Starts(start, |o0|, |visited|) else 0)
  }

  /** One more visit, at the entry the pass index points to (after a wrap, of the new order), extends a run. */
  lemma RanOn(phase: int, px: seq<Pixel>, o0: seq<int>, start: int, c0: int, visited: seq<int>,
              now: seq<Pixel>, o: seq<int>, c: int, cl: int, o2: seq<int>, pos: int)
    requires Ran(phase, px, o0, start, c0, visited, now, o, c, cl)
    requires |o2| == |o0| && (c < |o0| ==> o2 == o) && pos == o2[Wrapped(c, |o0|)] && 0 <= pos < |px|
    ensures Ran(phase, px, o0, start, c0, visited + [pos], Touch(now, pos, phase), o2, Wrapped(c, |o0|) + 1,
                cl + (if phase == SHRINKING && Wrapped(c, |o0|) == 0 then 1 else 0))
  {
    WalkOn(o0, start, visited, o, c, o2, pos);
    BlurredOn(px, visited, pos, phase);
  }

  class Blur {
    const numPx: nat
    var state: int
    var loopCount: int
    var order: seq<int>
    var i: int
    /** Black passes started so far while shrinking. */
    var cleared: int
    /** The hue new dots are tinted from. */
    var baseC: int
    var dots: seq<Dot>
    /** Its own buffer until growing completes; the strip's pixel array after that. */
    var buff: array<Pixel>

    ghost predicate Valid()
      reads this
    {
      BURST < numPx && IsPermutationOf(order, Iota(numPx)) && |order| == numPx &&
      (forall k :: 0 <= k < numPx ==> 0 <= order[k] < numPx) &&
      0 <= i <= numPx && 0 <= cleared <= 2 && buff.Length == numPx && IsState(state) &&
      0 <= baseC < 256 && Placed(dots)
    }

    /** Dots the pattern can hold: at most ten, each on the strip. */
    predicate Placed(ds: seq<Dot>)
    {
      |ds| <= DOTS && forall k :: 0 <= k < |ds| ==> 0 <= ds[k].pos < numPx
    }

    /**
     * `Blur(numPixels)`: idle, cleared, with a black buffer of its own. A
     * strip of four pixels or fewer is refused: a burst's start is drawn
     * modulo `numPx - 4`.
     */
    constructor (n: nat, rng: Rand)
      requires BURST < n
      modifies rng
      ensures Valid() && numPx == n && fresh(buff)
      ensures state == IDLE && loopCount == 0 && IsCleared()
      ensures buff[..] == seq(n, _ => BLACK)
    {
      var o := rng.Shuffle(Iota(n));
      var b := rng.Below(1024);
      o := rng.Shuffle(Iota(n));
      IotaPermutation(o, n);
      numPx, state, loopCount, order, i, cleared, baseC, dots := n, IDLE, 0, o, 0, 0, b % 256, [];
      buff := new Pixel[n](_ => BLACK);
    }

    ghost predicate IsCleared()
      reads this
    {
      i == 0 && cleared == 0 && dots == []
    }

    /** `clear()`: restart the pass and the black-pass count, draw a new base colour, drop the dots. */
    method Clear(rng: Rand)
      requires Valid()
      modifies this, rng
      ensures Valid() && IsCleared() && buff == old(buff) && order == old(order)
      ensures state == old(state) && loopCount == old(loopCount)
    {
      var b := rng.Below(1024);
      i, cleared, baseC, dots := 0, 0, b % 256, [];
    }

    /** `shuffle(self.strip_order)` at the end of a pass. */
    method Reshuffle(rng: Rand)
      requires Valid()
      modifies this`order, rng
      ensures Valid()
    {
      order := rng.Shuffle(order);
      IotaPermutation(order, numPx);
    }

    /**
     * One visit of `_step`'s loop: wrap the pass index at the end of the
     * order (reshuffling it), count a new black pass when shrinking
     * (reporting idle at the third one), otherwise `Touch` the position at
     * the current entry, reported as `pos`, and move on. The result is
     * `phase` when a position was touched.
     */
    method Visit(phase: int, rng: Rand) returns (r: int, ghost pos: int)
      requires Valid() && (phase == FULL || phase == SHRINKING)
      modifies this`i, this`cleared, this`order, buff, rng
      ensures Valid()
      ensures r == phase || (phase == SHRINKING && r == IDLE)
      ensures r == phase ==>
        pos == order[Wrapped(old(i), numPx)] && i == Wrapped(old(i), numPx) + 1 &&
        cleared == old(cleared) + (if phase == SHRINKING && Wrapped(old(i), numPx) == 0 then 1 else 0) &&
        buff[..] == Touch(old(buff[..]), pos, phase)
      ensures old(i) < numPx ==> order == old(order)
      ensures r != phase ==> buff[..] == old(buff[..]) && i == 0 && cleared == 0
      ensures phase == SHRINKING ==> (r == IDLE <==> Wrapped(old(i), numPx) == 0 && old(cleared) == 2)
    {
      if i >= |order| {
        i := 0;
        Reshuffle(rng);
      }
      if i == 0 && phase == SHRINKING {
        if cleared == 2 {
          cleared := 0;
          return IDLE, -1;
        }
        cleared := cleared + 1;
      }
      var p := order[i];
      if phase != SHRINKING {
        buff[p] := Mix(buff[Left(p, numPx)], buff[Right(p, numPx)]);
      } else {
        buff[p] := BLACK;
      }
      i := i + 1;
      return phase, p;
    }

    /**
     * `newDot()`: a pixel `int(random() * 900) % numPx` and the wheel colour
     * `int(random() * 40)` steps past the base colour at a drawn brightness.
     */
    method NewDot(rng: Rand) returns (d: Dot, ghost j: int, ghost k: int)
      requires 0 < numPx && 0 <= baseC < 256
      modifies rng
      ensures 0 <= d.pos < numPx && Tint(d.color, baseC, j, k)
    {
      var p := rng.Below(900);
      var hue := rng.Below(TINT);
      var bri := rng.Below(256);
      d := Dot(p % numPx, Dimmed(Wheel((baseC + hue) % 256), bri));
      j, k := hue, bri;
    }

    /** `for t in self.dots: self.buff[t[0]] = t[1]`. */
    method Repaint()
      requires Valid()
      modifies buff
      ensures buff[..] == Stamp(old(buff[..]), dots)
    {
      ghost var px := buff[..];
      for t := 0 to |dots|
        invariant buff[..] == Stamp(px, dots[..t])
      {
        SetPixelColor(buff, dots[t].pos, dots[t].color);
        assert dots[..t + 1][..t] == dots[..t];
      }
      assert dots[..|dots|] == dots;
    }

    /**
     * Every tenth tick: a new dot is appended while there are fewer than
     * ten, then the dot at `int(random() * 1000) % len(dots)`, reported as
     * `renewed`, is replaced by a new one.
     */
    method Renew(rng: Rand) returns (ghost renewed: int)
      requires 0 < numPx && 0 <= baseC < 256 && Placed(dots)
      modifies this`dots, rng
      ensures Placed(dots)
      ensures loopCount % DOT_EVERY != 0 ==> dots == old(dots)
      ensures loopCount % DOT_EVERY == 0 ==>
        |dots| == (if |old(dots)| < DOTS then |old(dots)| + 1 else |old(dots)|) && 0 <= renewed < |dots| &&
        (forall k :: 0 <= k < |old(dots)| && k != renewed ==> dots[k] == old(dots)[k])
    {
      renewed := 0;
      if |dots| < DOTS && loopCount % DOT_EVERY == 0 {
        var d, _, _ := NewDot(rng);
        dots := dots + [d];
      }
      if loopCount % DOT_EVERY == 0 {
        var r := rng.Below(1000);
        var k := r % |dots|;
        var d, _, _ := NewDot(rng);
        dots := dots[k := d];
        renewed := k;
      }
    }

    /**
     * Every thirtieth tick: the wheel colour `int(random() * 1024) % 256`,
     * reported as `hue`, covers the four pixels from
     * `int(random() * 900) % (numPx - 4)`, reported as `burst` (-1 on other
     * ticks).
     */
    method Splash(rng: Rand) returns (ghost burst: int, ghost hue: int)
      requires Valid()
      modifies buff, rng
      ensures 0 <= hue < 256 && burst < numPx - BURST && (burst >= 0 <==> loopCount % BURST_EVERY == 0)
      ensures buff[..] == Burst(old(buff[..]), burst, Wheel(hue))
    {
      burst, hue := -1, 0;
      if loopCount % BURST_EVERY == 0 {
        var h := rng.Below(1024);
        var j := rng.Below(900);
        var c := Wheel(h % 256);
        var at := j % (numPx - BURST);
        SetPixelColor(buff, at, c);
        SetPixelColor(buff, at + 1, c);
        SetPixelColor(buff, at + 2, c);
        SetPixelColor(buff, at + 3, c);
        hue, burst := h % 256, at;
      }
    }

    /** Every hundredth tick, with chance `random() < 0.1`: a new base colour `int(random() * 1024) % 256`. */
    method Rebase(rng: Rand)
      requires Valid()
      modifies this`baseC, rng
      ensures Valid()
      ensures loopCount % BASE_EVERY != 0 ==> baseC == old(baseC)
    {
      if loopCount % BASE_EVERY == 0 {
        var roll := rng.Below(10);
        if roll == 0 {
          var b := rng.Below(1024);
          baseC := b % 256;
        }
      }
    }

    /**
     * The decorations of a full tick, after the blur pass, in the order
     * `_step` makes them: `Repaint`, `Renew`, `Splash`, `Rebase`.
     */
    method Decorate(rng: Rand) returns (ghost burst: int, ghost hue: int, ghost renewed: int)
      requires Valid()
      modifies this`dots, this`baseC, buff, rng
      ensures Valid()
      ensures 0 <= hue < 256 && burst < numPx - BURST && (burst >= 0 <==> loopCount % BURST_EVERY == 0)
      ensures buff[..] == Burst(Stamp(old(buff[..]), old(dots)), burst, Wheel(hue))
      ensures loopCount % DOT_EVERY != 0 ==> dots == old(dots)
      ensures loopCount % DOT_EVERY == 0 ==>
        |dots| == (if |old(dots)| < DOTS then |old(dots)| + 1 else |old(dots)|) && 0 <= renewed < |dots| &&
        (forall k :: 0 <= k < |old(dots)| && k != renewed ==> dots[k] == old(dots)[k])
      ensures loopCount % BASE_EVERY != 0 ==> baseC == old(baseC)
    {
      Repaint();
      renewed := Renew(rng);
      burst, hue := Splash(rng);
      Rebase(rng);
    }

    /**
     * What a run of `visited` visits that started with buffer `px`, order
     * `o0`, pass index `start` and black-pass count `c0` has made of the
     * pattern: the buffer is `Blurred` over the visited positions, which are
     * the `Walked` ones, and every pass started while shrinking is counted.
     */
    ghost predicate Run(phase: int, px: seq<Pixel>, o0: seq<int>, start: int, c0: int, visited: seq<int>)
      reads this, buff
    {
      numPx == |o0| && Ran(phase, px, o0, start, c0, visited, buff[..], order, i, cleared)
    }

    /**
     * One visit of the loop of `_step`, extending the run `visited`: either
     * one more position is visited, or the pattern, shrinking, reports idle
     * because the run has started a third black pass.
     */
    method Advance(phase: int, rng: Rand, ghost px: seq<Pixel>, ghost o0: seq<int>, ghost start: int, ghost c0: int,
                   ghost visited: seq<int>) returns (r: int, ghost visited': seq<int>)
      requires Valid() && (phase == FULL || phase == SHRINKING) && |visited| < PASS
      requires Run(phase, px, o0, start, c0, visited)
      modifies this`i, this`cleared, this`order, buff, rng
      ensures Valid()
      ensures r == phase || (phase == SHRINKING && r == IDLE)
      ensures r == phase ==>
        |visited'| == |visited| + 1 && visited'[..|visited|] == visited && Run(phase, px, o0, start, c0, visited')
      ensures r != phase ==>
        visited' == visited && buff[..] == old(buff[..]) && i == 0 && cleared == 0 &&
        c0 + Starts(start, numPx, PASS) > 2
    {
      ghost var o, c := order, i;
      ghost var pos;
      r, pos := Visit(phase, rng);
      if r != phase {
        StartsGrow(start, numPx, |visited| + 1, PASS);
        return r, visited;
      }
      RanOn(phase, px, o0, start, c0, visited, old(buff[..]), o, c, old(cleared), order, pos);
      visited' := visited + [pos];
      assert visited'[..|visited|] == visited;
    }

    /**
     * The loop of `_step` over `range(40)`, full or shrinking: the positions
     * it visits, reported as `visited`, are the entries of the order from
     * the pass index on, then, once the order is used up and reshuffled,
     * the entries of the new order from its start. It stops early, reporting
     * idle, only while shrinking, when a pass starts after two black passes
     * were started.
     */
    method Pass(phase: int, rng: Rand) returns (next: int, ghost visited: seq<int>)
      requires Valid() && (phase == FULL || phase == SHRINKING)
      modifies this`i, this`cleared, this`order, buff, rng
      ensures Valid()
      ensures next == phase || (phase == SHRINKING && next == IDLE)
      ensures |visited| <= PASS && (next == phase <==> |visited| == PASS)
      ensures forall k :: 0 <= k < |visited| ==> 0 <= visited[k] < numPx
      ensures buff[..] == Blurred(old(buff[..]), visited, phase)
      ensures forall k :: 0 <= k < |visited| && old(i) + k < numPx ==> visited[k] == old(order)[old(i) + k]
      ensures next == phase ==>
        Walked(old(order), old(i), visited, order, i) &&
        cleared == old(cleared) + (if phase == SHRINKING then Starts(old(i), numPx, PASS) else 0)
      ensures next == IDLE ==> i == 0 && cleared == 0
      ensures phase == SHRINKING ==> (next == IDLE <==> old(cleared) + Starts(old(i), numPx, PASS) > 2)
    {
      ghost var px, start, o0, c0 := buff[..], i, order, cleared;
      visited := [];
      for t := 0 to PASS
        invariant Valid() && |visited| == t
        invariant Run(phase, px, o0, start, c0, visited)
      {
        var r;
        r, visited := Advance(phase, rng, px, o0, start, c0, visited);
        if r != phase {
          return r, visited;
        }
      }
      return phase, visited;
    }

    /**
     * What one `_step` in phase `phase`, returning `next`, has made of a
     * pattern whose pass index, order, black-pass count, dots, base colour,
     * buffer and buffer contents were `i0`, `order0`, `cleared0`, `dots0`,
     * `baseC0`, `buff0` and `px0`; `visited` are the positions visited,
     * `burst` the first splashed pixel (negative when none), `hue` the
     * splash's hue and `renewed` the replaced dot.
     * - growing: the strip becomes the buffer and the step reports full,
     *   nothing else changes;
     * - shrinking or full: at most forty positions are visited, in the
     *   order from `i0` on (the walk continues in the reshuffled order
     *   after a wrap), and the step goes on exactly when all forty were;
     * - shrinking: the visited positions go black; the step reports idle
     *   exactly when a pass starts after two black passes were started;
     * - full: the buffer is `Blurred` over the visited positions, the old
     *   dots are stamped on it and the splash drawn; the dots change on
     *   every tenth loop and the base colour only on every hundredth.
     */
    ghost predicate Stepped(phase: int, next: int, i0: int, order0: seq<int>, cleared0: int, dots0: seq<Dot>, baseC0: int,
                            buff0: array<Pixel>, px0: seq<Pixel>, strip: array<Pixel>,
                            visited: seq<int>, burst: int, hue: int, renewed: int)
      reads this`i, this`order, this`cleared, this`dots, this`baseC, this`buff, this`loopCount, buff
    {
      |px0| == numPx && 0 < numPx && |order0| == numPx && 0 <= i0 <= numPx &&
      (phase == GROWING ==>
         next == FULL && buff == strip &&
         i == i0 && cleared == cleared0 && dots == dots0 && order == order0 && baseC == baseC0) &&
      (phase != GROWING ==>
         buff == buff0 && |visited| <= PASS && (next == phase <==> |visited| == PASS) &&
         (forall k :: 0 <= k < |visited| ==> 0 <= visited[k] < numPx) &&
         (forall k :: 0 <= k < |visited| && i0 + k < numPx ==> visited[k] == order0[i0 + k]) &&
         (next == phase ==> Walked(order0, i0, visited, order, i))) &&
      (phase == SHRINKING ==>
         buff[..] == Blurred(px0, visited, phase) && dots == dots0 && baseC == baseC0 &&
         (next == IDLE <==> cleared0 + Starts(i0, numPx, PASS) > 2) &&
         (next == IDLE ==> i == 0 && cleared == 0) &&
         (next == phase ==> cleared == cleared0 + Starts(i0, numPx, PASS))) &&
      (phase == FULL ==>
         0 <= hue < 256 && burst < numPx - BURST && (burst >= 0 <==> loopCount % BURST_EVERY == 0) &&
         buff[..] == Burst(Stamp(Blurred(px0, visited, phase), dots0), burst, Wheel(hue)) &&
         cleared == cleared0 &&
         (loopCount % DOT_EVERY != 0 ==> dots == dots0) &&
         (loopCount % DOT_EVERY == 0 ==>
            |dots| == (if |dots0| < DOTS then |dots0| + 1 else |dots0|) && 0 <= renewed < |dots| &&
            (forall k :: 0 <= k < |dots0| && k != renewed ==> dots[k] == dots0[k])) &&
         (loopCount % BASE_EVERY != 0 ==> baseC == baseC0))
    }

    /**
     * `_step(state, strip)`, as `Stepped` describes it. The strip changes
     * only when it is the buffer.
     */
    method Step(phase: int, strip: array<Pixel>, rng: Rand)
      returns (next: int, ghost visited: seq<int>, ghost burst: int, ghost hue: int, ghost renewed: int)
      requires Valid() && IsRunning(phase) && strip.Length == numPx
      modifies this, buff, rng
      ensures Valid() && Advances(phase, next)
      ensures state == old(state) && loopCount == old(loopCount)
      ensures old(buff) != strip ==> strip[..] == old(strip[..])
      ensures phase == GROWING ==> old(buff)[..] == old(buff[..])
      ensures Stepped(phase, next, old(i), old(order), old(cleared), old(dots), old(baseC), old(buff), old(buff[..]), strip,
                      visited, burst, hue, renewed)
    {
      visited, burst, hue, renewed := [], -1, 0, 0;
      if phase == GROWING {
        buff := strip;
        return FULL, visited, burst, hue, renewed;
      }
      next, visited := Pass(phase, rng);
      if next != phase {
        return next, visited, burst, hue, renewed;
      }
      if phase != SHRINKING {
        burst, hue, renewed := Decorate(rng);
      }
      return phase, visited, burst, hue, renewed;
    }
  }
}
