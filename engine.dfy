/**
 * The pattern catalog of tree.py and the commands and tick that drive it.
 * Each row holds a pending command, a pattern and a full-stop flag; the
 * commands only record a pending command, and the tick steps every running
 * pattern and then applies (and clears) its row's pending command.
 */
module Engine {
  import opened Pixels
  import opened Oracle
  import opened Lifecycle
  import opened OffPattern
  import opened RainbowPattern
  import opened CandycanePattern
  import opened ClassicPattern
  import opened UnmodelledPattern
  import opened TwinklePattern
  import opened BlurPattern
  import opened Retirement
  import opened Passes
  import opened ColorWheel

  /** Every pattern, and the strip, has this many pixels. */
  const STRIP_LENGTH := 300

  /** `allPats`: the catalog's names, in row order. */
  const NAMES: seq<string> := ["off", "rainbow", "candycane", "classic", "wind", "twinkle", "fairy", "blur"]

  const ROWS := 8

  /** Column 2 of the catalog: `solo` of this row stops the others hard. */
  const FULL_STOP: seq<bool> := [false, true, false, false, false, false, false, true]

  /** `allPats.index(name)`: the first row with that name, or -1 when there is none. */
  function IndexOf(names: seq<string>, name: string): (k: int)
    ensures -1 <= k < |names|
    ensures k == -1 <==> name !in names
    ensures 0 <= k ==> names[k] == name && forall j :: 0 <= j < k ==> names[j] != name
  {
    if names == [] then -1
    else if names[0] == name then 0
    else
      var k := IndexOf(names[1..], name);
      if k == -1 then -1 else k + 1
  }

  /** The catalog's names are distinct, so a name's row is the only row with that name. */
  lemma NamesDistinct()
    ensures |NAMES| == ROWS
    ensures forall i, j :: 0 <= i < j < ROWS ==> NAMES[i] != NAMES[j]
  {
  }

  /** The row a catalog name selects; every row is selected by its own name. */
  lemma RowOfName(k: int)
    requires 0 <= k < ROWS
    ensures IndexOf(NAMES, NAMES[k]) == k
  {
    NamesDistinct();
  }

  /** Row `j` carries the name of row `k` exactly when it is row `k`. */
  lemma NameSelects(name: string, k: int, j: int)
    requires 0 <= k < ROWS && NAMES[k] == name && 0 <= j < ROWS
    ensures NAMES[j] == name <==> j == k
  {
    NamesDistinct();
  }

  /** The slot `solo` leaves in a row: a start for the named row, a stop for any other. */
  function SoloSlot(state: int, slot: int, named: bool, hard: bool): int
  {
    if named then StartCommand(state, slot) else StopCommand(state, slot, hard)
  }

  /** Building rows 0 to 3 of the catalog: fresh patterns over the whole strip, idle, never stepped, cleared. */
  method NewLowRows(source: Rand) returns (o: Off, r: Rainbow, cc: Candycane, cl: Classic)
    modifies source
    ensures fresh(o) && o.Valid() && o.numPx == STRIP_LENGTH
    ensures fresh(r) && r.Valid() && r.numPx == STRIP_LENGTH
    ensures fresh(cc) && cc.Valid() && cc.numPx == STRIP_LENGTH
    ensures fresh(cl) && cl.Valid() && cl.numPx == STRIP_LENGTH
    ensures o.state == IDLE && o.loopCount == 0 && o.IsCleared()
    ensures r.state == IDLE && r.loopCount == 0 && r.IsCleared()
    ensures cc.state == IDLE && cc.loopCount == 0 && cc.IsCleared()
    ensures cl.state == IDLE && cl.loopCount == 0 && cl.IsCleared()
  {
    o := new Off(STRIP_LENGTH, source);
    r := new Rainbow(STRIP_LENGTH, source);
    cc := new Candycane(STRIP_LENGTH, source);
    cl := new Classic(STRIP_LENGTH, source);
  }

  /** Building rows 4 to 7 of the catalog, as `NewLowRows` does rows 0 to 3. */
  method NewHighRows(source: Rand) returns (w: Unmodelled, t: Twinkle, f: Unmodelled, b: Blur)
    modifies source
    ensures fresh(w) && w.Valid() && w.numPx == STRIP_LENGTH
    ensures fresh(t) && t.Valid() && t.numPx == STRIP_LENGTH
    ensures fresh(f) && f.Valid() && f.numPx == STRIP_LENGTH && w != f
    ensures fresh(b) && b.Valid() && b.numPx == STRIP_LENGTH
    ensures w.state == IDLE && w.loopCount == 0
    ensures t.state == IDLE && t.loopCount == 0 && t.IsCleared()
    ensures f.state == IDLE && f.loopCount == 0
    ensures b.state == IDLE && b.loopCount == 0 && b.IsCleared()
  {
    w := new Unmodelled(STRIP_LENGTH);
    t := new Twinkle(STRIP_LENGTH, source);
    f := new Unmodelled(STRIP_LENGTH);
    b := new Blur(STRIP_LENGTH, source);
  }

  /**
   * The pattern table and the strip. The rows are fixed objects; the
   * pending commands (column 0) are a sequence the commands and the tick
   * reassign.
   */
  class Tree {
    const off: Off
    const rainbow: Rainbow
    const candycane: Candycane
    const classic: Classic
    const wind: Unmodelled
    const twinkle: Twinkle
    const fairy: Unmodelled
    const blur: Blur
    /** Column 0 of the catalog, one pending command per row. */
    var pending: seq<int>
    /** The strip's pixel array (`strip._led_data`). */
    const strip: array<Pixel>
    const rng: Rand

    ghost predicate Valid()
      reads this, off, rainbow, candycane, classic, wind, twinkle, fairy, blur
    {
      wind != fairy && strip.Length == STRIP_LENGTH &&
      off.Valid() && off.numPx == STRIP_LENGTH &&
      rainbow.Valid() && rainbow.numPx == STRIP_LENGTH &&
      candycane.Valid() && candycane.numPx == STRIP_LENGTH &&
      classic.Valid() && classic.numPx == STRIP_LENGTH &&
      wind.Valid() && wind.numPx == STRIP_LENGTH &&
      twinkle.Valid() && twinkle.numPx == STRIP_LENGTH &&
      fairy.Valid() && fairy.numPx == STRIP_LENGTH &&
      blur.Valid() && blur.numPx == STRIP_LENGTH &&
      |pending| == ROWS && forall k :: 0 <= k < ROWS ==> IsCommand(pending[k])
    }

    /** The state of row `j`'s pattern (`patterns[j][1].state`). */
    function StateOf(j: int): int
      reads off, rainbow, candycane, classic, wind, twinkle, fairy, blur
    {
      if j == 0 then off.state else if j == 1 then rainbow.state
      else if j == 2 then candycane.state else if j == 3 then classic.state
      else if j == 4 then wind.state else if j == 5 then twinkle.state
      else if j == 6 then fairy.state else blur.state
    }

    /** The loop count of row `j`'s pattern. */
    ghost function LoopCountOf(j: int): int
      reads off, rainbow, candycane, classic, wind, twinkle, fairy, blur
    {
      if j == 0 then off.loopCount else if j == 1 then rainbow.loopCount
      else if j == 2 then candycane.loopCount else if j == 3 then classic.loopCount
      else if j == 4 then wind.loopCount else if j == 5 then twinkle.loopCount
      else if j == 6 then fairy.loopCount else blur.loopCount
    }

    /** What `clear()` establishes holds for row `j` (the unmodelled rows keep nothing that is modelled). */
    ghost predicate ClearedRow(j: int)
      reads off, rainbow, candycane, classic, twinkle, blur
    {
      if j == 0 then off.IsCleared() else if j == 1 then rainbow.IsCleared()
      else if j == 2 then candycane.IsCleared() else if j == 3 then classic.IsCleared()
      else if j == 5 then twinkle.IsCleared() else if j == 7 then blur.IsCleared() else true
    }

    /** The slots `solo` leaves: a start for the named row `k`, a stop of `k`'s full-stop kind for every other row. */
    ghost predicate SoloSlots(before: seq<int>, after: seq<int>, k: int)
      reads off, rainbow, candycane, classic, wind, twinkle, fairy, blur
      requires |before| == ROWS && 0 <= k < ROWS
    {
      |after| == ROWS &&
      forall j :: 0 <= j < ROWS ==> after[j] == SoloSlot(StateOf(j), before[j], j == k, FULL_STOP[k])
    }

    /** The objects a step of row `k` may change besides the strip and the random source. */
    ghost function Footprint(k: int): set<object>
      reads this, rainbow, blur
    {
      match k
      case 0 => {off}
      case 1 => {rainbow, rainbow.buff}
      case 2 => {candycane}
      case 3 => {classic}
      case 4 => {wind}
      case 5 => {twinkle}
      case 6 => {fairy}
      case _ => {blur, blur.buff}
    }

    /**
     * Building the catalog: every pattern, in row order, over 300 pixels,
     * idle and cleared, no command pending, the strip off.
     */
    constructor (source: Rand)
      modifies source
      ensures Valid() && rng == source && fresh(strip)
      ensures pending == seq(ROWS, _ => NO_COMMAND)
      ensures forall j :: 0 <= j < ROWS ==> StateOf(j) == IDLE && LoopCountOf(j) == 0 && ClearedRow(j)
      ensures strip[..] == seq(STRIP_LENGTH, _ => BLACK)
    {
      var o, r, cc, cl := NewLowRows(source);
      var w, t, f, b := NewHighRows(source);
      off, rainbow, candycane, classic := o, r, cc, cl;
      wind, twinkle, fairy, blur := w, t, f, b;
      pending := seq(ROWS, _ => NO_COMMAND);
      strip := new Pixel[STRIP_LENGTH](_ => BLACK);
      rng := source;
    }

    /** The body of `start` once the name has selected row `k`. */
    method StartRow(k: int)
      requires Valid() && 0 <= k < ROWS
      modifies this
      ensures Valid() && pending == old(pending)[k := StartCommand(old(StateOf(k)), old(pending)[k])]
      ensures forall i :: 0 <= i < ROWS ==> StateOf(i) == old(StateOf(i))
    {
      if StateOf(k) != FULL {
        pending := pending[k := START];
      }
    }

    /** The body of `stop` once the name has selected row `k`. */
    method StopRow(k: int, hard: bool)
      requires Valid() && 0 <= k < ROWS
      modifies this
      ensures Valid() && pending == old(pending)[k := StopCommand(old(StateOf(k)), old(pending)[k], hard)]
      ensures forall i :: 0 <= i < ROWS ==> StateOf(i) == old(StateOf(i))
    {
      if StateOf(k) != IDLE {
        pending := pending[k := if hard then HARD_STOP else GENTLE_STOP];
      }
    }

    /** `start(name)`: records a start for the named row unless its pattern is full; an unknown name is ignored. */
    method Start(name: string)
      requires Valid()
      modifies this
      ensures Valid()
      ensures name !in NAMES ==> pending == old(pending)
      ensures name in NAMES ==>
        var k := IndexOf(NAMES, name);
        pending == old(pending)[k := StartCommand(StateOf(k), old(pending)[k])]
    {
      var k := IndexOf(NAMES, name);
      if k >= 0 {
        StartRow(k);
      }
    }

    /**
     * `stop(name, offMode)`: records a hard (`offMode`) or gentle stop for
     * the named row unless its pattern is idle; an unknown name is ignored.
     */
    method Stop(name: string, hard: bool)
      requires Valid()
      modifies this
      ensures Valid()
      ensures name !in NAMES ==> pending == old(pending)
      ensures name in NAMES ==>
        var k := IndexOf(NAMES, name);
        pending == old(pending)[k := StopCommand(StateOf(k), old(pending)[k], hard)]
    {
      var k := IndexOf(NAMES, name);
      if k >= 0 {
        StopRow(k, hard);
      }
    }

    /**
     * `solo(name)`: starts the named row and stops every other one, hard
     * when the named row's full-stop flag is set. An unknown name fails
     * (the lookup of its flag raises) before anything changes.
     */
    method Solo(name: string) returns (ok: bool)
      requires Valid()
      modifies this
      ensures Valid()
      ensures ok <==> name in NAMES
      ensures !ok ==> pending == old(pending)
      ensures ok ==> SoloSlots(old(pending), pending, IndexOf(NAMES, name))
    {
      var k := IndexOf(NAMES, name);
      if k < 0 {
        return false;
      }
      SoloRows(name, k);
      return true;
    }

    /**
     * The loop of `solo` over the catalog, once `name` has selected row
     * `k`: the rows are visited by their names, a name selecting its own
     * row, and each is started or stopped.
     */
    method SoloRows(name: string, k: int)
      requires Valid() && 0 <= k < ROWS && NAMES[k] == name
      modifies this
      ensures Valid() && SoloSlots(old(pending), pending, k)
    {
      for j := 0 to ROWS
        invariant Valid()
        invariant forall i :: 0 <= i < j ==> pending[i] == SoloSlot(StateOf(i), old(pending)[i], i == k, FULL_STOP[k])
        invariant forall i :: j <= i < ROWS ==> pending[i] == old(pending)[i]
      {
        SoloRow(name, k, j);
      }
    }

    /** One turn of that loop: row `j` is started when its name is `name`, and stopped otherwise. */
    method SoloRow(name: string, k: int, j: int)
      requires Valid() && 0 <= k < ROWS && NAMES[k] == name && 0 <= j < ROWS
      modifies this
      ensures Valid() && pending == old(pending)[j := SoloSlot(StateOf(j), old(pending)[j], j == k, FULL_STOP[k])]
    {
      NameSelects(name, k, j);
      if NAMES[j] == name {
        StartRow(j);
      } else {
        StopRow(j, FULL_STOP[k]);
      }
    }

    /**
     * The tick's body for row `k` with pending command `slot`: a running
     * pattern is stepped, then the command is applied; a hard stop also
     * clears the pattern (the strip keeps its pixels). Nothing else in the
     * catalog changes.
     */
    method TickRow(k: int, clock: int, slot: int)
      requires Valid() && 0 <= k < ROWS && IsCommand(slot)
      modifies Footprint(k), strip, rng
      ensures Valid() && pending == old(pending)
      ensures TickOutcome(old(StateOf(k)), slot, StateOf(k))
      ensures LoopCountOf(k) == old(LoopCountOf(k)) + if IsRunning(old(StateOf(k))) then 1 else 0
      ensures slot == HARD_STOP ==> ClearedRow(k)
      ensures forall j :: 0 <= j < ROWS && j != k ==>
        StateOf(j) == old(StateOf(j)) && LoopCountOf(j) == old(LoopCountOf(j)) && (ClearedRow(j) <==> old(ClearedRow(j)))
      ensures rainbow.buff == old(rainbow.buff) || rainbow.buff == strip
      ensures blur.buff == old(blur.buff) || blur.buff == strip
    {
      if k < 4 {
        TickRowLow(k, clock, slot);
      } else {
        TickRowHigh(k, clock, slot);
      }
    }

    /** `TickRow` for the first four rows. */
    method TickRowLow(k: int, clock: int, slot: int)
      requires Valid() && 0 <= k < 4 && IsCommand(slot)
      modifies Footprint(k), strip, rng
      ensures Valid() && pending == old(pending)
      ensures TickOutcome(old(StateOf(k)), slot, StateOf(k))
      ensures LoopCountOf(k) == old(LoopCountOf(k)) + if IsRunning(old(StateOf(k))) then 1 else 0
      ensures slot == HARD_STOP ==> ClearedRow(k)
      ensures forall j :: 0 <= j < ROWS && j != k ==>
        StateOf(j) == old(StateOf(j)) && LoopCountOf(j) == old(LoopCountOf(j)) && (ClearedRow(j) <==> old(ClearedRow(j)))
      ensures rainbow.buff == old(rainbow.buff) || rainbow.buff == strip
      ensures blur.buff == old(blur.buff) || blur.buff == strip
    {
      if k == 0 {
        TickOff(slot);
      } else if k == 1 {
        TickRainbow(clock, slot);
      } else if k == 2 {
        TickCandycane(slot);
      } else {
        TickClassic(slot);
      }
    }

    /** `TickRow` for the last four rows. */
    method TickRowHigh(k: int, clock: int, slot: int)
      requires Valid() && 4 <= k < ROWS && IsCommand(slot)
      modifies Footprint(k), strip, rng
      ensures Valid() && pending == old(pending)
      ensures TickOutcome(old(StateOf(k)), slot, StateOf(k))
      ensures LoopCountOf(k) == old(LoopCountOf(k)) + if IsRunning(old(StateOf(k))) then 1 else 0
      ensures slot == HARD_STOP ==> ClearedRow(k)
      ensures forall j :: 0 <= j < ROWS && j != k ==>
        StateOf(j) == old(StateOf(j)) && LoopCountOf(j) == old(LoopCountOf(j)) && (ClearedRow(j) <==> old(ClearedRow(j)))
      ensures rainbow.buff == old(rainbow.buff) || rainbow.buff == strip
      ensures blur.buff == old(blur.buff) || blur.buff == strip
    {
      if k == 4 {
        TickUnmodelled(wind, slot);
      } else if k == 5 {
        TickTwinkle(slot);
      } else if k == 6 {
        TickUnmodelled(fairy, slot);
      } else {
        TickBlur(slot);
      }
    }

    /**
     * `step` of the off row: one more loop, and the state `_step` returns
     * (see `Off.Step`).
     */
    method StepOff()
      requires Valid() && IsRunning(off.state)
      modifies off, strip, rng
      ensures Valid() && Advances(old(off.state), off.state) && off.loopCount == old(off.loopCount) + 1
      ensures old(off.i) < STRIP_LENGTH ==>
        off.state == old(off.state) && off.i == old(off.i) + 1 && off.order == old(off.order) &&
        strip[..] == old(strip[..])[old(off.order)[old(off.i)] := BLACK]
      ensures old(off.i) == STRIP_LENGTH && old(off.state) != FULL ==>
        off.state == (if old(off.state) == GROWING then FULL else IDLE) && off.i == 0 && strip[..] == old(strip[..])
      ensures old(off.i) == STRIP_LENGTH && old(off.state) == FULL ==>
        off.state == FULL && off.i == 1 && strip[..] == old(strip[..])[off.order[0] := BLACK]
    {
      off.loopCount := off.loopCount + 1;
      var next := off.Step(off.state, strip, rng);
      off.state := next;
    }

    /**
     * `step` of the rainbow row: one more loop, and the state `_step`
     * returns (see `Rainbow.Step`); `painted` counts the painted positions.
     */
    method StepRainbow(clock: int) returns (ghost painted: nat)
      requires Valid() && IsRunning(rainbow.state)
      modifies rainbow, rainbow.buff
      ensures Valid() && Advances(old(rainbow.state), rainbow.state) && rainbow.loopCount == old(rainbow.loopCount) + 1
      ensures rainbow.order == old(rainbow.order)
      ensures painted <= RainbowPattern.PASS && (painted < RainbowPattern.PASS <==> rainbow.state != old(rainbow.state))
      ensures old(rainbow.buff)[..] ==
        Paint(old(rainbow.buff[..]), Visited(rainbow.order, old(rainbow.i), painted),
              Palette(old(rainbow.state), clock, STRIP_LENGTH))
      ensures old(rainbow.buff) != strip ==> strip[..] == old(strip[..])
      ensures old(rainbow.state) == GROWING ==> (rainbow.state == FULL <==> STRIP_LENGTH - old(rainbow.i) < RainbowPattern.PASS)
      ensures old(rainbow.state) == GROWING && rainbow.state == FULL ==>
        painted == STRIP_LENGTH - old(rainbow.i) && rainbow.buff == strip && rainbow.i == 0
      ensures rainbow.state != FULL ==> rainbow.buff == old(rainbow.buff)
      ensures rainbow.buff == old(rainbow.buff) || rainbow.buff == strip
      ensures old(rainbow.state) == SHRINKING ==>
        (rainbow.state == IDLE <==> old(rainbow.cleared) + Starts(old(rainbow.i), STRIP_LENGTH, RainbowPattern.PASS) > 2)
      ensures rainbow.state == IDLE ==> rainbow.i == 0 && rainbow.cleared == 0
      ensures rainbow.state == old(rainbow.state) ==>
        rainbow.i == Cursor(old(rainbow.i), STRIP_LENGTH, RainbowPattern.PASS) &&
        rainbow.cleared == old(rainbow.cleared) +
          (if old(rainbow.state) == SHRINKING then Starts(old(rainbow.i), STRIP_LENGTH, RainbowPattern.PASS) else 0)
    {
      rainbow.loopCount := rainbow.loopCount + 1;
      var next;
      next, painted := rainbow.Step(rainbow.state, strip, clock);
      rainbow.state := next;
    }

    /**
     * `step` of the candycane row: one more loop, and the state `_step`
     * returns (see `Candycane.Step`), which spawns on the new loop count.
     */
    method StepCandycane()
      requires Valid() && IsRunning(candycane.state)
      modifies candycane, strip, rng
      ensures Valid() && Advances(old(candycane.state), candycane.state) && candycane.loopCount == old(candycane.loopCount) + 1
      ensures old(candycane.state) == GROWING ==> (candycane.state == FULL <==> |old(candycane.stripes)| == CandycanePattern.CAPACITY)
      ensures old(candycane.state) != SHRINKING ==>
        |candycane.stripes| == |old(candycane.stripes)| +
          (if old(candycane.state) == GROWING && |old(candycane.stripes)| < CandycanePattern.CAPACITY &&
              candycane.loopCount % CandycanePattern.SPAWN_EVERY == 0 then 1 else 0) &&
        RolledUpTo(old(candycane.stripes), candycane.stripes, STRIP_LENGTH, |old(candycane.stripes)|) &&
        (|candycane.stripes| > |old(candycane.stripes)| ==> Fresh(candycane.stripes[|old(candycane.stripes)|])) &&
        strip[..] == Render(old(strip[..]), old(candycane.stripes), old(candycane.state), STRIP_LENGTH)
      ensures old(candycane.state) == SHRINKING ==>
        candycane.stripes == Retire(old(candycane.stripes), Gone(STRIP_LENGTH), Shift(SHRINKING)) &&
        (candycane.state == IDLE <==> old(candycane.stripes) != [] && candycane.stripes == []) &&
        strip[..] == Render(old(strip[..]), old(candycane.stripes)[..FirstDone(old(candycane.stripes), Gone(STRIP_LENGTH))],
                            SHRINKING, STRIP_LENGTH)
    {
      candycane.loopCount := candycane.loopCount + 1;
      var next := candycane.Step(candycane.state, strip, rng);
      candycane.state := next;
    }

    /**
     * `step` of the classic row: one more loop, and the state `_step`
     * returns (see `Classic.Step`).
     */
    method StepClassic()
      requires Valid() && IsRunning(classic.state)
      modifies classic, strip, rng
      ensures Valid() && Advances(old(classic.state), classic.state) && classic.loopCount == old(classic.loopCount) + 1
      ensures old(classic.state) == GROWING ==> (classic.state == FULL <==> |old(classic.dots)| == ClassicPattern.CAPACITY)
      ensures classic.state != IDLE ==> classic.order == old(classic.order)
      ensures old(classic.state) != SHRINKING ==>
        |classic.dots| == |old(classic.dots)| +
          (if old(classic.state) == GROWING && |old(classic.dots)| < ClassicPattern.CAPACITY then 1 else 0) &&
        RenewedUpTo(old(classic.dots), classic.dots, classic.order, |old(classic.dots)|) &&
        (|classic.dots| > |old(classic.dots)| ==>
           Placed(classic.dots[|old(classic.dots)|], classic.order[|old(classic.dots)|])) &&
        strip[..] == (var lit := Relight(old(strip[..]), old(classic.dots), classic.dots[..|old(classic.dots)|]);
                      if |classic.dots| > |old(classic.dots)| then Put(lit, classic.dots[|old(classic.dots)|].pos, GOLD) else lit)
      ensures old(classic.state) == SHRINKING ==>
        classic.dots == Retire(old(classic.dots), Expired, CountDown) &&
        (classic.state == IDLE <==> old(classic.dots) != [] && classic.dots == []) &&
        strip[..] == if FirstDone(old(classic.dots), Expired) < |old(classic.dots)|
                     then old(strip[..])[old(classic.dots)[FirstDone(old(classic.dots), Expired)].pos := BLACK]
                     else old(strip[..])
    {
      classic.loopCount := classic.loopCount + 1;
      var next := classic.Step(classic.state, strip, rng);
      classic.state := next;
    }

    /**
     * `step` of the twinkle row: one more loop, and the state `_step`
     * returns (see `Twinkle.Step`), which spawns on the new loop count;
     * `mid` is the list after shining.
     */
    method StepTwinkle() returns (ghost mid: seq<Star>)
      requires Valid() && IsRunning(twinkle.state)
      modifies twinkle, strip, rng
      ensures Valid() && Advances(old(twinkle.state), twinkle.state) && twinkle.loopCount == old(twinkle.loopCount) + 1
      ensures old(twinkle.state) == GROWING ==> (twinkle.state == FULL <==> |old(twinkle.stars)| == TwinklePattern.CAPACITY)
      ensures old(twinkle.state) == SHRINKING ==>
        Shone(old(twinkle.stars), mid, twinkle.stars, old(strip[..]), strip[..], STRIP_LENGTH, SHRINKING) &&
        (twinkle.state == IDLE <==> old(twinkle.stars) != [] && twinkle.stars == [])
      ensures old(twinkle.state) != SHRINKING ==>
        Shone(old(twinkle.stars), mid, mid, old(strip[..]), strip[..], STRIP_LENGTH, old(twinkle.state)) &&
        |mid| <= |twinkle.stars| && twinkle.stars[..|mid|] == mid &&
        |twinkle.stars| == |old(twinkle.stars)| +
          (if old(twinkle.state) == GROWING && |old(twinkle.stars)| < TwinklePattern.CAPACITY &&
              twinkle.loopCount % TwinklePattern.SPAWN_EVERY == 0 then 1 else 0) &&
        (|twinkle.stars| > |old(twinkle.stars)| ==> Newborn(twinkle.stars[|old(twinkle.stars)|], STRIP_LENGTH))
    {
      twinkle.loopCount := twinkle.loopCount + 1;
      var next;
      next, mid := twinkle.Step(twinkle.state, strip, rng);
      twinkle.state := next;
    }

    /**
     * `step` of the blur row: one more loop, and the state `_step` returns,
     * as `Blur.Stepped` describes it with the new loop count (which the
     * dots, the splash and the base colour follow).
     */
    method StepBlur() returns (ghost visited: seq<int>, ghost burst: int, ghost hue: int, ghost renewed: int)
      requires Valid() && IsRunning(blur.state)
      modifies blur, blur.buff, rng
      ensures Valid() && Advances(old(blur.state), blur.state) && blur.loopCount == old(blur.loopCount) + 1
      ensures blur.buff == old(blur.buff) || blur.buff == strip
      ensures old(blur.buff) != strip ==> strip[..] == old(strip[..])
      ensures old(blur.state) == GROWING ==> old(blur.buff)[..] == old(blur.buff[..])
      ensures blur.Stepped(old(blur.state), blur.state, old(blur.i), old(blur.order), old(blur.cleared), old(blur.dots),
                           old(blur.baseC), old(blur.buff), old(blur.buff[..]), strip, visited, burst, hue, renewed)
    {
      blur.loopCount := blur.loopCount + 1;
      var next;
      next, visited, burst, hue, renewed := blur.Step(blur.state, strip, rng);
      blur.state := next;
    }

    /**
     * `step` of the wind or the fairy row: one more loop, and the state
     * `_step` returns (see `Unmodelled.Step`).
     */
    method StepUnmodelled(u: Unmodelled)
      requires Valid() && (u == wind || u == fairy) && IsRunning(u.state)
      modifies u, rng
      ensures Valid() && Advances(old(u.state), u.state) && u.loopCount == old(u.loopCount) + 1
      ensures old(u.state) == FULL ==> u.state == FULL
    {
      u.loopCount := u.loopCount + 1;
      var next := u.Step(u.state, strip, rng);
      u.state := next;
    }

    /** `TickRow` of the off row. */
    method TickOff(slot: int)
      requires Valid() && IsCommand(slot)
      modifies off, strip, rng
      ensures Valid() && TickOutcome(old(off.state), slot, off.state)
      ensures off.loopCount == old(off.loopCount) + if IsRunning(old(off.state)) then 1 else 0
      ensures slot == HARD_STOP ==> off.IsCleared()
    {
      if IsRunning(off.state) {
        StepOff();
      }
      ghost var stepped := off.state;
      off.state := Apply(off.state, slot);
      if slot == HARD_STOP {
        off.Clear();
      }
      assert off.state == Apply(stepped, slot);
    }

    /** `TickRow` of the rainbow row. */
    method TickRainbow(clock: int, slot: int)
      requires Valid() && IsCommand(slot)
      modifies rainbow, rainbow.buff, rng
      ensures Valid() && TickOutcome(old(rainbow.state), slot, rainbow.state)
      ensures rainbow.loopCount == old(rainbow.loopCount) + if IsRunning(old(rainbow.state)) then 1 else 0
      ensures slot == HARD_STOP ==> rainbow.IsCleared()
      ensures rainbow.buff == old(rainbow.buff) || rainbow.buff == strip
    {
      if IsRunning(rainbow.state) {
        ghost var painted := StepRainbow(clock);
      }
      ghost var stepped := rainbow.state;
      rainbow.state := Apply(rainbow.state, slot);
      if slot == HARD_STOP {
        rainbow.Clear(rng);
      }
      assert rainbow.state == Apply(stepped, slot);
    }

    /** `TickRow` of the candycane row. */
    method TickCandycane(slot: int)
      requires Valid() && IsCommand(slot)
      modifies candycane, strip, rng
      ensures Valid() && TickOutcome(old(candycane.state), slot, candycane.state)
      ensures candycane.loopCount == old(candycane.loopCount) + if IsRunning(old(candycane.state)) then 1 else 0
      ensures slot == HARD_STOP ==> candycane.IsCleared()
    {
      if IsRunning(candycane.state) {
        StepCandycane();
      }
      ghost var stepped := candycane.state;
      candycane.state := Apply(candycane.state, slot);
      if slot == HARD_STOP {
        candycane.Clear();
      }
      assert candycane.state == Apply(stepped, slot);
    }

    /** `TickRow` of the classic row. */
    method TickClassic(slot: int)
      requires Valid() && IsCommand(slot)
      modifies classic, strip, rng
      ensures Valid() && TickOutcome(old(classic.state), slot, classic.state)
      ensures classic.loopCount == old(classic.loopCount) + if IsRunning(old(classic.state)) then 1 else 0
      ensures slot == HARD_STOP ==> classic.IsCleared()
    {
      if IsRunning(classic.state) {
        StepClassic();
      }
      ghost var stepped := classic.state;
      classic.state := Apply(classic.state, slot);
      if slot == HARD_STOP {
        classic.Clear();
      }
      assert classic.state == Apply(stepped, slot);
    }

    /** `TickRow` of the twinkle row. */
    method TickTwinkle(slot: int)
      requires Valid() && IsCommand(slot)
      modifies twinkle, strip, rng
      ensures Valid() && TickOutcome(old(twinkle.state), slot, twinkle.state)
      ensures twinkle.loopCount == old(twinkle.loopCount) + if IsRunning(old(twinkle.state)) then 1 else 0
      ensures slot == HARD_STOP ==> twinkle.IsCleared()
    {
      if IsRunning(twinkle.state) {
        ghost var mid := StepTwinkle();
      }
      ghost var stepped := twinkle.state;
      twinkle.state := Apply(twinkle.state, slot);
      if slot == HARD_STOP {
        twinkle.Clear();
      }
      assert twinkle.state == Apply(stepped, slot);
    }

    /** `TickRow` of the blur row. */
    method TickBlur(slot: int)
      requires Valid() && IsCommand(slot)
      modifies blur, blur.buff, rng
      ensures Valid() && TickOutcome(old(blur.state), slot, blur.state)
      ensures blur.loopCount == old(blur.loopCount) + if IsRunning(old(blur.state)) then 1 else 0
      ensures slot == HARD_STOP ==> blur.IsCleared()
      ensures blur.buff == old(blur.buff) || blur.buff == strip
    {
      if IsRunning(blur.state) {
        ghost var visited, burst, hue, renewed := StepBlur();
      }
      SettleBlur(slot);
    }

    /** The pending command of the blur row taking effect. */
    method SettleBlur(slot: int)
      requires Valid() && IsCommand(slot)
      modifies blur, rng
      ensures Valid() && blur.state == Apply(old(blur.state), slot) && blur.loopCount == old(blur.loopCount)
      ensures slot == HARD_STOP ==> blur.IsCleared()
      ensures blur.buff == old(blur.buff)
    {
      blur.state := Apply(blur.state, slot);
      if slot == HARD_STOP {
        blur.Clear(rng);
      }
    }

    /** `TickRow` of the wind or the fairy row. */
    method TickUnmodelled(u: Unmodelled, slot: int)
      requires Valid() && (u == wind || u == fairy) && IsCommand(slot)
      modifies u, rng
      ensures Valid() && TickOutcome(old(u.state), slot, u.state)
      ensures u.loopCount == old(u.loopCount) + if IsRunning(old(u.state)) then 1 else 0
    {
      if IsRunning(u.state) {
        StepUnmodelled(u);
      }
      ghost var stepped := u.state;
      u.state := Apply(u.state, slot);
      if slot == HARD_STOP {
        u.Clear();
      }
      assert u.state == Apply(stepped, slot);
    }

    /**
     * One pass of the main loop over the catalog (before `strip.show()`):
     * every row ends in the state `TickOutcome` allows from its state and
     * its pending command, running patterns count one more loop, hard
     * stopped patterns are cleared, and no command is left pending.
     */
    method Tick(clock: int)
      requires Valid()
      modifies this, off, rainbow, candycane, classic, wind, twinkle, fairy, blur
      modifies rainbow.buff, blur.buff, strip, rng
      ensures Valid() && pending == seq(ROWS, _ => NO_COMMAND)
      ensures forall k :: 0 <= k < ROWS ==> TickOutcome(old(StateOf(k)), old(pending)[k], StateOf(k))
      ensures forall k :: 0 <= k < ROWS ==>
        LoopCountOf(k) == old(LoopCountOf(k)) + if IsRunning(old(StateOf(k))) then 1 else 0
      ensures forall k :: 0 <= k < ROWS && old(pending)[k] == HARD_STOP ==> ClearedRow(k)
    {
      for k := 0 to ROWS
        invariant Valid()
        invariant rainbow.buff == old(rainbow.buff) || rainbow.buff == strip
        invariant blur.buff == old(blur.buff) || blur.buff == strip
        invariant forall j :: 0 <= j < k ==>
          pending[j] == NO_COMMAND &&
          TickOutcome(old(StateOf(j)), old(pending)[j], StateOf(j)) &&
          LoopCountOf(j) == old(LoopCountOf(j)) + (if IsRunning(old(StateOf(j))) then 1 else 0) &&
          (old(pending)[j] == HARD_STOP ==> ClearedRow(j))
        invariant forall j :: k <= j < ROWS ==>
          pending[j] == old(pending)[j] && StateOf(j) == old(StateOf(j)) && LoopCountOf(j) == old(LoopCountOf(j))
      {
        // The slot is taken out before the row is stepped rather than after
        // it: a pattern's step never looks at the catalog, so the outcome is
        // the same.
        var slot := pending[k];
        pending := pending[k := NO_COMMAND];
        TickRow(k, clock, slot);
      }
    }
  }
}
