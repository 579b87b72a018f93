# The animation engine of the Christmas-tree LED strip

`tree.py` drives a strip of 300 addressable LEDs. It holds a catalog of
eight patterns (off, rainbow, candycane, classic, wind, twinkle, fairy,
blur). Each catalog row has three parts:

- a pending command;
- the pattern object;
- a "full stop" flag.

Every pattern has a lifecycle state and a loop count:

- state 0 is idle;
- state 1 is growing;
- state 2 is full;
- state 3 is shrinking.

`start`, `stop` and `solo` only record a pending command in a row. The
codes are 1 for start, 3 for a gentle stop and 4 for a hard stop; -1 means
no command. The main loop then ticks, visiting the rows in order. For each
row, a running pattern (state above 0) is stepped through
`PatternBase.step`. That bumps the loop count and lets the pattern's own
`_step` draw on the strip and return its next state. Then the pending
command is applied and cleared. A hard stop also calls the pattern's
`clear()`.

The Dafny project models that engine:

- **pixels.dfy** (`Pixels`): packed colours, the blur average and the
  driver's `setPixelColor`.
- **wheel.dfy** (`ColorWheel`): the colour wheel.
- **oracle.dfy** (`Oracle`): the random source and the shuffled strip orders.
- **lifecycle.dfy** (`Lifecycle`): the lifecycle and command codes.
- **passes.dfy** (`Passes`): the pass index that Rainbow and Blur keep
  over their shuffled order.
- **retirement.dfy** (`Retirement`): the shared "drop the first finished
  element and stop" rule of the shrinking list patterns.
- **The patterns**, one class each, with the fields their methods update:
  - off.dfy, rainbow.dfy, classic.dfy, candycane.dfy, twinkle.dfy and blur.dfy;
  - unmodelled.dfy, which holds Wind and Fairy.
- **engine.dfy** (`Engine`): the catalog, the commands and the tick.

Each pattern's `Step` is proved against a specification of what `_step`
does to the pattern's elements and to the strip:

- every element is renewed, moved or faded;
- the strip changes only where the elements say;
- shrinking drops exactly the first finished element;
- the step reports full or idle exactly when the source does (Wind and
  Fairy aside, see "Left out").

The tick is proved to leave every row in the state its old state and its
pending command allow, to count one loop for running patterns, to clear
hard-stopped ones and to leave no command pending.

Behaviour of the code worth knowing:

- **Tick order.** The tick steps a pattern before it applies the pattern's
  pending command, not after.
- **Hard stop.** A hard stop sets the state to idle and calls `clear()`. It
  does not switch the pattern's pixels off.
- **`start`.** `start` is refused only when the pattern is full. On a
  growing or shrinking pattern it records a start.
- **Natural return to idle.** A pattern that goes idle by itself is not
  `clear()`ed.
- **Strip indices.** Indices are not wrapped modulo the strip length.
  `setPixelColor` ignores an index at or past the end of the strip. Blur
  reads the left neighbour of pixel 0 at index -1 of the strip's pixel
  data; the model takes that to be the last pixel (see "Left out").
- **Rainbow and Blur buffers.** Rainbow paints a buffer of its own until
  it first reports full. Then it adopts the strip's pixel array as its
  buffer, and keeps it for good: later runs paint the strip directly.
  Blur adopts the strip at its first step.
- **Shrinking before the first element.** Twinkle adds a star only on
  every fourth loop and Candycane a stripe only on every fifth. Their
  `return 0` sits inside the loop over the list. So a gentle stop that
  arrives before the first element is added leaves the pattern shrinking
  forever over an empty list.
- **Unknown names.** `solo` of an unknown name raises before anything
  changes. The model returns `false` and changes nothing.

## Model

| member | source | states |
|---|---|---|
| Pixels.Color | rpi_ws281x-master/python/tree.py:110 | `Color(r, g, b)` keeps each 8-bit channel: red, green and blue read back unchanged |
| Pixels.Mix | rpi_ws281x-master/python/tree.py:294-296 | the bitwise neighbour average of Blur gives each channel the floor of the mean of the two neighbours' channels, with no carry between channels |
| Pixels.MixIdempotent | rpi_ws281x-master/python/tree.py:294-296 | averaging a colour with itself gives that colour |
| Pixels.SetPixelColor | rpi_ws281x-master/python/tree.py:402 | a write stores the colour at a position of the strip and is ignored at any other index; nothing else changes |
| ColorWheel.WheelRgb | rpi_ws281x-master/python/tree.py:14-23 | every hue 0..255 gives channels in 0..255 that add up to 255, and each of the three segments has its own channel switched off |
| ColorWheel.WheelInverse | rpi_ws281x-master/python/tree.py:14-23 | hues 0..254 are recovered from their colour, so the wheel shows 255 distinct colours |
| ColorWheel.WheelWrapsAround | rpi_ws281x-master/python/tree.py:14-23 | hue 255 has the colour of hue 0, so the wheel closes into a loop |
| Oracle.Rand.Below | rpi_ws281x-master/python/tree.py:146 | `int(random() * n)` lies in 0..n-1 |
| Oracle.Rand.Shuffle | rpi_ws281x-master/python/tree.py:37 | `shuffle` reorders: the result holds the same elements, each as often |
| Oracle.Iota | rpi_ws281x-master/python/tree.py:36 | `range(n)` holds 0..n-1 in order |
| Oracle.Stride4 | rpi_ws281x-master/python/tree.py:100 | `range(0, 4m, 4)` holds the m group starts 0, 4, 8, ... in order |
| Oracle.IotaPermutation | rpi_ws281x-master/python/tree.py:36-37 | a shuffled `range(n)` has n entries, each a position of the strip, and holds every position |
| Oracle.StridePermutation | rpi_ws281x-master/python/tree.py:100-101 | a shuffled group order has m entries, each a multiple of 4 whose group of four pixels lies on the strip |
| Lifecycle.StartCommand | rpi_ws281x-master/python/tree.py:448-451 | after `start` the slot holds a start exactly when the pattern is not full (or a start was already pending), and is otherwise unchanged |
| Lifecycle.StopCommand | rpi_ws281x-master/python/tree.py:453-456 | after `stop` a non-idle pattern's slot holds a hard or gentle stop as `offMode` asks; an idle pattern's slot is unchanged |
| Lifecycle.Apply | rpi_ws281x-master/python/tree.py:505-513 | a pending start makes the state growing, a gentle stop shrinking, a hard stop idle, and no command keeps the state |
| Lifecycle.SoloSettles | rpi_ws281x-master/python/tree.py:458-464 | after `solo` and one tick from an empty slot, the named pattern is growing or full and every other pattern is shrinking or idle; every other one is idle when the named row's full-stop flag is set |
| Lifecycle.StaleStartSurvivesSolo | rpi_ws281x-master/python/tree.py:453-456 | a start still pending on an idle pattern survives a `solo` of another pattern, because `stop` leaves an idle pattern's slot alone, and the pattern then starts growing |
| Retirement.FirstDone | rpi_ws281x-master/python/tree.py:114-125 | the index the shrinking loop stops at is the first finished element, with none finished before it, or the list length when none is |
| Retirement.RetireAt | rpi_ws281x-master/python/tree.py:150-159 | one shrinking pass drops exactly the first finished element, advances the elements before it and leaves the ones after it; with none finished it advances all |
| Retirement.RetireShrinksByOne | rpi_ws281x-master/python/tree.py:119-125 | a shrinking pass removes one element when some element is finished and none otherwise |
| OffPattern.Off.constructor | rpi_ws281x-master/python/tree.py:387-392 | a new Off is idle, has never stepped, is cleared and holds a shuffled order of all strip positions |
| OffPattern.Off.Clear | rpi_ws281x-master/python/tree.py:391-392 | `clear()` restarts the sweep at the first entry and keeps state, loop count and order |
| OffPattern.Off.Step | rpi_ws281x-master/python/tree.py:394-405 | during a sweep it switches off exactly pixel `order[i]` and moves on; at the sweep's end growing reports full and shrinking reports idle without writing, and full restarts with a reshuffled order |
| OffPattern.SweepPrefixAt | rpi_ws281x-master/python/tree.py:402-403 | after k steps of a sweep a pixel is off exactly when it is among the first k entries of the order, and otherwise unchanged |
| OffPattern.SweepSwitchesAllOff | rpi_ws281x-master/python/tree.py:394-405 | one whole sweep switches every pixel of the strip off |
| OffPattern.GrowToFull | rpi_ws281x-master/python/tree.py:394-405 | growing from a cleared Off blacks out the whole strip and then reports full |
| RainbowPattern.Rainbow.constructor | rpi_ws281x-master/python/tree.py:223-230 | a new Rainbow is idle, cleared, and has a black buffer of its own |
| RainbowPattern.Rainbow.Clear | rpi_ws281x-master/python/tree.py:227-230 | `clear()` restarts the pass and the black-pass count and keeps the buffer, state and loop count |
| RainbowPattern.Rainbow.Visit | rpi_ws281x-master/python/tree.py:233-249 | one loop turn wraps the index at the end of the order; there growing adopts the strip and reports full; shrinking reports idle exactly at a pass start with two black passes counted, and otherwise counts each pass start; otherwise exactly the current entry's pixel gets its wheel colour, or black while shrinking |
| RainbowPattern.Rainbow.Step | rpi_ws281x-master/python/tree.py:232-251 | the buffer is the old buffer with the visited positions painted their hue and nothing else, at most ten positions, fewer exactly when the phase ends; growing ends exactly when fewer than ten entries remain; shrinking ends exactly when the ten visits would start a third black pass, and otherwise counts the passes started; the strip changes only through the buffer |
| RainbowPattern.Rainbow.Advance | rpi_ws281x-master/python/tree.py:233-249 | one loop turn either paints one more visited position, or ends the pass while growing, or starts a third black pass while shrinking |
| Passes.StartsGrow | rpi_ws281x-master/python/tree.py:234-244 | the count of passes started never falls as more visits are made |
| Passes.CursorRuns | rpi_ws281x-master/python/tree.py:234-249 | visits inside one pass move the index one entry each and start no pass |
| ClassicPattern.Classic.constructor | rpi_ws281x-master/python/tree.py:97-104 | a new Classic rounds the pixel count down to a multiple of four, is idle and cleared, and holds the group starts in shuffled order |
| ClassicPattern.Classic.Clear | rpi_ws281x-master/python/tree.py:103-104 | `clear()` empties the dot list and keeps state, loop count and order |
| ClassicPattern.Classic.NewDot | rpi_ws281x-master/python/tree.py:106-111 | a new dot sits in its group's four pixels, or on the pixel of the dot it replaces, with a countdown below 100; exactly that pixel turns gold |
| ClassicPattern.Classic.Spawn | rpi_ws281x-master/python/tree.py:129-130 | one dot is appended in the next group, the others are kept, and only its pixel turns gold |
| ClassicPattern.Classic.Tend | rpi_ws281x-master/python/tree.py:114-127 | a waiting dot counts down and the strip is unchanged; an expired dot's pixel goes black and it is relit, its new pixel then gold, or it is dropped exactly when shrinking |
| ClassicPattern.Classic.Sweep | rpi_ws281x-master/python/tree.py:114-127 | the loop over the dots renews every dot and leaves the strip `Relight`ed by them, or while shrinking retires the list and darkens only the dropped dot's pixel |
| ClassicPattern.RelightExplained | rpi_ws281x-master/python/tree.py:114-127 | relighting changes a pixel only to gold where a dot now sits or to black where an expired dot sat |
| ClassicPattern.RelitShowsGold | rpi_ws281x-master/python/tree.py:116-118 | a relit dot's pixel shows gold unless a later expired dot switches it off |
| ClassicPattern.Classic.Step | rpi_ws281x-master/python/tree.py:113-134 | growing or full renews every dot, the strip is relit dot by dot (an expired dot's pixel black, then its new pixel gold) and an added dot's pixel turns gold; growing adds one dot or reports full exactly at 75 dots; shrinking retires the list, darkens only the dropped dot's pixel, and reports idle exactly when the list becomes empty; the group order changes only when the step goes idle |
| CandycanePattern.Candycane.constructor | rpi_ws281x-master/python/tree.py:139-143 | a new Candycane is idle and cleared |
| CandycanePattern.Candycane.Clear | rpi_ws281x-master/python/tree.py:142-143 | `clear()` empties the stripe list and keeps state and loop count |
| CandycanePattern.Candycane.NewStripe | rpi_ws281x-master/python/tree.py:145-147 | a new stripe has radius 2..6, speed 1..3, red or white, and is centred one radius before pixel 0 |
| CandycanePattern.Candycane.Glide | rpi_ws281x-master/python/tree.py:161-164 | moving a stripe n pixels lights its leading edge and darkens its trailing edge at each pixel, leaving the strip at its `Trail` |
| CandycanePattern.TrailStaysInBand | rpi_ws281x-master/python/tree.py:161-164 | a moving stripe writes only inside the band it sweeps |
| CandycanePattern.TrailEdges | rpi_ws281x-master/python/tree.py:161-164 | after moving, a stripe's leading edge shows its colour and its trailing edge is dark |
| CandycanePattern.Candycane.Roll | rpi_ws281x-master/python/tree.py:150-164 | a stripe past the end is replaced by a fresh one, or dropped exactly while shrinking; any other stripe moves by its stride and paints its trail |
| CandycanePattern.Candycane.Sweep | rpi_ws281x-master/python/tree.py:150-164 | the loop over the stripes rolls every stripe and renders them in order, or while shrinking retires the list and renders the stripes before the dropped one |
| CandycanePattern.Candycane.Step | rpi_ws281x-master/python/tree.py:149-174 | every stripe rolls and the strip shows their render; growing adds a fresh stripe on every fifth loop or reports full exactly at 20; shrinking moves stripes two pixels faster, retires the list and reports idle exactly when it becomes empty |
| TwinklePattern.Dim | rpi_ws281x-master/python/tree.py:77 | dimming a channel never raises it and keeps it exactly when it is already 0 |
| TwinklePattern.RemoveFirst | rpi_ws281x-master/python/tree.py:62 | `list.remove(x)` shortens the list by one when it holds `x`, and changes nothing otherwise |
| TwinklePattern.RemoveFirstTakesOne | rpi_ws281x-master/python/tree.py:62 | the element taken out is one equal to `x`, and every other element is kept as often as before |
| TwinklePattern.RemoveFirstSplits | rpi_ws281x-master/python/tree.py:62 | the element taken out is the first one equal to `x`, and the others keep their order |
| TwinklePattern.ShowLeavesUnlit | rpi_ws281x-master/python/tree.py:84 | a pixel no star sits on keeps its colour |
| TwinklePattern.ShowLastWins | rpi_ws281x-master/python/tree.py:84 | the last star on a pixel decides its colour |
| TwinklePattern.Twinkle.constructor | rpi_ws281x-master/python/tree.py:50-54 | a new Twinkle is idle and cleared |
| TwinklePattern.Twinkle.Clear | rpi_ws281x-master/python/tree.py:53-54 | `clear()` empties the star list and keeps state and loop count |
| TwinklePattern.Twinkle.Brighten | rpi_ws281x-master/python/tree.py:83 | brightening raises a channel by at most 24 and never past 255 |
| TwinklePattern.Twinkle.Turn | rpi_ws281x-master/python/tree.py:58-83 | a dark dimming star moves to a new pixel and rises, a dimming star dims, a white rising star turns to dimming, any other rising star brightens |
| TwinklePattern.Twinkle.Shine | rpi_ws281x-master/python/tree.py:57-84 | one loop turn twinkles the current star and shows its new colour at its pixel |
| TwinklePattern.Twinkle.Sweep | rpi_ws281x-master/python/tree.py:57-84 | the loop twinkles and shows every star, or while shrinking stops at the first star out and removes it by value |
| TwinklePattern.Twinkle.Step | rpi_ws281x-master/python/tree.py:56-92 | every star twinkles and shows in list order; growing adds a newborn star on every fourth loop or reports full exactly at 50; shrinking removes the first star out and reports idle exactly when the list becomes empty |
| BlurPattern.Left | rpi_ws281x-master/python/tree.py:288 | the left neighbour of pixel 0 is the last pixel, of any other pixel the one before it |
| BlurPattern.Right | rpi_ws281x-master/python/tree.py:290 | the right neighbour of the last pixel is pixel 0, of any other pixel the one after it |
| BlurPattern.TouchAverages | rpi_ws281x-master/python/tree.py:288-297 | a visited pixel becomes the channel-wise floor mean of its ring neighbours |
| BlurPattern.BlurredKeepsUniform | rpi_ws281x-master/python/tree.py:276-297 | blurring a buffer of a single colour leaves it unchanged |
| BlurPattern.BlurredFadesOut | rpi_ws281x-master/python/tree.py:298-299 | while shrinking a visited pixel is black and an unvisited one keeps its colour |
| BlurPattern.Scale | rpi_ws281x-master/python/tree.py:269 | dimming a channel by a brightness below 1 never raises it |
| BlurPattern.Blur.constructor | rpi_ws281x-master/python/tree.py:256-266 | a new Blur is idle, cleared, has a base colour in 0..255 and a black buffer of its own |
| BlurPattern.Blur.Clear | rpi_ws281x-master/python/tree.py:262-266 | `clear()` restarts the pass and the black-pass count, drops the dots, and keeps buffer, order, state and loop count |
| BlurPattern.Blur.Visit | rpi_ws281x-master/python/tree.py:277-300 | one loop turn wraps the index at the end of the order and only then reshuffles; shrinking reports idle exactly at a pass start with two black passes counted, and otherwise counts each pass start; otherwise exactly the pixel at the current entry is touched, averaged or black while shrinking, and the index moves on |
| BlurPattern.WalkOn | rpi_ws281x-master/python/tree.py:277-286 | one more visit reads the entry at the wrapped index, and the order changes only at the end of a pass |
| BlurPattern.WalkedInsidePass | rpi_ws281x-master/python/tree.py:277-286 | visits that stay inside one pass read a stretch of the order, in order |
| BlurPattern.Blur.Advance | rpi_ws281x-master/python/tree.py:277-300 | one loop turn either touches one more position of the walk, or, shrinking, reports idle when the run starts a third black pass |
| BlurPattern.RanOn | rpi_ws281x-master/python/tree.py:276-298 | one more visit extends a run: the buffer is blurred at one more position, the walk moves on by one entry and a black pass started at a wrap is counted |
| BlurPattern.Blur.Pass | rpi_ws281x-master/python/tree.py:276-300 | the loop visits forty positions, the rest of the order and then the reshuffled order from its start, and blurs or blackens them; shrinking stops exactly when the visits would start a third black pass |
| BlurPattern.Blur.NewDot | rpi_ws281x-master/python/tree.py:268-269 | a new dot lies on the strip with a wheel colour up to 40 hues past the base colour, dimmed |
| BlurPattern.Blur.Repaint | rpi_ws281x-master/python/tree.py:303-304 | every dot paints its colour at its pixel, in list order |
| BlurPattern.Blur.Renew | rpi_ws281x-master/python/tree.py:306-311 | on every tenth loop one dot is added while there are fewer than ten, and one dot is replaced with the others kept; on other loops the dots are unchanged |
| BlurPattern.Blur.Splash | rpi_ws281x-master/python/tree.py:313-316 | on every thirtieth loop, and only then, four consecutive pixels take one wheel colour |
| BlurPattern.Blur.Rebase | rpi_ws281x-master/python/tree.py:318-319 | the base colour changes only on a hundredth loop and stays a hue |
| BlurPattern.Blur.Decorate | rpi_ws281x-master/python/tree.py:301-320 | the decorations of a full tick, in order: dots repainted, a dot renewed, a burst splashed, the base colour maybe changed |
| BlurPattern.Blur.Step | rpi_ws281x-master/python/tree.py:271-321 | the outcome is `Stepped`: growing adopts the strip and reports full at once, changing nothing else (pass index, count, dots, order and base colour stay); full blurs the forty visited positions of the walk through the order, then repaints the dots, renews one on every tenth loop and splashes on every thirtieth; shrinking blackens the visited positions and reports idle exactly when they would start a third black pass; the strip changes only when it is the buffer |
| UnmodelledPattern.Unmodelled.constructor | rpi_ws281x-master/python/tree.py:178-183 | a new Wind or Fairy is idle and has never stepped |
| UnmodelledPattern.Unmodelled.Step | rpi_ws281x-master/python/tree.py:190-218 | Wind's and Fairy's step keeps a full pattern full and otherwise may only finish growing or shrinking |
| Engine.IndexOf | rpi_ws281x-master/python/tree.py:450 | `allPats.index(name)` is the first row with that name, and -1 exactly when no row has it |
| Engine.RowOfName | rpi_ws281x-master/python/tree.py:431-440 | the catalog names are distinct, so every row is selected by its own name |
| Engine.Tree.constructor | rpi_ws281x-master/python/tree.py:419-429 | the catalog holds the eight patterns over 300 pixels, all idle, never stepped and cleared, with no command pending and the strip black |
| Engine.Tree.StartRow | rpi_ws281x-master/python/tree.py:450-451 | only the named row's slot changes, to `StartCommand` of its state; no state changes |
| Engine.Tree.StopRow | rpi_ws281x-master/python/tree.py:455-456 | only the named row's slot changes, to `StopCommand` of its state; no state changes |
| Engine.Tree.Start | rpi_ws281x-master/python/tree.py:448-451 | an unknown name changes nothing; a known one updates only its own row's slot, as `start` does |
| Engine.Tree.Stop | rpi_ws281x-master/python/tree.py:453-456 | an unknown name changes nothing; a known one updates only its own row's slot, as `stop` does |
| Engine.Tree.Solo | rpi_ws281x-master/python/tree.py:458-464 | it succeeds exactly for a catalog name, changing nothing otherwise; it leaves a start in the named row and a stop of the named row's full-stop kind in every other row |
| Engine.NameSelects | rpi_ws281x-master/python/tree.py:460-461 | a row's name equals the name of row `k` exactly when it is row `k`, because the catalog's names are distinct |
| Engine.Tree.SoloRows | rpi_ws281x-master/python/tree.py:460-464 | after the loop over the rows, the named row holds `StartCommand` and every other row `StopCommand` of the full-stop kind, each of its own old slot and state |
| Engine.Tree.SoloRow | rpi_ws281x-master/python/tree.py:461-464 | one row of that loop: its slot becomes the start or stop slot, by whether its name is the one given; no other slot changes |
| Engine.Tree.StepOff | rpi_ws281x-master/python/tree.py:43-45 | `step` counts one more loop and takes the state `_step` returns: the row's state, pass index, order and strip end exactly as `Off.Step` states for the old state |
| Engine.Tree.StepRainbow | rpi_ws281x-master/python/tree.py:43-45 | the same for the rainbow row, with `Rainbow.Step`'s outcome: the painted positions, full exactly when fewer than ten entries were left, idle exactly when a third black pass starts, the pass index and count moved on |
| Engine.Tree.StepCandycane | rpi_ws281x-master/python/tree.py:43-45 | the same for the candycane row, with `Candycane.Step`'s outcome; the spawn follows the new loop count (every fifth), and a growing candycane with 20 stripes becomes full |
| Engine.Tree.StepClassic | rpi_ws281x-master/python/tree.py:43-45 | the same for the classic row, with `Classic.Step`'s outcome: full exactly at 75 dots, the relit strip, the retired list and idle exactly when it empties, the order kept unless idle |
| Engine.Tree.StepTwinkle | rpi_ws281x-master/python/tree.py:43-45 | the same for the twinkle row, with `Twinkle.Step`'s outcome; the spawn follows the new loop count (every fourth), full exactly at 50 stars |
| Engine.Tree.StepBlur | rpi_ws281x-master/python/tree.py:43-45 | the same for the blur row, with `Blur.Stepped` over the new loop count (dots every tenth, splash every thirtieth, base colour at most every hundredth loop) |
| Engine.Tree.StepUnmodelled | rpi_ws281x-master/python/tree.py:43-45 | the same for the wind and fairy rows, with `Unmodelled.Step`'s outcome: a full pattern stays full |
| Engine.Tree.TickOff | rpi_ws281x-master/python/tree.py:503-512 | the tick's body for the off row: the state ends as stepping then applying the slot allows, one loop is counted when running, and a hard stop leaves it cleared |
| Engine.Tree.TickRainbow | rpi_ws281x-master/python/tree.py:503-512 | the same for the rainbow row |
| Engine.Tree.TickCandycane | rpi_ws281x-master/python/tree.py:503-512 | the same for the candycane row |
| Engine.Tree.TickClassic | rpi_ws281x-master/python/tree.py:503-512 | the same for the classic row |
| Engine.Tree.TickTwinkle | rpi_ws281x-master/python/tree.py:503-512 | the same for the twinkle row |
| Engine.Tree.TickBlur | rpi_ws281x-master/python/tree.py:503-512 | the same for the blur row |
| Engine.Tree.SettleBlur | rpi_ws281x-master/python/tree.py:505-513 | the blur row's pending command takes effect: the state becomes `Apply` of it, a hard stop clears the pattern, and the loop count and buffer stay |
| Engine.Tree.TickUnmodelled | rpi_ws281x-master/python/tree.py:503-512 | the same for the wind and fairy rows |
| Engine.Tree.TickRow | rpi_ws281x-master/python/tree.py:503-512 | the same for any row, and no other row's state, loop count or cleared status changes |
| Engine.Tree.Tick | rpi_ws281x-master/python/tree.py:502-513 | after one pass over the catalog every row's state is what stepping and its pending command allow, running patterns count one more loop, hard-stopped ones are cleared, and no command is pending |

## Left out

- The websocket server, the browser page that sends pattern names, the
  signal handler, `print`, `strip.show()`, the `time()` measurement and the
  40 Hz `sleep`. Only the body of one pass of the main loop is modelled, as
  `Engine.Tree.Tick`.
- Concurrency between the server thread and the main loop. Commands and
  ticks are modelled as separate atomic calls.
- `time()` in Rainbow. The source reads the clock afresh on each of the
  ten visits of a step. The model takes one value of `int(time() * 30)`,
  the `clock` parameter of the tick, for all ten.
- `random()` and `shuffle`. They are one `Oracle.Rand` object whose
  contracts promise only the ranges the code relies on.
- Oracle.Rand.Below: does not model the distribution of `random()`, only
  the range of the draw.
- Oracle.Rand.Shuffle: does not model that every order is equally likely,
  only that the result is a reordering.
- The global `strip_order` shuffled at tree.py:497-498. No pattern reads it.
- UnmodelledPattern.Unmodelled.Step: Wind's and Fairy's drawing is
  computed in floating point and is not modelled. The step writes nothing
  to the strip, and the random source decides when their element list is
  full or empty.
- UnmodelledPattern.Unmodelled.constructor: Fairy's per-pixel brightness
  and hue tables are not modelled.
- TwinklePattern.Twinkle.Brighten: does not model the `random() ** 3`
  distribution of the brightening step, only its range 0..24.
- BlurPattern.Blur.NewDot: `wheel(hue, random() ** 2)` scales by a
  fractional brightness. The model dims each channel by a drawn factor
  `k / 256` and rounds down, so it does not model the squared distribution.
- BlurPattern.Left: assumes that index -1 of the strip's pixel data reads
  the last pixel. That data is the driver binding's object, which is not
  part of this model, and the driver's own guard refuses only indices at
  or past the pixel count.
- BlurPattern.Blur.Step: on a strip shorter than forty pixels one step can
  run through a whole pass between two reshuffles. The model states the
  positions visited before the first and after the last reshuffle, and of
  the others only that they lie on the strip.
- BlurPattern.Blur.Rebase: states only that the base colour stays a hue
  and changes on hundredth loops only, not the one-in-ten chance.
- Engine.Tree.Tick: states the lifecycle outcome of every row, not the
  pixels. What each row's step draws is stated by its `Engine.Tree.Step…`
  method, and the tick calls those steps in catalog order.
- Engine.Tree.Solo: an unknown name makes the source raise an exception
  inside the server callback. The model returns `false` instead, with
  nothing changed.
- Integer widths. Python integers are unbounded, and the model's
  `int`/`nat` are too. Pixel words are 32-bit bit-vectors, and the blur
  average is computed on them exactly as written.
