# Wheel of misfortune — a Dafny model of the wheel's state machine

The wheel shows a ring of tiles (the page's images). A click on its button
sets it spinning. A timer fires 5000 ms later and the wheel fades out. Once
the fade is done, one tile is picked as the "victim", taken out of the pool
and shown over the whole canvas. The tiles that remain are used for the next
spin.

All of this runs in `Wheel.step`, once per animation frame. It is a state
machine over six states: START, SPINNING, START_FADE, FADING, PICK_VICTIM
and STOPPED. This project models that machine and proves what it promises.

- `wheel_spec.dfy`, module `WheelSpec`, holds the values and the functions
  that specify one frame:
  - the states, the tiles, and the victim choice (the draw of
    `Math.random`, or the sequential alternative);
  - the button gating predicate `ButtonEnabled`;
  - the victim index, and `RemoveAt`, which is `splice(i, 1)`;
  - the ring layout, and the rotation offset taken from the frame's
    timestamp;
  - `Next`, the transition rule, and `Canvas`, what a frame leaves drawn.
- `wheel_runs.dfy`, module `WheelRuns`, proves properties of these:
  - the pool loses exactly the picked tile;
  - the ring draws each tile once, in pool order;
  - the fade countdown;
  - the effect of one whole spin cycle;
  - over many cycles, a picked tile never comes back, and the sequential
    choice picks tiles in page order.
- `wom.dfy`, module `Wom`, holds the class `Wheel`. Its fields are updated in
  place as in the source. Each of its methods is proved against the
  functions above. Its invariant `Valid` says that the pool and the victims
  picked so far split the original tiles, each tile once.

The canvas opacity is kept in hundredths (100 stands for opacity 1, and one
fading frame subtracts 1). Rotations are exact real numbers of degrees. The
canvas is recorded as the list of drawing calls made since it was last
cleared. The button is recorded as its `disabled` flag.

The model follows the code as written:
- the click handler has no guard against a click during a spin;
- PICK_VICTIM has no guard against an empty pool;
- the opacity is also written in START_FADE and STOPPED, not only in FADING.

## Model

| member | source | states |
|---|---|---|
| `WheelSpec.Next` | wom.js:120-187 | A frame asks for another frame exactly when the state is neither START nor STOPPED. Only PICK_VICTIM changes the pool or the victim, and it always ends in STOPPED with a victim set. A frame keeps a non-empty pool in every state of a spin. |
| `WheelSpec.VictimIndex` | wom.js:162-167 | `floor(random * n)` with `random` in [0, 1) is an index into a non-empty pool. The sequential alternative always picks index 0. |
| `WheelSpec.VictimSlice` | wom.js:167 | With a random draw `d` in [0, 1), index `i` of `n` is picked exactly when `i <= d * n < i + 1`: each index gets a slice of width `1 / n`, so every tile is equally likely. |
| `WheelSpec.RemoveAt` | wom.js:168 | `splice(i, 1)` leaves one tile fewer. Putting the removed tile back at index `i` gives the old pool, so the other tiles keep their order. |
| `WheelSpec.Offset` | wom.js:122 | The ring's rotation `(timestamp / 4) % 360` lies in [0, 360). It is a quarter of the timestamp until that reaches 1440. |
| `WheelSpec.OffsetTurns` | wom.js:122 | The rotation repeats every 1440 time units. With the first turn, this gives `(timestamp / 4) % 360` for every timestamp. |
| `WheelSpec.Clicked` | wom.js:53-55 | After a click, PICK_VICTIM will have a tile to pick exactly when the pool is non-empty. |
| `WheelSpec.TimedOut` | wom.js:57-59 | After the timer, PICK_VICTIM will have a tile to pick exactly when the pool is non-empty. |
| `WheelRuns.RemoveAtMultiset` | wom.js:168 | The old pool's contents are the new pool's plus the removed tile, counted with multiplicity. |
| `WheelRuns.RemoveAtDistinct` | wom.js:168 | In a pool without duplicates, the removed tile is no longer in the pool and the remaining tiles stay distinct. |
| `WheelRuns.RingPrefixAt` | wom.js:194-202 | After `m` iterations of the drawing loop, exactly `m` calls have been made. Call `k` draws tile `k` at slot `k` of `|images|` slots. |
| `WheelRuns.RingAt` | wom.js:194-202 | Drawing the ring makes one call per tile. Call `k` draws tile `k` at slot `k`. |
| `WheelRuns.RingShowsPool` | wom.js:198-201 | The tiles the ring draws are exactly the pool, each once, in pool order. |
| `WheelRuns.CanvasShows` | wom.js:124-186 | After a frame in START, SPINNING or FADING the canvas shows the pool's tiles in order. START_FADE and PICK_VICTIM leave the canvas as it was. STOPPED leaves only the victim, drawn over the whole canvas. |
| `WheelRuns.SlotsSplitTurn` | wom.js:195-200 | Adjacent slots are `360 / n` degrees apart, and `n` slots make one full turn. |
| `WheelRuns.Steps` | wom.js:120-187 | Any number of frames from a spin state with a non-empty pool keeps the pool non-empty while the spin lasts. |
| `WheelRuns.SelfLoops` | wom.js:124-186 | START stays START and asks for no frame. SPINNING stays SPINNING and asks for one. Neither changes anything else. STOPPED stays STOPPED, asks for no frame, and only restores full opacity. |
| `WheelRuns.SpinningHolds` | wom.js:131-137 | However many frames the wheel spins, its state, pool, victim and opacity do not change. |
| `WheelRuns.ForcedMoves` | wom.js:141-172 | START_FADE always moves to FADING at opacity 1. PICK_VICTIM always moves to STOPPED, with the tile at the chosen index as victim and the pool without it. |
| `WheelRuns.FadeCountdown` | wom.js:148-160 | From FADING at opacity `o`, after `k <= o` frames the wheel is still FADING at `o - k`. Frame `o + 1` is the first to take the opacity below 0, and it moves the wheel to PICK_VICTIM. |
| `WheelRuns.FadeTakes` | wom.js:139-160 | From START_FADE, the wheel is still FADING at opacity 0 after 101 frames and reaches PICK_VICTIM at -0.01 on frame 102. |
| `WheelRuns.Cycle` | wom.js:53-187 | A click from an enabled button, any number of spinning frames, the timer, and 104 frames leave the wheel STOPPED at opacity 1. The victim is the tile at the chosen index and the pool is the old pool without it. No further frame is asked for. |
| `WheelRuns.CycleEffect` | wom.js:139-187 | From the timer's firing, 104 frames take the wheel through the fade and the pick to the first STOPPED frame, with the tile at the chosen index picked. |
| `WheelRuns.Cycles` | wom.js:165-171 | Each spin cycle takes exactly one tile from the pool, and the wheel ends idle. |
| `WheelRuns.VictimsLeavePool` | wom.js:165-171 | Over any number of cycles, the victims and the remaining pool together are the original pool, counted with multiplicity. |
| `WheelRuns.VictimsNeverReturn` | wom.js:165-171 | From distinct tiles, the victims and the remaining pool together are still distinct: no tile is picked twice, and no picked tile is left in the pool. |
| `WheelRuns.SequentialOrder` | wom.js:162-168 | With the sequential choice (`victimIndex = 0`), `k` cycles pick the first `k` tiles, in page order. |
| `WheelRuns.SequentialPool` | wom.js:162-168 | With the sequential choice, `k` cycles leave the pool as the page's tiles after the first `k`, in their order. |
| `WheelRuns.ExhaustedPoolDisables` | wom.js:79-83 | Once as many cycles as tiles have run, with any choices, the pool is empty, the wheel is STOPPED, and the button is disabled. |
| `Wom.PickKeepsPartition` | wom.js:167-168 | Moving the picked tile from the pool to the victims keeps each original tile in exactly one of the two. |
| `Wom.Wheel.constructor` | wom.js:17-31 | A new wheel is in START. Its pool is the page's images, it has no victim, and its canvas is empty and opaque. The button is left as it was. |
| `Wom.Wheel.Click` | wom.js:53-55 | A click sets SPINNING unconditionally and touches nothing else, as `WheelSpec.Clicked` gives. |
| `Wom.Wheel.TimerFired` | wom.js:57-59 | The timer sets START_FADE and touches nothing else, as `WheelSpec.TimedOut` gives. |
| `Wom.Wheel.SetButtonState` | wom.js:79-97 | The button is disabled exactly when the pool is empty or the state is neither START nor STOPPED. |
| `Wom.Wheel.ClearCanvas` | wom.js:102-109 | Clearing leaves nothing drawn. |
| `Wom.Wheel.DrawTiles` | wom.js:194-202 | The loop adds the ring to the canvas: every pool tile once, in pool order, each a further `360 / n` degrees round from the last. |
| `Wom.Wheel.Redraw` | wom.js:132-134 | Clearing the canvas and drawing the tiles leaves exactly the ring at the frame's rotation on the canvas. |
| `Wom.Wheel.ChooseVictim` | wom.js:165-168 | The victim is the old pool's tile at the chosen index, and the pool is the old pool without it. The invariant is kept. |
| `Wom.Wheel.Step` | wom.js:120-187 | One frame sets the button from the state before the frame. The new state, pool, victim and opacity, and whether another frame is asked for, are as `WheelSpec.Next` gives. The canvas shows what `WheelSpec.Canvas` gives. The invariant is kept: picked tiles never return to the pool. |

## Left out

- Floating point: the opacity is exact hundredths, so the fade takes exactly 101 FADING frames. With the floating-point `opacity - 0.01` the opacity can fall below 0 after 100 or 101 frames.
- Floating point in the victim choice: `Math.random() * n` is computed exactly. Its rounding is not modelled.
- Geometry: `size`, `radius`, the radian conversion, the tile distance `0.7 * radius` and the tile size are left out. They depend on the window and on floating point. Rotations are exact degrees.
- Canvas and drawing: `clearRect` bounds, `drawImage` coordinates, `save`/`rotate`/`restore` and `translate` are calls into the browser. Only the sequence of tiles drawn, and their rotation, is recorded.
- DOM wiring: `querySelector`, the event listeners, `onResize` and the button's width are left out. `onResize` also asks for a frame; that request is not modelled.
- Scheduling: `requestAnimationFrame` is modelled as the boolean `Step` returns. The frame `onClick` asks for, and the `setTimeout` it arms, are not values of the model. `TimerFired` may be called at any time, which covers stale timers from repeated clicks.
- `Wom.Wheel.Step`: requires a non-empty pool in PICK_VICTIM. In the source, `splice` on an empty pool leaves the victim `undefined`, and the STOPPED frame would then fail to draw it.
- `Wom.Wheel.Step`: takes the frame's timestamp as a non-negative real. JavaScript's `%` and the floor-based remainder agree on non-negative values.
- `Wom.Wheel.constructor`: starts at opacity 1. In the source the canvas's opacity style starts unset, which the browser shows as fully opaque. The style is first written in START_FADE.
