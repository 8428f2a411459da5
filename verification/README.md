# 3d_spritefield simulation core in Dafny

A model of the per-frame simulation of the `spritefield` program (`init.c`):
thousands of billboard sprites drift toward the viewer along the depth axis,
are recycled to the back when they would pass through the screen, are panned
by directional keys, and are projected to screen rectangles every step.

The model has six modules:

- `Config`: the compile-time constants. The window is 800 high and 1400 wide. The store holds 5000 sprites. A step is 100 units. The recycle depth is `50 * WINDOWWIDTH` = 70000.
- `Arith`: two ways of rounding a quotient. `Trunc` discards the fractional part of a real, as a C `double`-to-`int` assignment does. `CDiv` is C99 integer division, which also truncates toward zero; it serves as an independent integer reference for the projection.
- `Sprites`: the `Sprite` record and `Project`, the model of `real_to_screen`.
- `Stepper`: `Advance` (the `switch` of `step`), `StepSprite`, `Step` over the whole store, and `Run` for a sequence of steps. Also the store invariant and the lemmas about depth recycling and panning.
- `Controller`: the key-event dispatch of the animation loop as a pure function of `(active key, event)` that returns the new state and the emitted actions `Start(dir)` / `Cancel(dir)`.
- `FrameLoop`: one frame drains the events and then drifts the field by `step(0)`. The loop runs frames until quit. Each motion thread's tick is a pan step.

Quirks of the code that the model keeps as written:

- Key-up never resets the active key. After pressing and releasing Up, pressing Up again starts nothing until another direction has been pressed.
- The Left case of the key-up `switch` has no `break`. Releasing A or Left therefore cancels the Left thread and then the Right thread too. The code has Left falling into Right, and the model follows the code.
- The direction `switch` in `step` has no default. A direction byte above 4 changes no real coordinate and only re-projects.
- The projection scales x by the window height, not the width. It then adds `WINDOWWIDTH/2` = 700 to x and `WINDOWHEIGHT/2` = 400 to y, and the sum is truncated.

## Model

| member | source | states |
|---|---|---|
| Arith.Trunc | init.c:103-106 | the result is the integer part of the real: within one below a non-negative value, within one above a negative one |
| Arith.TruncQuotient | init.c:103-106 | truncating the exact rational quotient `n / d` gives the C99 integer quotient `CDiv(n, d)` |
| Sprites.Project | init.c:102-107 | no ensures of its own; its integer form is stated by Sprites.ProjectQuotients |
| Sprites.ProjectQuotients | init.c:102-107 | the screen rectangle of `Project` in pure integer terms: `w = CDiv(wreal*800, z)`, `h = CDiv(hreal*800, z)`, `y = CDiv(yreal*800 + 400*z, z)`, `x = CDiv(xreal*800 + 700*z, z)`; it depends only on the real fields |
| Sprites.ProjectAtFocalDepth | init.c:102-107 | at depth 800 the extent is unchanged and the position is shifted to the window centre |
| Sprites.ProjectExample | init.c:102-107 | `wreal=100, hreal=50, xreal=0, yreal=0, zreal=800` projects to `(x=700, y=400, w=100, h=50)` whatever the previous rectangle |
| Stepper.Advance | init.c:116-143 | approach lowers z by 100 when that stays positive and otherwise sets it to exactly 70000; each pan moves exactly one of x/y by ±100; no other field changes; a byte above 4 changes nothing |
| Stepper.StepSprite | init.c:114-145 | the stepped sprite has the advanced real fields, a non-zero depth and a rectangle equal to the projection of those fields |
| Stepper.Step | init.c:110-147 | the store keeps its length and order, and sprite `i` becomes sprite `i` stepped |
| Stepper.InitialStoreValid | init.c:227-246 | sprites created at depth `(rand()%50+1)*1400` form a valid store: every depth in (0, 70000] and a multiple of 100, and every rectangle fresh |
| Stepper.AdvanceLive | init.c:118-124 | every step keeps a depth in (0, 70000] there and on the 100-grid, so the projection never divides by zero |
| Stepper.StepPreservesValid | init.c:110-147 | `step` in any direction preserves the store invariant |
| Stepper.Run | init.c:110-147 | any sequence of steps from a valid store leaves a valid store |
| Stepper.StepOutOfRange | init.c:116-145 | for a direction above 4 a valid store is left exactly as it was; only the re-projection happens |
| Stepper.PanInverse | init.c:128-142 | on a sprite with a fresh rectangle, up then down, down then up, left then right, and right then left each restore the sprite exactly |
| Stepper.StepPanInverse | init.c:128-145 | the same holds for `step` over a whole valid store |
| Stepper.PanDisplacement | init.c:128-142 | a sequence of pans moves x by 100 per Left minus 100 per Right, moves y by 100 per Up minus 100 per Down, and leaves z alone |
| Stepper.PanOrderIrrelevant | init.c:128-142 | two sequences of pans with the same multiset of directions have the same effect |
| Stepper.DepthCycle | init.c:118-124 | after `n` approaches a live grid sprite's depth is its step count less `n` wrapped round the 700-step cycle, times 100; x and y are unchanged |
| Stepper.DepthPeriod | init.c:118-124 | the depth orbit repeats every 700 approaches |
| Stepper.RunPointwise | init.c:112-146 | a run over the store acts on each sprite independently of the others |
| Stepper.InterleavedPans | init.c:128-142 | any interleaving of pan steps over a valid store moves every sprite by the net count along each axis and leaves its depth alone |
| Stepper.DriftFrames | init.c:118-124 | `n` approach steps over a valid store move every sprite `n` steps round its depth cycle and leave its position alone |
| Controller.KeyBinding | init.c:260-289 | W and Up bind Up, S and Down bind Down, A and Left bind Left, D and Right bind Right; each equivalence holds in both directions |
| Controller.ActiveKey.Code | init.c:47-65 | the `active_key` byte is 0 exactly when no key is active and otherwise 1 to 4, and two active-key states share a byte only when they are equal, so testing the byte is testing the key |
| Controller.ReleaseCancels | init.c:294-309 | releasing Left cancels Left and then Right (the missing `break`); releasing any other direction cancels only that direction |
| Controller.HandleEvent | init.c:256-313 | quit sets only the quit flag; a bound key-down emits `Start(d)` and sets the active key to `d` exactly when the active key differs from `d` (tested, as in the source, on the `active_key` byte, which `ActiveKey.Code` shows is one-to-one), and otherwise does nothing; key-up never changes the state and emits only cancellations; unbound keys and other events change nothing |
| Controller.KeyDownIdempotent | init.c:259-292 | a repeated key-down of the same key emits nothing and leaves the state unchanged |
| Controller.HandleEventsAppend | init.c:256-314 | dispatching two polls one after the other equals dispatching their concatenation: the state threads through and the actions concatenate |
| Controller.HandleEvents | init.c:256-314 | after a poll the quit flag is set exactly when it was already set or some event was a quit; without a key-down the active key is unchanged |
| Controller.StartsNeverRepeat | init.c:259-292 | over any event sequence no direction is started twice in a row, the first start differs from the prior active key, and the final active key is the direction last started |
| Controller.SingleKeyStartsOnce | init.c:259-312 | any pattern of presses and releases of one direction's keys starts that direction exactly once when some press occurs and it was not already active, and never otherwise |
| Controller.PressReleasePress | init.c:259-312 | KeyDown, KeyUp, KeyDown of one key emits exactly one `Start`, followed by that key's release cancellations |
| FrameLoop.Frame | init.c:255-335 | one frame keeps the store valid, sets quit exactly when the poll held a quit, leaves the control state and emits the thread actions of dispatching the poll, and advances every sprite by one approach step |
| FrameLoop.RunFrames | init.c:255-335 | the loop ends only on quit or when the polls run out; no frame before the last one saw a quit; the final control state and all thread actions are those of dispatching the drained polls' events in order; the store is the initial one after one approach step per frame |
| FrameLoop.RunFramesNeverRepeat | init.c:255-335 | over the whole loop no direction's thread is started twice in a row, the first start differs from the initial active key, and the final active key is the direction last started |
| FrameLoop.TaskStep | init.c:152-176 | the Up thread steps direction 1, Down steps 2, Left steps 3 and Right steps 4, the same byte `ActiveKey.Code` gives the active key for that direction |
| FrameLoop.TaskTicks | init.c:152-176 | `n` ticks of one motion thread move every sprite of a valid store `n` steps along that thread's axis and leave its depth alone |

## Left out

- SDL setup, windows, the renderer, textures and image loading (`init_sprite`, `render_sprite`, `SDL_RenderClear`/`SDL_RenderPresent`) are foreign-library I/O. The texture is an opaque `nat` handle. `wreal`/`hreal` are given non-negative integers.
- `sprite_scale` multiplies by the `double` 2.8. That is floating point, so the initial extents are taken as given.
- `screenshot` and the frame-capture gate are file I/O. The gate is also dead code while `GIFFRAMES` is 0, so the frame and screenshot counters are not modelled.
- Thread creation and cancellation, the `move_*` loops, the mutex and the `SDL_Delay` timing are not modelled, because their point is concurrency and asynchronous cancellation. The dispatch emits `Start`/`Cancel` actions instead. The active key is a plain field. A thread's tick is one pan `step` (`FrameLoop.TaskStep`). Races between threads and the frame loop on the unsynchronised store are out of scope. The interleaving lemmas cover only sequential interleavings of whole steps.
- Stepper.InitialStoreValid: assumes every `init_sprite` call succeeded. `main` ignores its return value (init.c:236, init.c:241); when `IMG_Load` fails, `init_sprite` returns at init.c:71-74 before setting any real field, and the sprite is then scaled and projected with an uninitialised `zreal` (init.c:237, init.c:244). The invariant, and with it the absence of a division by zero, holds only when every image loads.
- The `rand()` initialisation is not modelled. Only the ranges it produces appear, in `Stepper.InitialSprite`.
- C `int` overflow of `xreal`/`yreal` under unbounded panning is not modelled: coordinates are unbounded integers. An out-of-range `double`-to-`int` conversion is not modelled either.
- Sprites.ProjectQuotients: computes the exact rational quotient, not the rounded `double` one. The two truncate the same way only while numerators stay far below 2^53 and depths stay within (0, 70000]. A non-integer quotient `n/z` is then at least `1/z` away from any integer, which is far more than the rounding error.
- Sprites.ProjectQuotients: requires a non-zero depth. The source divides by zero there, which `Stepper.AdvanceLive` shows never happens from a valid store.
- SDL scancode values (A=4, D=7, S=22, W=26, Right=79, Left=80, Down=81, Up=82) come from SDL's public header, which is not part of this model. Only their distinctness matters.
