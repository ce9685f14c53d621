# Ballcatching game core in Dafny

This project models the game logic of `game.js`, a browser "catch the falling
ball" game. A catcher follows the pointer along the bottom of the canvas.
Balls are spawned at the top at a rate set by the difficulty mode and fall
at the mode's speed. A caught ball is worth 10 points. A ball that falls
past the bottom costs one life. When the lives run out, the game-over screen
shows for 1.2 seconds and then the main screen returns.

The project has three modules:

- `Modes` (`modes.dfy`) is the fixed table of difficulty presets: `easy`,
  `normal` and `hard`, each with its starting lives, spawn interval and
  falling speed.
- `Rules` (`rules.dfy`) states the game's rules as functions on one value of
  type `Session`, which holds everything a frame, a button or the pointer
  can change. The frame is split into these functions:
  - `Aim`: snap and clamp the catcher.
  - `Spawn`: add at most one ball.
  - `Sweep`: move, catch and miss the balls.
  - `Update`: the three steps above, in order.
  - `Linger`: the game-over dwell.
  - `Frame`: the gate `playing && !gameOver`, then the dwell.

  The buttons are `SelectMode`, `Start` and `ToMenu`, and the pointer is
  `Point`. The predicate `Inv` is what holds between frames. The lemmas
  about these functions carry the properties of the game.
- `Game` (`game.dfy`) is the imperative program. Class `Catcher` is the
  catcher object. Class `Game` holds the file-scope state of the script:
  mode, configuration, score, lives, flags, the ball array and the two
  timers. Each of its methods updates those fields in place. Its contract
  states that the new state is exactly what the matching `Rules` function
  gives for the old state, and that `Inv` is kept. `SweepBalls` is the
  source's backward loop over the ball array: it removes balls in place
  at index `i` while walking from the last index to the first. It is
  proved equal to `Rules.Survivors` and `Rules.Count`, which read the
  balls front to back.

Lives are not clamped at zero. When several balls miss in one frame, the
loop keeps going after the game is over, so lives can end below zero:
lives are not kept non-negative. The model follows the code, and
`Rules.LivesCanGoNegative` shows a frame that ends at −1 lives. What does
hold, in `Rules.Inv`, is that the game is over exactly when lives ≤ 0.

## Model

| member | source | states |
|---|---|---|
| Modes.Lookup | game.js:48-52 | exactly the keys `easy`, `normal`, `hard` have a preset, with the listed lives, spawn interval and speed; every preset has at least one life and a positive interval and speed |
| Rules.Clamp | game.js:216 | the result is never below `lo`, is at most `hi` when `lo <= hi`, is `v` when `v` is already in range, `lo` when `v < lo`, `hi` when `lo <= hi < v`, and `lo` whenever the bounds cross (`hi < lo`) |
| Rules.CatcherInside | game.js:215-216 | after an update the catcher lies in `[w/2, W - w/2]` whatever the pointer position, whenever the catcher is no wider than the canvas |
| Rules.Spawned | game.js:221-227 | a new ball starts at `y = -BALL_H` with `vy` the mode's speed and the sprite's size; for a random draw in `[0, 1)`, when the ball is narrower than the canvas, its centre lies in `[BALL_W/2, W - BALL_W/2)` |
| Rules.SpawnOnce | game.js:218-228 | one update appends exactly one ball and resets the accumulator when `spawnTimer + dt > spawn` (strictly); otherwise it appends nothing and only accumulates; this holds for any `dt` |
| Rules.FateOf | game.js:235-261 | each moved ball is caught iff its centre is strictly inside the catcher box, missed iff it is not caught and is below the canvas, and kept otherwise; a catch takes priority over a miss |
| Rules.CountPartition | game.js:230-262 | every ball is classified exactly once (caught + missed + kept = all balls), and the kept balls are the survivors |
| Rules.KeptAreSurvivors | game.js:230-232 | each survivor is the original ball at a kept position, moved down by `vy * dt` |
| Rules.KeptIncreasing | game.js:230-262 | the kept positions are strictly increasing, so the survivors keep their relative order |
| Rules.KeptExactly | game.js:235-261 | a position is kept iff its ball is neither caught nor missed |
| Rules.SurvivorsOnField | game.js:248-251 | no ball left after the sweep is below the canvas or inside the catcher |
| Rules.SpliceAt | game.js:230-262 | one step of the backward in-place sweep: writing the moved ball at `i` and splicing it out when caught or missed turns "prefix up to `i`, then survivors after `i`" into "prefix before `i`, then survivors from `i`" |
| Rules.CountAt | game.js:241-251 | the score and lives counts from position `i` are the count for ball `i` plus the counts after it |
| Rules.UpdateAccounting | game.js:214-263 | an update raises the score by 10 per caught ball and lowers the lives by one per missed ball; score never decreases, lives never increase, and at most one ball is added |
| Rules.UpdateGameOver | game.js:248-257 | a miss that leaves lives ≤ 0 sets game over and resets the dwell timer to 0; otherwise the flag and timer are unchanged; mode, configuration and `playing` are never touched |
| Rules.LivesCanGoNegative | game.js:248-257 | with one life left, two misses in the same frame end at −1 lives with the game over |
| Rules.FrameGate | game.js:203-212 | on the main screen a frame changes nothing; on the game-over screen only the dwell runs; during a round the update runs, then the dwell |
| Rules.DwellTimer | game.js:279-292 | on the game-over screen a frame adds `dt` to the dwell timer; once it reaches 1.2 s the main screen returns with no balls, score 0, the mode's lives, and the mode kept |
| Rules.FramePhases | game.js:203-212 | a frame keeps the invariant; the main screen stays put; a round stays running iff lives remain after the update; the game-over screen never goes back to a round and goes to the main screen iff the dwell has elapsed |
| Rules.FrameMonotone | game.js:203-212 | a frame that does not end on the main screen neither lowers the score nor raises the lives |
| Rules.RoundMonotone | game.js:203-212 | over any run of frames that does not end on the main screen the score never falls and the lives never rise; a run that starts on the main screen stays there |
| Rules.InitialInv | game.js:113-125 | the state at page load satisfies the invariant and shows the main screen |
| Rules.SelectModeFacts | game.js:137-143 | an unknown key changes nothing; a known key sets the mode and its preset and nothing else; selecting twice is the same as once; the invariant is kept |
| Rules.StartFacts | game.js:176-189 | starting a round keeps the invariant, enters a running round, and gives the mode's (positive) lives |
| Rules.ToMenuFacts | game.js:163-174 | returning to the main screen keeps the mode, shows the main screen and restores the mode's lives |
| Rules.PointFacts | game.js:192-196 | a pointer move sets both `x` and `targetX` to the pointer, unclamped, and keeps the invariant |
| Rules.UpdateKeepsInv | game.js:214-263 | an update during a round keeps the invariant and never leaves the round for the main screen |
| Game.Catcher.constructor | game.js:119-125 | the catcher starts at `x = targetX` with the given fixed `y` and size |
| Game.Game.constructor | game.js:54-201 | the state after page load is `Rules.Initial`: mode `normal`, its lives, score 0, main screen, no balls, catcher centred, timers 0; the invariant holds |
| Game.Game.SetMode | game.js:137-143 | the fields change as `Rules.SelectMode` says, and the invariant is kept |
| Game.Game.GoToMainScreen | game.js:163-174 | the fields change as `Rules.ToMenu` says; the invariant holds afterwards when the mode was a table key with its preset |
| Game.Game.StartGame | game.js:176-189 | the fields change as `Rules.Start` says, and the invariant is kept |
| Game.Game.PointerMove | game.js:192-196 | the catcher changes as `Rules.Point` says, and the invariant is kept |
| Game.Game.Update | game.js:214-263 | the in-place update leaves exactly the state `Rules.Update` gives, and keeps the invariant |
| Game.Game.SweepBalls | game.js:230-262 | the backward loop with in-place splices leaves the survivors in order, adds 10 per caught ball, subtracts one life per missed ball, and sets game over with the timer at 0 exactly when a miss leaves lives ≤ 0 |
| Game.Game.SweepAt | game.js:231-261 | one iteration of that loop for the ball at index `i` extends the swept suffix by one position |
| Game.Game.Tick | game.js:203-212 | one animation frame leaves exactly the state `Rules.Frame` gives, and keeps the invariant |

## Left out

- Rendering, the HUD text, the start screen's visibility, mode-button highlighting and the screen lock: these are DOM effects with no bearing on the game state.
- Sound effects and their unlock on the play button, and `music.js`: `music.js` is not part of this model.
- Frame timing: `dt` is a parameter of `Tick`, not computed from `performance.now()` or the animation timestamp. Like the code, the model does not clamp a negative or huge `dt`.
- `Math.random()`: it is the parameter `rnd` of `Update` and `Tick`. The placement bound in `Rules.Spawned` assumes the draw lies in `[0, 1)`.
- Image loading: the canvas, ball and catcher sizes are constructor parameters that stay fixed afterwards. In the code, image `onload` handlers can change `BALL_W`, `BALL_H`, `catcher.w` and `catcher.h` at any time.
- The mapping from pointer coordinates to canvas coordinates: `PointerMove` receives the canvas `x` directly.
- Numbers are mathematical reals and integers, not IEEE doubles. Rounding in `rnd * (W - BALL_W)`, `b.vy * dt` and the timer sums is not modelled.
- Modes.Lookup: only the table's own keys are modelled. In JavaScript, `MODES["toString"]` and other inherited property names are truthy, so `setMode` would accept them.
- Balls are values in a sequence, not shared objects, so object identity and aliasing of ball records are not modelled.
- A smoothed catcher-tracking policy does not exist in this code, which snaps the catcher to the pointer, so only the snap is modelled.
