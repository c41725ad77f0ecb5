# canvas-game: the per-frame game logic, in Dafny

A model of the simulation core of a small canvas platformer (`js/index.js`):
one player rectangle under gravity, a name label that follows it, a keyboard
state machine, and a per-frame policy that turns held keys into horizontal
moves, a decay of horizontal speed, and jumps. Everything is a pure function
over immutable records; drawing is stripped out.

Numbers are Dafny `real`s (exact rationals). `Number(v.toFixed(2))` is modelled
as rounding to hundredths (a tie goes to the larger hundredth; a negative value
is rounded by its magnitude). Constants are resolved the way the code evaluates
them at load time: `Map` is `{width: 1000, height: 0}` because an object literal
is truthy, and `Gravity` is 1 because `fps` is still `undefined` when it is
computed. `GroundLevel` (the canvas height at start-up) is a parameter.

Modules, one per component:

- `Rounding` (rounding.dfy): `toFixed(2)` on exact values.
- `FrameRate` (frame_rate.dfy): `getFps`, as written and as evidently intended.
- `Config` (config.dfy): the module-level constants.
- `Physics` (physics.dfy): the entity and its step `Object.update`.
- `Nametag` (nametag.dfy): the label and its update `Text.update`.
- `Input` (input.dfy): the `keydown`/`keyup` handlers as transitions on an input state.
- `Movement` (movement.dfy): the horizontal decision, the speed decay, the jump guard.
- `Game` (game.dfy): `animate` as a tick over the whole game state, the
  `setTimeout` callbacks as pending effects applied by separate `Fire` events,
  and the invariant every reachable state satisfies.

Three consequences of the code worth stating plainly:

- With `a` and `d` both held, a frame decays the horizontal speed whatever
  `lastKey` is: each direction needs the other key released
  (`Movement.DirectionsExclusive`).
- Eleven frames 100 ms apart give `floor(10000 / (1000 - 0)) = 10` frames per
  second once the window persists (`FrameRate.TenFramesPerSecond`).
- A grounded entity that lifts off ends the frame with its upward speed plus
  `Gravity`, not with `Gravity` alone (`Physics.GroundedStep`).

## Model

| member | source | states |
|---|---|---|
| `Rounding.RoundMagnitude` | js/index.js:198-200 | a non-negative value rounds to a whole number of hundredths, within half a hundredth, never negative, and values already on the grid are unchanged |
| `Rounding.ToFixed2` | js/index.js:198-203 | `Number(x.toFixed(2))` lands on the hundredths grid within half a hundredth of `x`, a tie going away from zero; it keeps the sign of `x` and is the identity on the grid |
| `Rounding.ToFixed2Odd` | js/index.js:201-203 | rounding a negative value is rounding its magnitude and negating |
| `Rounding.NegatedOnGrid` | js/index.js:201-203 | a value is on the hundredths grid exactly when its negation is |
| `Rounding.ToFixed2Idempotent` | js/index.js:198-203 | rounding twice is rounding once |
| `FrameRate.Reading` | js/index.js:163 | the frame rate is infinite exactly when no time elapsed over the window; otherwise the whole number of times the elapsed time fits in 10000 ms |
| `FrameRate.Sample` | js/index.js:158-166 | with a persistent window: the new timestamp goes to the front; below ten stored timestamps the reading is kept; from ten on the oldest is dropped and the reading is taken against it |
| `FrameRate.SampleAllWindow` | js/index.js:158-166 | after any sequence of frames the window holds the last ten timestamps newest first, and from the eleventh frame on the reading spans exactly ten frames |
| `FrameRate.GetFps` | js/index.js:158-166 | as written, each call allocates a new window, so `fps` is returned unchanged |
| `FrameRate.GetFpsNeverComputes` | js/index.js:158-166 | as written, `fps` keeps its initial value over any number of frames |
| `FrameRate.TenFramesPerSecond` | js/index.js:158-166 | frames at 0, 100, ..., 1000 ms give a reading of 10 with the persistent window, and `undefined` as written |
| `Config.GravityFor` | js/index.js:48 | gravity is 0.5 exactly when the frame rate is above 60 (an infinite rate counts), else 1 |
| `Config.GravityIsOne` | js/index.js:48 | evaluated at load time, before any frame, gravity is 1 |
| `Physics.Step` | js/index.js:80-100 | after a step x is within [0, 1000], y is at least 0, each equal to the moved coordinate when that is in range; the vertical speed is zeroed on ground contact and otherwise increased by gravity; `isFalling` holds exactly when the unclamped bottom edge is above the ground; horizontal speed, size, name and colour are unchanged |
| `Physics.GroundedStep` | js/index.js:87-91 | an entity that starts a frame touching the ground ends it with vertical speed 0, or with its upward speed plus gravity |
| `Physics.RestingStaysPut` | js/index.js:84-99 | an entity at rest on or below the ground line stays exactly where it is for any number of frames |
| `Physics.SinksBelowGround` | js/index.js:87-99 | there is no lower clamp: a step can leave the bottom edge below the ground line, at rest |
| `Physics.EventuallyLands` | js/index.js:84-95 | whatever its position and speed, an entity left alone stops falling after finitely many frames |
| `Physics.LandsAfterRising` | js/index.js:84-95 | an entity moving up or slowly down lands, by induction on how long gravity needs to make it fall at least one unit per frame |
| `Physics.LandsAfterDescending` | js/index.js:84-95 | an entity falling at least one unit per frame lands, by induction on its distance to the ground |
| `Nametag.Anchor` | js/index.js:128-129 | the tracked point is level with the entity's top edge and equidistant from its left and right edges |
| `Nametag.Track` | js/index.js:126-130 | the label moves to the entity's anchor; offset, text, font and colour are unchanged |
| `Nametag.TrackCentres` | js/index.js:128-129 | after tracking, the label lies over the entity's top edge, and tracking again changes nothing |
| `Nametag.TrackReadsPositionAndWidth` | js/index.js:128-129 | the label depends on the entity only through its position and width |
| `Input.Lower` | js/index.js:219 | lower-casing keeps the length and maps each character on its own |
| `Input.LowerIsLetter` | js/index.js:219 | a key name lower-cases to a one-letter name exactly when it is that letter in either case |
| `Input.KeyDown` | js/index.js:218-235 | `w`/`W` sets the w flag; `a`/`A` and `d`/`D` set their flag and make that letter the last key; every other key leaves the state unchanged |
| `Input.KeyUp` | js/index.js:236-251 | `w`, `a`, `d` in either case clear only their flag; the last key is never changed; every other key leaves the state unchanged |
| `Input.LowerIdempotent` | js/index.js:219 | lower-casing a key name twice is lower-casing it once |
| `Input.CaseInsensitive` | js/index.js:219 | both handlers give the same result for a key name and its lower-case form |
| `Input.TapRemembersLastKey` | js/index.js:218-251 | pressing and releasing `a` or `d` clears its flag but leaves it recorded as the last key; a `w` tap only toggles `w` |
| `Movement.Decide` | js/index.js:178-196 | the frame moves right exactly when `d` alone is held, pressed last and x is within the map's right edge; left symmetrically; with both or neither of `a`, `d` held it decays |
| `Movement.DirectionsExclusive` | js/index.js:178-196 | the two directions are never both cleanly held; both keys held always decays; without a recorded last key nothing moves |
| `Movement.DecayVelocity` | js/index.js:196-206 | decay leaves 0 at 0, shrinks a speed of at least 0.4 in size towards zero without crossing it, and lands within half a hundredth of a 0.4 step towards zero; the result is always a whole number of hundredths, and a speed already in hundredths loses exactly 0.4 |
| `Movement.JumpReady` | js/index.js:209 | a jump is due exactly when `w` is held, the player is not falling and it is not above the map's top edge (the map height is 0) |
| `Movement.DecayOdd` | js/index.js:197-204 | decay treats leftward and rightward speeds alike |
| `Movement.GridPointIndex` | js/index.js:196-206 | a whole number of 0.4 steps is on the hundredths grid and is recovered from its value |
| `Movement.DecayOnGrid` | js/index.js:196-206 | on whole multiples of 0.4, decay takes off exactly one step; rounding changes nothing |
| `Movement.DecayKeepsGrid` | js/index.js:196-206 | a speed that is a whole number of 0.4 steps, at most 10 in size, stays one after decay |
| `Movement.MoveSpeedsOnGrid` | js/index.js:184-195 | the move speeds +10 and -10 and rest are whole numbers of decay steps |
| `Movement.DecayStepsOnGrid` | js/index.js:196-206 | from `k` steps either way, `n <= k` frames of decay leave exactly `k - n` steps |
| `Movement.DecayStepsFromZero` | js/index.js:196-206 | a speed of zero stays zero under decay |
| `Movement.StopsAfterSteps` | js/index.js:196-206 | from `k` steps either way, decay is still moving after `k - 1` frames and is exactly 0 from frame `k` on |
| `Movement.FullSpeedStopsAfter25` | js/index.js:184-206 | released from speed 10 or -10, the player is still moving after 24 frames and stopped from frame 25 on |
| `Movement.GridSpeedStops` | js/index.js:196-206 | any speed that is a whole number of 0.4 steps of size at most 10 has decayed to exactly 0 after 25 frames |
| `Movement.DecayStepsSplit` | js/index.js:196-206 | decaying m frames and then n frames is decaying m + n frames |
| `Movement.SmallSpeedOscillates` | js/index.js:196-206 | a speed smaller than one step ends at zero or on the other side, never on the same side; 0.2 and -0.2 alternate forever |
| `Game.Apply` | js/index.js:184-213 | a move callback sets only the horizontal speed; the jump callback sets the vertical speed to -20 and clears the `w` flag; positions, label and clock are untouched |
| `Game.MoveEffects` | js/index.js:184-195 | a move frame schedules exactly one callback, setting the speed to +10 for a right move and -10 for a left move; a decay frame schedules none |
| `Game.Without` | js/index.js:184-213 | running the `i`-th callback removes exactly that one; the others stay pending in their order |
| `Game.Tick` | js/index.js:167-215 | a frame moves the player as its step does and keeps its size, name and colour, puts the label on the moved player, changes only the label's position, keeps the input, keeps every pending callback and appends new ones, and samples the clock |
| `Game.Handle` | js/index.js:167-251 | a frame runs `animate`, a key press or release runs its handler on the input, and a pending callback does exactly what it names to the player and the input (a jump also releases `w`) and is removed with the others kept in order; key events change only the input, and a release never changes `lastKey`; a callback moves nothing; only frames move the player or the label |
| `Game.TickPolicy` | js/index.js:178-214 | since the step keeps x on the map, a cleanly held `d` schedules exactly one +10 move and `a` exactly one -10 move, leaving the speed untouched; otherwise nothing moves and the speed decays now; after that, one jump is scheduled exactly when `w` is held and the player is not falling |
| `Game.TickKeepsValid` | js/index.js:167-215 | a frame keeps the player on the map and below its top, keeps its horizontal speed a whole number of decay steps within [-10, 10], and schedules only move and jump callbacks |
| `Game.HandleKeepsValid` | js/index.js:167-251 | frames, key events and callbacks all keep that invariant |
| `Game.RunKeepsValid` | js/index.js:167-251 | any sequence of events keeps that invariant |
| `Game.StartObjects` | js/index.js:134-155 | the player starts at (100, 100) with speed (0, 10), 75 by 200, not falling; the label carries the player's name with offset (0, 20) and starts at the constructor's default position (0, 0), off the player, until the first frame puts it there; nothing is pressed or pending |
| `Game.StartValid` | js/index.js:134-147 | the start-up player satisfies the invariant |
| `Game.Reachable` | js/index.js:134-254 | every state reachable from start-up satisfies the invariant, whatever the keys and callback order |
| `Game.LabelFollowsPlayer` | js/index.js:126-130 | once a frame has placed the label on the player, it stays on the player through any events; it is drawn before it moves, so a frame draws it where the previous frame left the player |

## Left out

- Drawing: `drawCanvas`, `Object.draw`, `Text.draw` and all canvas calls. They paint pixels and compute nothing the game reads back.
- `requestAnimationFrame` and the 25 ms delay of `setTimeout`. Callbacks are pending effects that may run in any order after the frame that scheduled them; real timing is not modelled.
- `addEventListener` wiring. Only the handlers' effect on the input state is modelled.
- IEEE-754 arithmetic. Numbers are exact rationals, so `toFixed` rounds the exact value and the signed zero that `Number("-0.00")` gives is not distinguished from 0.
- `innerWidth` and `innerHeight`. The canvas height is the `groundLevel` parameter; the canvas width is never used by the logic.
- The unused `s`, `up`, `down`, `left`, `right` flags. No handler ever sets them.
- `Text`'s `this.name = name`, which stores the page's global `name`. It is display data that nothing reads.
- The first `animate()` call passes no timestamp. The model passes a number to every frame.
- Game.Tick: samples the frame-rate estimator with the persistent window (`FrameRate.Sample`), not `getFps` as written, whose calls change nothing. Nothing in the game reads the frame rate after load, so no other state differs.
- Input.Lower: lower-cases only the letters A to Z, not all of Unicode as `toLowerCase` does. No other character lower-cases to `w`, `a` or `d`, so the handlers behave the same.

## Findings

| source | as written | input that shows it | evidently intended | confidence | as-written member | corrected member |
|---|---|---|---|---|---|---|
| js/index.js:158-166 | `let t = []` is inside `getFps`, so the window holds one timestamp, `t.length > 10` never holds, and `fps` is never computed (`FrameRate.GetFpsNeverComputes`, `FrameRate.TenFramesPerSecond`) | frames at 0, 100, ..., 1000 ms: `fps` stays `undefined` | the window persists between calls, and from the eleventh frame on `fps = floor(10000 / (now - timestamp ten frames earlier))`, i.e. 10 for that input (`FrameRate.SampleAllWindow`) | high; not executed | `FrameRate.GetFps` | `FrameRate.Sample` |

The game state (`Game.World`) carries the corrected tracker, sampled once per
frame. Nothing else reads the frame rate after load: `Gravity` is computed
once, before the first frame, so it is 1 either way.
