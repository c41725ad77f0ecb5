/**
 The game's module-level constants (js/index.js:46-51), resolved the way the
 code evaluates them once at load time.
 */
module Config {
  import opened FrameRate

  /** `{ width: 1000, height: 0 } || canvas.width`: an object literal is always
      truthy, so the canvas width is never consulted. */
  const MapWidth: real := 1000.0
  const MapHeight: real := 0.0

  const MovementSpeed: real := 10.0
  const JumpHeight: real := 20.0

  /** How much one frame of decay takes off the horizontal speed. */
  const DecayStep: real := MovementSpeed * 0.04

  /** `fps > 60 ? 0.5 : 1`: `undefined > 60` is false, `Infinity > 60` is true. */
  function GravityFor(fps: FpsReading): (g: real)
    ensures g == 0.5 <==> (fps.Unbounded? || (fps.Rate? && fps.fps > 60))
    ensures g == 0.5 || g == 1.0
  {
    match fps
    case Unset => 1.0
    case Rate(n) => if n > 60 then 0.5 else 1.0
    case Unbounded => 0.5
  }

  /** Evaluated at load time, before any frame has set `fps`. */
  const Gravity: real := GravityFor(Unset)

  /** The gravity constant is one unit per frame, whatever the display's rate. */
  lemma GravityIsOne()
    ensures Gravity == 1.0
  {
  }
}
