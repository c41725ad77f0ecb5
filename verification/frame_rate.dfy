/**
 The frame-rate estimator `getFps` (js/index.js:158-166). It pushes the
 current timestamp onto the front of a window of recent timestamps; once the
 window holds more than ten, it drops the oldest and sets the frame rate to
 `floor(10000 / (now - oldest))`, i.e. ten frames over the elapsed
 milliseconds.

 As written, the window is a fresh empty array on every call, so it never
 holds more than the one timestamp just pushed and the frame rate is never
 computed. `GetFps` models that; `Sample` is the estimator with a window that
 persists between calls, which is what the length test evidently intends.
 */
module FrameRate {

  /** The value of the global `fps`: `undefined` until computed; a JavaScript
      division by zero makes `Math.floor` return `Infinity`. */
  datatype FpsReading = Unset | Rate(fps: int) | Unbounded

  /** Frames counted over one window. */
  const WindowSize: nat := 10

  /** The estimator's state: timestamps newest first, and the last reading. */
  datatype FpsTracker = FpsTracker(window: seq<real>, fps: FpsReading)

  const Fresh := FpsTracker([], Unset)

  /** `Math.floor((1000 * 10) / (now - oldest))`. */
  function Reading(now: real, oldest: real): (r: FpsReading)
    ensures now == oldest <==> r == Unbounded
    ensures now > oldest ==> r.Rate? && r.fps >= 0
    ensures now > oldest ==> r.fps as real * (now - oldest) <= 10000.0 < (r.fps + 1) as real * (now - oldest)
  {
    if now == oldest then Unbounded
    else
      var n := (10000.0 / (now - oldest)).Floor;
      assert now > oldest ==> n >= 0 && n as real * (now - oldest) <= 10000.0 < (n + 1) as real * (now - oldest) by {
        if now > oldest {
          FloorOfQuotient(10000.0, now - oldest);
        }
      }
      Rate(n)
  }

  /** `floor(a / d)` times `d` brackets `a`. */
  lemma FloorOfQuotient(a: real, d: real)
    requires a >= 0.0 && d > 0.0
    ensures var n := (a / d).Floor;
            n >= 0 && n as real * d <= a < (n + 1) as real * d
  {
    var q := a / d;
    var n := q.Floor;
    assert q * d == a;
    assert n as real <= q < (n + 1) as real;
    MulMonotone(n as real, q, d);
    MulMonotone(q, (n + 1) as real, d);
    assert a < (n + 1) as real * d;
  }

  lemma MulMonotone(x: real, y: real, d: real)
    requires x <= y && d > 0.0
    ensures x * d <= y * d
    ensures x < y ==> x * d < y * d
  {
  }

  /** One call of the estimator with a window that persists between calls. */
  function Sample(tr: FpsTracker, now: real): (r: FpsTracker)
    ensures |r.window| > 0 && r.window[0] == now
    ensures |tr.window| < WindowSize ==> r == FpsTracker([now] + tr.window, tr.fps)
    ensures |tr.window| >= WindowSize ==>
              && |r.window| == |tr.window|
              && r.window[1..] == tr.window[..|tr.window| - 1]
              && r.fps == Reading(now, tr.window[|tr.window| - 1])
  {
    var t := [now] + tr.window;
    if |t| > WindowSize then
      FpsTracker(t[..|t| - 1], Reading(now, t[|t| - 1]))
    else
      FpsTracker(t, tr.fps)
  }

  /** The tracker after sampling each timestamp of `ts` in order, from a fresh start. */
  function SampleAll(ts: seq<real>): FpsTracker
  {
    if |ts| == 0 then Fresh else Sample(SampleAll(ts[..|ts| - 1]), ts[|ts| - 1])
  }

  /** After any run, the window holds the last (at most ten) timestamps newest
      first, and from the eleventh call on the reading spans exactly ten frames. */
  lemma {:induction false} SampleAllWindow(ts: seq<real>)
    ensures |SampleAll(ts).window| == if |ts| < WindowSize then |ts| else WindowSize
    ensures forall i :: 0 <= i < |SampleAll(ts).window| ==> SampleAll(ts).window[i] == ts[|ts| - 1 - i]
    ensures |ts| <= WindowSize ==> SampleAll(ts).fps == Unset
    ensures |ts| > WindowSize ==> SampleAll(ts).fps == Reading(ts[|ts| - 1], ts[|ts| - 1 - WindowSize])
  {
    if |ts| > 0 {
      var prefix := ts[..|ts| - 1];
      SampleAllWindow(prefix);
      var before := SampleAll(prefix);
      var after := SampleAll(ts);
      assert after == Sample(before, ts[|ts| - 1]);
      forall i | 0 <= i < |after.window|
        ensures after.window[i] == ts[|ts| - 1 - i]
      {
        if i > 0 {
          assert after.window[i] == before.window[i - 1];
        }
      }
    }
  }

  /** `getFps` as written: the window is allocated afresh on every call. */
  function GetFps(now: real, fps: FpsReading): (r: FpsReading)
    ensures r == fps
  {
    Sample(FpsTracker([], fps), now).fps
  }

  /** The reading after calling `getFps` as written once per timestamp of `ts`. */
  function GetFpsAll(ts: seq<real>, fps: FpsReading): FpsReading
  {
    if |ts| == 0 then fps else GetFps(ts[|ts| - 1], GetFpsAll(ts[..|ts| - 1], fps))
  }

  /** As written, the global `fps` keeps its initial value forever. */
  lemma {:induction false} GetFpsNeverComputes(ts: seq<real>, fps: FpsReading)
    ensures GetFpsAll(ts, fps) == fps
  {
    if |ts| > 0 {
      GetFpsNeverComputes(ts[..|ts| - 1], fps);
    }
  }

  /** Eleven frames 100 ms apart: ten frames per second by the intended
      estimator, still `undefined` as written. */
  lemma TenFramesPerSecond()
    ensures var ts := [0.0, 100.0, 200.0, 300.0, 400.0, 500.0, 600.0, 700.0, 800.0, 900.0, 1000.0];
            && SampleAll(ts).fps == Rate(10)
            && GetFpsAll(ts, Unset) == Unset
  {
    var ts := [0.0, 100.0, 200.0, 300.0, 400.0, 500.0, 600.0, 700.0, 800.0, 900.0, 1000.0];
    SampleAllWindow(ts);
    GetFpsNeverComputes(ts, Unset);
    assert (10000.0 / 1000.0).Floor == 10;
  }
}
