/**
 The per-frame animation state GraphicsClass keeps in function-local statics:
 the rocket launch latch of HandleMovementInput and the three accumulators of
 Render (fire-shader time, orbit rotation, rocket height). Here they are
 explicit values threaded from frame to frame.

 All quantities are exact reals; the source's 32-bit floats are not modelled.
 */
module Animation {

  /** XM_PI as DirectXMath spells it. */
  const XmPi: real := 3.141592654

  /** The fire-shader time step added each frame. */
  const FrameTimeStep: real := 0.01

  /** Above this the fire-shader time is reset to zero. */
  const FrameTimeLimit: real := 1000.0

  /** The three Render statics; each starts at 0.0. */
  datatype Accumulators = Accumulators(frameTime: real, rotation: real, rocketHeight: real)

  const Start: Accumulators := Accumulators(0.0, 0.0, 0.0)

  // ---------------------------------------------------------------------------
  // Launch latch

  /** takeOff: the value left in the rocketTakeOff out-parameter;
      latched: the new value of the hasLaunched static. */
  datatype Launch = Launch(takeOff: bool, latched: bool)

  /** The F1 handling of HandleMovementInput. rocketTakeOff arrives holding
      false and is only ever set to true. */
  function LaunchStep(hasLaunched: bool, f1Pressed: bool): (r: Launch)
    ensures r.takeOff <==> hasLaunched || f1Pressed
    ensures r.latched == r.takeOff
    ensures hasLaunched ==> r.latched
  {
    if !hasLaunched && f1Pressed then Launch(true, true)
    else if hasLaunched then Launch(true, hasLaunched)
    else Launch(false, hasLaunched)
  }

  /** The latch after a run of frames, given whether F1 was down in each. */
  function LatchAfter(hasLaunched: bool, presses: seq<bool>): (r: bool)
    ensures hasLaunched ==> r
    ensures presses != [] && presses[|presses| - 1] ==> r
    decreases |presses|
  {
    if presses == [] then hasLaunched
    else LatchAfter(LaunchStep(hasLaunched, presses[0]).latched, presses[1..])
  }

  /** The latch is set after a run exactly when it was set before or F1 was
      pressed in some frame of the run; once set it never clears. */
  lemma {:induction false} LatchAfterRun(hasLaunched: bool, presses: seq<bool>)
    ensures LatchAfter(hasLaunched, presses) <==> hasLaunched || true in presses
    decreases |presses|
  {
    if presses != [] {
      LatchAfterRun(LaunchStep(hasLaunched, presses[0]).latched, presses[1..]);
      assert presses == [presses[0]] + presses[1..];
    }
  }

  // ---------------------------------------------------------------------------
  // Accumulators

  /** The fire-shader time after one frame: one step more, or zero once it passes the limit. */
  function AdvanceFrameTime(frameTime: real): (r: real)
    ensures r == 0.0 || r == frameTime + FrameTimeStep
    ensures r <= FrameTimeLimit
    ensures 0.0 <= frameTime ==> 0.0 <= r
    ensures frameTime + FrameTimeStep <= FrameTimeLimit ==> r == frameTime + FrameTimeStep
  {
    var next := frameTime + FrameTimeStep;
    if next > FrameTimeLimit then 0.0 else next
  }

  /** The Render statics after one frame, with timer value t. */
  function Advance(acc: Accumulators, takeOff: bool, t: real): (r: Accumulators)
    ensures r.frameTime == AdvanceFrameTime(acc.frameTime)
    ensures r.rotation - acc.rotation == XmPi * 0.0005 * t
    ensures takeOff ==> r.rocketHeight - acc.rocketHeight == t
    ensures !takeOff ==> r.rocketHeight == acc.rocketHeight
    ensures 0.0 <= t ==> acc.rotation <= r.rotation && acc.rocketHeight <= r.rocketHeight
  {
    Accumulators(
      AdvanceFrameTime(acc.frameTime),
      acc.rotation + XmPi * 0.0005 * t,
      if takeOff then acc.rocketHeight + 1.0 * t else acc.rocketHeight)
  }

  /** The fire-shader time after n frames from zero. */
  function FrameTimeAfter(n: nat): (r: real)
    ensures 0.0 <= r <= FrameTimeLimit
  {
    if n == 0 then 0.0 else AdvanceFrameTime(FrameTimeAfter(n - 1))
  }

  /** For the first 100000 frames the fire-shader time is n hundredths. */
  lemma {:induction false} FrameTimeGrowsLinearly(n: nat)
    requires n <= 100000
    ensures FrameTimeAfter(n) == n as real * FrameTimeStep
  {
    if n > 0 {
      FrameTimeGrowsLinearly(n - 1);
    }
  }

  /** Frame 100001 takes the time past the limit, so it wraps to zero: with
      exact arithmetic the fire animation repeats every 100001 frames. */
  lemma FrameTimeWraps()
    ensures FrameTimeAfter(100000) == FrameTimeLimit
    ensures FrameTimeAfter(100001) == 0.0
  {
    FrameTimeGrowsLinearly(100000);
  }
}
