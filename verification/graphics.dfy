/**
 GraphicsClass as a whole: the owned collaborators, the launch latch and the
 Render statics, and the per-frame step that ties input, animation and
 rendering together.

 What a collaborator reports in a frame (whether the input poll worked,
 whether Escape and F1 are down, the timer value, the base world matrix, which
 draws fail) is part of the frame's input. The timer is read several times per
 frame but only advanced by its own Frame call, so one value stands for all reads.
 */
module GraphicsClass {
  import opened Transform
  import opened Lifecycle
  import opened Animation
  import opened Scene
  import opened Rendering

  /** live: the non-null owned pointers; hasLaunched: the latch of
      HandleMovementInput; acc: the statics of Render. */
  datatype Graphics = Graphics(live: set<Slot>, hasLaunched: bool, acc: Accumulators)

  /** A freshly constructed object: every pointer null, every static at its start value. */
  const Constructed: Graphics := Graphics({}, false, Start)

  /** What the collaborators report during one Frame call. */
  datatype FrameInput = FrameInput(
    inputOk: bool,            // m_Input->Frame() succeeded
    escape: bool,             // m_Input->IsEscapePressed()
    f1: bool,                 // m_Input->IsF1Pressed()
    time: real,               // m_Timer->GetTime()
    world: Affine,            // m_D3D->GetWorldMatrix()
    failing: set<Renderable>) // the draws whose shader call reports failure

  /** Frame reaches HandleMovementInput and Render only when the input poll
      worked and Escape is not down. */
  predicate Handled(input: FrameInput) {
    input.inputOk && !input.escape
  }

  /** g: the object afterwards; ok: the value Frame returns; trace: the calls it made. */
  datatype FrameOutcome = FrameOutcome(g: Graphics, ok: bool, trace: seq<Event>)

  /** The object after Initialize returned true: every owned pointer set. */
  predicate Running(g: Graphics) {
    AllLive(g.live)
  }

  /** The object after one Frame call, leaving aside the calls it makes: a
      frame that is not handled changes nothing; a handled one steps the launch
      latch and then the Render statics, with the latch value as take-off. */
  function Next(g: Graphics, input: FrameInput): (r: Graphics)
    ensures r.live == g.live
    ensures !Handled(input) ==> r == g
    ensures Handled(input) ==> (r.hasLaunched <==> g.hasLaunched || input.f1)
    ensures Handled(input) ==> r.acc.frameTime == AdvanceFrameTime(g.acc.frameTime)
    ensures Handled(input) ==> r.acc.rotation - g.acc.rotation == XmPi * 0.0005 * input.time
    ensures Handled(input) && !r.hasLaunched ==> r.acc.rocketHeight == g.acc.rocketHeight
    ensures Handled(input) && r.hasLaunched ==> r.acc.rocketHeight - g.acc.rocketHeight == input.time
  {
    if !input.inputOk || input.escape then g
    else
      var launch := LaunchStep(g.hasLaunched, input.f1);
      Graphics(g.live, launch.latched, Advance(g.acc, launch.takeOff, input.time))
  }

  /** GraphicsClass::Frame. HandleMovementInput always returns true, so only
      the input poll, Escape and Render can end the frame with false. */
  function Frame(g: Graphics, input: FrameInput): (r: FrameOutcome)
    requires Running(g)
    ensures r.g == Next(g, input)
    ensures r.ok <==> Handled(input) && CheckedDraws !! input.failing
    ensures !Handled(input) ==> r.trace == [TimerFrame, InputPoll]
  {
    if !input.inputOk || input.escape then
      FrameOutcome(g, false, [TimerFrame, InputPoll])
    else
      var launch := LaunchStep(g.hasLaunched, input.f1);
      var rendered := Render(g.acc, launch.takeOff, input.time, input.world, input.failing);
      FrameOutcome(Graphics(g.live, launch.latched, rendered.acc), rendered.ok,
                   [TimerFrame, InputPoll, MoveViewer] + rendered.trace)
  }

  /** A frame returns true exactly when it ends the scene. */
  lemma FrameEndsSceneIffOk(g: Graphics, input: FrameInput)
    requires Running(g)
    ensures var r := Frame(g, input);
      EndScene in r.trace <==> r.ok
  {
    if Handled(input) {
      var launch := LaunchStep(g.hasLaunched, input.f1);
      var rendered := Render(g.acc, launch.takeOff, input.time, input.world, input.failing);
      RenderEndsSceneIffOk(g.acc, launch.takeOff, input.time, input.world, input.failing);
      var trace := [TimerFrame, InputPoll, MoveViewer] + rendered.trace;
      assert Frame(g, input).trace == trace;
      assert EndScene in trace <==> EndScene in rendered.trace;
    }
  }

  /** A handled frame polls the input, moves the viewer, and then begins the
      scene, renders the camera and draws the floor. */
  lemma HandledFrameOpens(g: Graphics, input: FrameInput)
    requires Running(g) && Handled(input)
    ensures var tr := Frame(g, input).trace;
      |tr| >= 6 && tr[..6] == [TimerFrame, InputPoll, MoveViewer] + Opening(input.world)
  {
    var launch := LaunchStep(g.hasLaunched, input.f1);
    var rendered := Render(g.acc, launch.takeOff, input.time, input.world, input.failing);
    RenderEndsSceneIffOk(g.acc, launch.takeOff, input.time, input.world, input.failing);
    var polled := [TimerFrame, InputPoll, MoveViewer];
    assert Frame(g, input).trace == polled + rendered.trace;
    OpeningAfterPoll(polled, rendered.trace, Opening(input.world));
  }

  /** Three polling calls followed by a call list that opens with `opening`. */
  lemma OpeningAfterPoll(polled: seq<Event>, rest: seq<Event>, opening: seq<Event>)
    requires |polled| == 3 && |rest| >= 3 && rest[..3] == opening
    ensures |polled + rest| >= 6 && (polled + rest)[..6] == polled + opening
  {
    assert (polled + rest)[..6] == polled + rest[..3];
  }

  // ---------------------------------------------------------------------------
  // Runs of frames

  /** The object after a run of Frame calls. The host stops calling Frame at
      the first false, but every property below holds for every prefix, so
      the run is not cut short here. */
  function Frames(g: Graphics, inputs: seq<FrameInput>): (r: Graphics)
    ensures r.live == g.live
    decreases |inputs|
  {
    if inputs == [] then g
    else Frames(Next(g, inputs[0]), inputs[1..])
  }

  /** Whether F1 was down in some handled frame of the run. */
  predicate PressedF1(inputs: seq<FrameInput>) {
    exists i :: 0 <= i < |inputs| && Handled(inputs[i]) && inputs[i].f1
  }

  /** The rocket is launched after a run exactly when it was before or F1 was
      down in a handled frame; an unhandled frame never launches it. */
  lemma {:induction false} LaunchedAfterRun(g: Graphics, inputs: seq<FrameInput>)
    ensures Frames(g, inputs).hasLaunched <==> g.hasLaunched || PressedF1(inputs)
    decreases |inputs|
  {
    if inputs != [] {
      var g' := Next(g, inputs[0]);
      LaunchedAfterRun(g', inputs[1..]);
      if PressedF1(inputs[1..]) {
        var i :| 0 <= i < |inputs[1..]| && Handled(inputs[1..][i]) && inputs[1..][i].f1;
        assert Handled(inputs[i + 1]) && inputs[i + 1].f1;
      }
      if PressedF1(inputs) {
        var i :| 0 <= i < |inputs| && Handled(inputs[i]) && inputs[i].f1;
        if i > 0 {
          assert inputs[1..][i - 1] == inputs[i];
        }
      }
    }
  }

  /** The number of handled frames in a run. */
  function HandledCount(inputs: seq<FrameInput>): nat
    decreases |inputs|
  {
    if inputs == [] then 0
    else (if Handled(inputs[0]) then 1 else 0) + HandledCount(inputs[1..])
  }

  /** The timer values of the handled frames, summed. */
  function HandledTime(inputs: seq<FrameInput>): real
    decreases |inputs|
  {
    if inputs == [] then 0.0
    else (if Handled(inputs[0]) then inputs[0].time else 0.0) + HandledTime(inputs[1..])
  }

  /** The fire-shader time counts handled frames: starting from its value
      after k frames, a run leaves its value after k + HandledCount frames. */
  lemma {:induction false} FrameTimeCountsHandledFrames(g: Graphics, inputs: seq<FrameInput>, k: nat)
    requires g.acc.frameTime == FrameTimeAfter(k)
    ensures Frames(g, inputs).acc.frameTime == FrameTimeAfter(k + HandledCount(inputs))
    decreases |inputs|
  {
    if inputs != [] {
      var g' := Next(g, inputs[0]);
      var k' := if Handled(inputs[0]) then k + 1 else k;
      if Handled(inputs[0]) {
        assert g'.acc.frameTime == AdvanceFrameTime(g.acc.frameTime);
        assert FrameTimeAfter(k + 1) == AdvanceFrameTime(FrameTimeAfter(k));
      } else {
        assert g' == g;
      }
      assert HandledCount(inputs) == (if Handled(inputs[0]) then 1 else 0) + HandledCount(inputs[1..]);
      FrameTimeCountsHandledFrames(g', inputs[1..], k');
    }
  }

  /** The fire-shader time never leaves [0, 1000]. */
  lemma {:induction false} FrameTimeStaysInRange(g: Graphics, inputs: seq<FrameInput>)
    requires 0.0 <= g.acc.frameTime <= FrameTimeLimit
    ensures 0.0 <= Frames(g, inputs).acc.frameTime <= FrameTimeLimit
    decreases |inputs|
  {
    if inputs != [] {
      FrameTimeStaysInRange(Next(g, inputs[0]), inputs[1..]);
    }
  }

  /** The orbit angle grows by XM_PI * 0.0005 times the summed timer values of
      the handled frames. */
  lemma {:induction false} RotationTracksTime(g: Graphics, inputs: seq<FrameInput>)
    ensures Frames(g, inputs).acc.rotation == g.acc.rotation + XmPi * 0.0005 * HandledTime(inputs)
    decreases |inputs|
  {
    if inputs != [] {
      var g' := Next(g, inputs[0]);
      RotationTracksTime(g', inputs[1..]);
      var step := if Handled(inputs[0]) then inputs[0].time else 0.0;
      assert g'.acc.rotation == g.acc.rotation + XmPi * 0.0005 * step;
      assert HandledTime(inputs) == step + HandledTime(inputs[1..]);
    }
  }

  /** With non-negative timer values the rocket never descends. */
  lemma {:induction false} RocketNeverDescends(g: Graphics, inputs: seq<FrameInput>)
    requires forall i :: 0 <= i < |inputs| ==> 0.0 <= inputs[i].time
    ensures g.acc.rocketHeight <= Frames(g, inputs).acc.rocketHeight
    decreases |inputs|
  {
    if inputs != [] {
      assert 0.0 <= inputs[0].time;
      var g' := Next(g, inputs[0]);
      assert forall i :: 0 <= i < |inputs[1..]| ==> 0.0 <= inputs[1..][i].time by {
        forall i | 0 <= i < |inputs[1..]| ensures 0.0 <= inputs[1..][i].time {
          assert inputs[1..][i] == inputs[i + 1];
        }
      }
      RocketNeverDescends(g', inputs[1..]);
    }
  }

  /** Before launch the rocket stays on the ground: without the latch and
      without F1 in a handled frame its height does not change. */
  lemma {:induction false} RocketWaitsForLaunch(g: Graphics, inputs: seq<FrameInput>)
    requires !g.hasLaunched && !PressedF1(inputs)
    ensures Frames(g, inputs).acc.rocketHeight == g.acc.rocketHeight
    decreases |inputs|
  {
    if inputs != [] {
      var g' := Next(g, inputs[0]);
      assert !(Handled(inputs[0]) && inputs[0].f1);
      assert !PressedF1(inputs[1..]) by {
        forall i | 0 <= i < |inputs[1..]| ensures !(Handled(inputs[1..][i]) && inputs[1..][i].f1) {
          assert inputs[1..][i] == inputs[i + 1];
        }
      }
      RocketWaitsForLaunch(g', inputs[1..]);
    }
  }

  // ---------------------------------------------------------------------------
  // Lifecycle of the object

  /** However many frames run, Shutdown on a running object leaves exactly
      the four models it never releases, having released the other eleven
      pointers in the order of the source. */
  lemma ShutdownAfterFrames(g: Graphics, inputs: seq<FrameInput>)
    requires Running(g)
    ensures var down := Lifecycle.Shutdown(Frames(g, inputs).live);
      down.live == NeverReleased && Slots(down.released) == ReleaseOrder
  {
    ShutdownAfterFullInitialize(Frames(g, inputs).live);
  }

  /** Initialize on a constructed object succeeds when no collaborator fails,
      and the object is then running. */
  lemma InitializeStartsRunning(failing: set<Slot>)
    requires forall s :: s in failing ==> !Fallible(s)
    ensures var init := Lifecycle.Initialize(Constructed.live, failing);
      init.ok && Running(Graphics(init.live, Constructed.hasLaunched, Constructed.acc))
  {
  }
}
