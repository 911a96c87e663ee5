# GraphicsClass scene orchestrator, modelled in Dafny

This project models `GraphicsClass`, the scene orchestrator of a small
Direct3D 11 renderer. The class owns fifteen collaborators: input, Direct3D,
timer, shader manager, viewer position, camera, light and eight models. It
creates them in `Initialize` and releases them in `Shutdown`. Each `Frame`
polls the input, latches the rocket launch on F1 and renders a fixed scene:
a floor, a rocket, 200 instanced trees, a satellite, the earth, Saturn and
its ring, and an alpha-blended sun.

The model is functional. The object is an immutable record holding:

- the set of non-null owning pointers;
- the launch latch;
- the three accumulators that the source keeps in function-local statics.

Each operation is a pure function that returns the new record, the boolean
the source returns, and, where it matters, the list of collaborator calls it
made. Whatever a collaborator reports is an input to the model:

- whether each `Initialize` call succeeds;
- whether the input poll works;
- whether Escape and F1 are down;
- the timer value;
- the base world matrix;
- which draws fail.

The files are:

| file | module | models |
|---|---|---|
| `transform.dfy` | `Transform` | scale/translate world matrices and `XMMatrixMultiply` in the row-vector convention, including a 4x4 embedding |
| `lifecycle.dfy` | `Lifecycle` | the owning-pointer slots, `Initialize` and `Shutdown` |
| `animation.dfy` | `Animation` | the F1 launch latch and the fire-time, rotation and rocket-height statics |
| `scene.dfy` | `Scene` | the world matrices of the floor, the rocket and the tree table |
| `render.dfy` | `Rendering` | `Render` as a list of calls, with early return on a failed checked draw |
| `graphics.dfy` | `GraphicsClass` | `Frame`, runs of frames, and the whole lifecycle |

Points worth knowing about the class:

- **Fifteen slots.** The header declares fifteen owning pointers (`graphicsclass.h:54-68`), and the model has one slot for each.
- **Shutdown does not mirror Initialize.** `Shutdown` releases the slots in its own literal order, which is not the reverse of creation: the shader manager is created before the timer and also released before it.
- **Four models leak.** `Shutdown` never releases the rocket, tree, Saturn and ring models. The model reproduces this and proves it (`Lifecycle.ShutdownAfterFullInitialize`).
- **A failed step keeps its slot.** When an `Initialize` step fails, the object it just created stays assigned. Every later slot is left untouched.
- **Only four draws are checked.** `Render` returns false only when the floor, satellite, earth or sun draw fails. The results of the rocket, tree, Saturn and ring draws are ignored.
- **The statics advance first.** The accumulators advance before anything is drawn, so they also advance in a frame whose drawing fails.
- **A failed sun draw leaves blending on.** Blending is switched off only after a successful sun draw.

## Model

| member | source | states |
|---|---|---|
| Transform.Scaling | Engine/graphicsclass.cpp:494 | XMMatrixScaling has the three factors on the diagonal of its 4x4 matrix and the identity elsewhere |
| Transform.Translation | Engine/graphicsclass.cpp:495 | XMMatrixTranslation is the identity with the offset in the fourth row of its 4x4 matrix |
| Transform.MultiplyAppliesLeftFirst | Engine/graphicsclass.cpp:494-496 | the product Transform.Multiply(A, B), which models XMMatrixMultiply(A, B), moves a point by A first and then by B (row-vector convention) |
| Transform.ScalingAndTranslation | Engine/graphicsclass.cpp:494-495 | a scaling multiplies each coordinate by its factor; a translation adds its offset |
| Transform.MultiplyIsMatMul | Engine/graphicsclass.cpp:494-496 | on scale/translate matrices the product is the ordinary 4x4 matrix product of the DirectXMath layout, in the same argument order |
| Transform.ToMatrixTransformsLikeApply | Engine/graphicsclass.cpp:494-496 | the 4x4 matrix moves the homogeneous point [x y z 1] exactly as the scale/translate map moves (x, y, z) |
| Transform.MultiplyAssociative | Engine/graphicsclass.cpp:525-527 | a chain of three multiplications may be regrouped |
| Transform.OrderMatters | Engine/graphicsclass.cpp:494-496 | scaling by k != 1 then translating by t != 0 differs from translating then scaling |
| Transform.MovesNothingIffIdentity | Engine/graphicsclass.cpp:490 | a base world matrix that moves no point is exactly the identity |
| Scene.FloorWorld | Engine/graphicsclass.cpp:490-496 | with an identity base, the floor matrix scales by (3, 1, 3) and moves down by 200 |
| Scene.RocketWorld | Engine/graphicsclass.cpp:508-511 | with an identity base, the rocket matrix scales by 0.05 and lifts to -200 plus a fifth of the rocket height |
| Scene.GroveWorld | Engine/graphicsclass.cpp:523-527 | with an identity base, a tree at table entry (x, z) is scaled by 0.05 and moved to (x - 150, -202, z + 270) |
| Scene.TreeWorld | Engine/graphicsclass.cpp:518-527 | with an identity base, every tree instance has the same 0.05 scale and stands at height -202; only its x-z place depends on its index |
| Scene.TreeTableShape | Engine/graphicsclass.cpp:518-519 | both position tables have exactly 200 entries |
| Scene.FloorPlacement | Engine/graphicsclass.cpp:490-496 | with an identity base, the floor maps p to (3 p.x, p.y - 200, 3 p.z) |
| Scene.RocketPlacement | Engine/graphicsclass.cpp:508-511 | with an identity base, the rocket maps p to 0.05 p + (0, -200 + 0.2 h, 0) |
| Scene.RocketRisesWithHeight | Engine/graphicsclass.cpp:508-511 | for any base with positive y scale, a greater height draws every rocket point higher and moves it in no other direction |
| Scene.GrovePlacement | Engine/graphicsclass.cpp:523-527 | with an identity base, a tree at table entry (x, z) maps p to 0.05 p + (x - 150, -202, z + 270) |
| Scene.TreePlacement | Engine/graphicsclass.cpp:518-527 | with an identity base, tree i maps p to 0.05 p + (treePosX[i] - 150, -202, treePosZ[i] + 270) |
| Animation.LaunchStep | Engine/graphicsclass.cpp:419-427 | take-off is set exactly when the latch was already set or F1 is down; the latch becomes that value, so once set it stays set; with neither, take-off keeps its default false |
| Animation.LatchAfterRun | Engine/graphicsclass.cpp:387-427 | after a run of frames the latch is set exactly when it was set before or F1 was down in some frame |
| Animation.LatchAfter | Engine/graphicsclass.cpp:419-427 | the latch after a run stays set once set, and is set whenever F1 was down in the last frame |
| Animation.FrameTimeAfter | Engine/graphicsclass.cpp:451-459 | the fire time after any number of frames from zero lies within [0, 1000] |
| Animation.AdvanceFrameTime | Engine/graphicsclass.cpp:451-459 | the fire time either grows by 0.01 or resets to 0; it never exceeds 1000; it stays non-negative; it does not reset while the sum is within the limit |
| Animation.Advance | Engine/graphicsclass.cpp:472-481 | rotation grows by XM_PI * 0.0005 * t; the rocket height grows by t exactly on take-off and is otherwise unchanged; for t >= 0 neither decreases |
| Animation.FrameTimeGrowsLinearly | Engine/graphicsclass.cpp:455-459 | in exact arithmetic, for the first 100000 frames the fire time is n hundredths (the source's single-precision float first exceeds 1000 at frame 99934) |
| Animation.FrameTimeWraps | Engine/graphicsclass.cpp:455-459 | in exact arithmetic, the fire time reaches 1000 at frame 100000 and resets to 0 at frame 100001 |
| Rendering.TreePass | Engine/graphicsclass.cpp:521-533 | the tree loop from entry i makes one draw per remaining entry, and draw k is of tree instance i + k |
| Rendering.Trees | Engine/graphicsclass.cpp:518-533 | the tree loop over the two tables makes 200 draws |
| Rendering.TreePassDraws | Engine/graphicsclass.cpp:521-533 | the tree loop from entry i makes one draw per remaining entry, in order, each with that entry's world matrix |
| Rendering.TreePassOnlyTrees | Engine/graphicsclass.cpp:521-533 | the tree loop makes only tree draws, one per remaining entry |
| Rendering.TreesInOrder | Engine/graphicsclass.cpp:518-533 | the loop makes 200 draws, and draw i is tree instance i at its own world matrix |
| Rendering.TreesAreTreeDraws | Engine/graphicsclass.cpp:521-533 | the 200 draws of the loop are all tree draws |
| Rendering.Opening | Engine/graphicsclass.cpp:484-501 | every frame's drawing starts with BeginScene and three calls in all, none of which switches blending, ends the scene, draws the sun or draws a tree |
| Rendering.Middle | Engine/graphicsclass.cpp:507-562 | after the floor come 202 draws, the rocket first and the satellite last, with exactly 200 tree draws, no blending switch, no scene end and no sun draw |
| Rendering.TreesBetween | Engine/graphicsclass.cpp:513-562 | putting the tree draws between two non-tree draws adds no alpha switch, no scene end and no sun draw, and keeps the tree count |
| Rendering.MiddleShape | Engine/graphicsclass.cpp:507-562 | after the floor come 202 draws: the rocket first, the satellite last, the 200 trees between |
| Rendering.MiddleTrees | Engine/graphicsclass.cpp:513-533 | tree instance i is the draw right after the first 1 + i of that stretch |
| Rendering.Calls | Engine/graphicsclass.cpp:484-658 | the call list always starts with the opening, continues with the middle stretch once the floor draw succeeds, and reaches its full length, ending with TurnOffAlphaBlending and EndScene, exactly when no checked draw fails |
| Rendering.Render | Engine/graphicsclass.cpp:443-658 | the statics advance as the animation step says, whatever is drawn; Render returns true exactly when none of the floor, satellite, earth and sun draws fails |
| Rendering.UncheckedFailuresAreIgnored | Engine/graphicsclass.cpp:513-628 | two failure sets that agree on the checked draws give the same outcome; the rocket, tree, Saturn and ring results change nothing |
| Rendering.CallsStart | Engine/graphicsclass.cpp:484-562 | the call list always starts with the opening, and with the opening and the middle stretch once the floor draw succeeds |
| Rendering.CallsEnd | Engine/graphicsclass.cpp:639-658 | EndScene, and likewise TurnOffAlphaBlending, appears exactly when no checked draw fails; EndScene is then the last call |
| Rendering.RenderEndsSceneIffOk | Engine/graphicsclass.cpp:484-658 | a frame's calls begin with BeginScene, the camera and the floor draw; EndScene and TurnOffAlphaBlending appear exactly when Render returns true, and EndScene is then last |
| Rendering.CallsStopAtFailedDraw | Engine/graphicsclass.cpp:498-658 | for any opening ending in the floor draw and any middle stretch ending in the satellite draw, with no other checked draws in either, every checked draw before the last call succeeded, and when a checked draw fails the call list ends with that draw: Render returns at once |
| Rendering.RenderStopsAtFailedDraw | Engine/graphicsclass.cpp:498-658 | a frame's calls stop at the first failed floor, satellite, earth or sun draw: every earlier checked draw succeeded, and a frame that returns false ends with the draw that failed |
| Rendering.OpeningUnchecked | Engine/graphicsclass.cpp:484-505 | the opening ends with the floor draw, and nothing before it is a checked draw |
| Rendering.MiddleUnchecked | Engine/graphicsclass.cpp:507-562 | the stretch after the floor draws only the rocket and the trees before the satellite draw |
| Rendering.RenderDrawsAdvancedRocket | Engine/graphicsclass.cpp:477-511 | once the floor draw succeeds, the next call draws the rocket at the height Render has just advanced, not at the previous frame's height |
| Rendering.CallsBlend | Engine/graphicsclass.cpp:639-654 | after the calls, blending is off on success, on when the sun draw failed, and unchanged when an earlier checked draw failed |
| Rendering.BlendingAfterRender | Engine/graphicsclass.cpp:639-654 | the same for Render: a failed sun draw leaves alpha blending on |
| Rendering.CallsAlphaOn | Engine/graphicsclass.cpp:639-646 | TurnOnAlphaBlending occurs exactly at the positions right before a sun draw, and every sun draw follows it |
| Rendering.AlphaOnPrecedesSun | Engine/graphicsclass.cpp:639-646 | the same for Render's own call list |
| Rendering.CallsTrees | Engine/graphicsclass.cpp:498-533 | the tree draws of a frame are those of the opening plus, once the floor draw succeeds, those of the middle stretch |
| Rendering.TreesDrawnPerFrame | Engine/graphicsclass.cpp:498-533 | a frame whose floor draw succeeds makes exactly 200 tree draws, whatever they report, at positions 4 to 203 in instance order; a frame whose floor draw fails makes none |
| GraphicsClass.Next | Engine/graphicsclass.cpp:346-382 | an unhandled frame (failed poll or Escape) changes nothing; a handled one sets the latch exactly when it was set or F1 is down, and advances the statics with that value as take-off |
| GraphicsClass.Frame | Engine/graphicsclass.cpp:346-382 | the object afterwards is Next's; Frame returns true exactly when the poll works, Escape is up and no checked draw fails; an unhandled frame makes only the timer and poll calls |
| GraphicsClass.FrameEndsSceneIffOk | Engine/graphicsclass.cpp:346-382 | a frame returns true exactly when it ends the scene |
| GraphicsClass.HandledFrameOpens | Engine/graphicsclass.cpp:350-501 | a handled frame calls the timer, the poll and the viewer update, then begins the scene, renders the camera and draws the floor |
| GraphicsClass.Frames | Engine/graphicsclass.cpp:346-382 | no run of frames changes which pointers are set |
| GraphicsClass.LaunchedAfterRun | Engine/graphicsclass.cpp:387-427 | after a run the rocket is launched exactly when it was before or F1 was down in a handled frame |
| GraphicsClass.FrameTimeCountsHandledFrames | Engine/graphicsclass.cpp:451-459 | a run advances the fire time by exactly one step per handled frame, from any value the fire time reaches from zero |
| GraphicsClass.FrameTimeStaysInRange | Engine/graphicsclass.cpp:451-459 | across any run the fire time stays within [0, 1000] |
| GraphicsClass.RotationTracksTime | Engine/graphicsclass.cpp:472-475 | after a run the rotation has grown by XM_PI * 0.0005 times the summed timer values of the handled frames |
| GraphicsClass.RocketNeverDescends | Engine/graphicsclass.cpp:477-481 | with non-negative timer values the rocket height never decreases over a run |
| GraphicsClass.RocketWaitsForLaunch | Engine/graphicsclass.cpp:477-481 | without the latch and without F1 in a handled frame, the rocket height does not change |
| GraphicsClass.ShutdownAfterFrames | Engine/graphicsclass.cpp:259-343 | after Initialize succeeds and any frames run, Shutdown leaves exactly the four leaked models set and releases the other eleven in the literal order |
| GraphicsClass.InitializeStartsRunning | Engine/graphicsclass.cpp:9-255 | on a constructed object with no failing collaborator, Initialize succeeds and sets every pointer |
| Lifecycle.Acquire | Engine/graphicsclass.cpp:42-255 | the allocated slots are a prefix of the plan and become set; success holds exactly when no step fails, and then the whole plan is allocated; on failure the last allocated step is the first failing one |
| Lifecycle.Initialize | Engine/graphicsclass.cpp:42-255 | the allocated slots are a prefix of the creation order; Initialize succeeds exactly when no fallible collaborator fails, and then every slot is set |
| Lifecycle.AcquireAll | Engine/graphicsclass.cpp:42-255 | acquiring a plan that lists every slot succeeds exactly when no fallible slot fails, and then sets every slot |
| Lifecycle.InitializeSucceedsIffNothingFails | Engine/graphicsclass.cpp:42-255 | the same for the creation order |
| Lifecycle.CreationOrderLists | Engine/graphicsclass.h:54-68 | the creation order lists all fifteen slots |
| Lifecycle.CreationOrderDistinct | Engine/graphicsclass.cpp:42-246 | the creation order allocates no slot twice |
| Lifecycle.AcquireLeavesLaterSlots | Engine/graphicsclass.cpp:42-255 | slots after the last allocated step keep their previous state |
| Lifecycle.InitializeStopsAtFirstFailure | Engine/graphicsclass.cpp:42-255 | when some fallible collaborator fails, the last allocated slot is the first whose step fails, all earlier steps succeeded, and every later slot keeps its previous state (null on a constructed object) |
| Lifecycle.Release | Engine/graphicsclass.cpp:259-343 | the walk clears exactly the set slots it visits; every release is of a set slot on the walk, with that slot's own teardown |
| Lifecycle.Keep | Engine/graphicsclass.cpp:259-343 | the kept slots are exactly those both non-null and on the walk |
| Lifecycle.KeepMinus | Engine/graphicsclass.cpp:259-343 | nulling a slot that is not on the walk does not change what the walk keeps |
| Lifecycle.ReleaseKeepsOrder | Engine/graphicsclass.cpp:259-343 | a walk without repeats releases exactly its non-null slots, in the order of the walk, whichever slots are null |
| Lifecycle.ReleaseIsComplete | Engine/graphicsclass.cpp:259-343 | every set slot on the walk is released |
| Lifecycle.ReleaseReleasesExactly | Engine/graphicsclass.cpp:259-343 | the released slots are exactly those both set and on the walk |
| Lifecycle.ReleaseHasNoRepeats | Engine/graphicsclass.cpp:259-343 | a walk without repeats releases no slot twice |
| Lifecycle.ReleaseFollowsOrder | Engine/graphicsclass.cpp:259-343 | when every slot on the walk is set, the releases follow the walk exactly |
| Lifecycle.ReleaseOfNothing | Engine/graphicsclass.cpp:259-343 | a walk over null slots releases nothing and changes nothing |
| Lifecycle.Shutdown | Engine/graphicsclass.cpp:259-343 | afterwards only the leaked models that were set stay set; every other set slot is released, each exactly once, in the literal release order restricted to the set slots (so also after a partial Initialize) |
| Lifecycle.ReleaseOrderFacts | Engine/graphicsclass.cpp:259-343 | the release order has no repeats and lists exactly the slots other than the four leaked models |
| Lifecycle.ShutdownIdempotent | Engine/graphicsclass.cpp:259-343 | a second Shutdown releases nothing and changes nothing |
| Lifecycle.ShutdownAfterFullInitialize | Engine/graphicsclass.cpp:259-343 | with every slot set, Shutdown releases eleven slots in the literal order and leaves exactly the rocket, tree, Saturn and ring models set |
| Lifecycle.ShutdownAfterPartialInitialize | Engine/graphicsclass.cpp:42-343 | after an Initialize that failed part-way, Shutdown releases exactly the allocated non-leaked slots and leaves exactly the allocated leaked ones |
| Lifecycle.ReleaseOrderIsNotReversed | Engine/graphicsclass.cpp:72-324 | the shader manager is allocated before the timer and also released before it |

## Left out

- The `new`-returns-null checks, including the one at line 210 that tests the wrong pointer, are not modelled: standard `new` throws rather than returning null, so those branches are dead.
- The bodies of the collaborators are not part of this model: the Direct3D device and context, the shader manager, model and texture loading, and `MessageBox`. Only the results they report are kept, as inputs.
- The internals of input polling, of the position's movement integration and of the camera's view matrix are not modelled. In the call list they appear only as the `InputPoll`, `MoveViewer` and `RenderCamera` events.
- The rotation matrices and trigonometry of the satellite, earth, Saturn, ring and sun are not modelled; those draws carry the marker `Rotating` instead of a matrix. At lines 566, 596 and 615 a scaling is computed and then overwritten by the next assignment, so it has no effect.
- Light colours and fire-shader parameters are passed to the shaders unchanged, and draw events do not carry them.
- Float rounding: the statics and the world-matrix entries are exact reals, and XM_PI is the decimal 3.141592654.
- The timer is read several times in one frame but changes only in its own `Frame` call, so one timer value per frame stands for every read.
- `GetWorldMatrix` is not shown. Its result is an input, and the placement lemmas assume it moves no point, which is the identity (`Transform.MovesNothingIffIdentity`).
- `HandleMovementInput` always returns true, so the check of its result in `Frame` is dead and is not modelled.
- GraphicsClass.Frames: runs through every frame of its input, while the host loop stops calling `Frame` at the first false; each run property also holds for every prefix, which is such a stopped run.
- Re-initialising an object whose slots are already set would leak the old objects. The model records only which slots are set, so it does not distinguish this.
- The statics are per process in the source, not per object. The model keeps them in the object record, which is the same thing for the single instance the program creates.
- The copy constructor and the destructor are empty and are not modelled.
