/**
 GraphicsClass::Render as a trace of collaborator calls.

 Each call Render makes on the Direct3D wrapper, the camera and the shader
 manager becomes an event appended to a trace; what each shader call reports
 is an input (the set of draws that fail). Only the floor, satellite, earth
 and sun draws have their result checked; a failed check returns false at
 once, leaving the rest of the frame undrawn.
 */
module Rendering {
  import opened Transform
  import opened Animation
  import opened Scene

  /** One collaborator call of a frame. A Draw stands for binding an object's
      buffers and calling its shader with the given world matrix. */
  datatype Event =
    | TimerFrame      // m_Timer->Frame()
    | InputPoll       // m_Input->Frame()
    | MoveViewer      // the position, camera and cursor updates of HandleMovementInput
    | BeginScene
    | RenderCamera    // m_Camera->Render(), which rebuilds the view matrix
    | Draw(item: Renderable, world: World)
    | AlphaOn
    | AlphaOff
    | EndScene

  /** The draws whose failure makes Render return false. */
  const CheckedDraws: set<Renderable> := {Floor, Satellite, Earth, Sun}

  /** acc: the Render statics afterwards; ok: the value Render returns;
      trace: the calls it made. */
  datatype RenderOutcome = RenderOutcome(acc: Accumulators, ok: bool, trace: seq<Event>)

  /** The tree loop from entry i on, over the position tables xs and zs. */
  function TreePass(base: Affine, xs: seq<int>, zs: seq<int>, i: nat): (r: seq<Event>)
    requires |xs| == |zs| && i <= |xs|
    ensures |r| == |xs| - i
    ensures forall k :: 0 <= k < |r| ==> r[k].Draw? && r[k].item == Tree(i + k)
    decreases |xs| - i
  {
    if i == |xs| then []
    else [Draw(Tree(i), Placed(GroveWorld(base, xs[i] as real, zs[i] as real)))] + TreePass(base, xs, zs, i + 1)
  }

  /** The tree loop draws entries i to |xs| - 1 in order, each at its own place. */
  lemma {:induction false} TreePassDraws(base: Affine, xs: seq<int>, zs: seq<int>, i: nat)
    requires |xs| == |zs| && i <= |xs|
    ensures |TreePass(base, xs, zs, i)| == |xs| - i
    ensures forall k :: 0 <= k < |xs| - i ==>
      TreePass(base, xs, zs, i)[k] == Draw(Tree(i + k), Placed(GroveWorld(base, xs[i + k] as real, zs[i + k] as real)))
    decreases |xs| - i
  {
    if i < |xs| {
      TreePassDraws(base, xs, zs, i + 1);
    }
  }

  /** The tree loop makes nothing but tree draws, one per entry. */
  lemma {:induction false} TreePassOnlyTrees(base: Affine, xs: seq<int>, zs: seq<int>, i: nat)
    requires |xs| == |zs| && i <= |xs|
    ensures forall e :: e in TreePass(base, xs, zs, i) ==> e.Draw? && e.item.Tree?
    ensures TreeDraws(TreePass(base, xs, zs, i)) == |xs| - i
    decreases |xs| - i
  {
    if i < |xs| {
      TreePassOnlyTrees(base, xs, zs, i + 1);
      assert TreePass(base, xs, zs, i)[1..] == TreePass(base, xs, zs, i + 1);
    }
  }

  /** The 200 tree draws of a frame. */
  function Trees(base: Affine): (r: seq<Event>)
    ensures |r| == TreeCount
  {
    TreeTableShape();
    TreePass(base, TreePosX, TreePosZ, 0)
  }

  /** Tree instance i is the i-th draw of the loop, at TreeWorld(base, i). */
  lemma TreesInOrder(base: Affine)
    ensures |Trees(base)| == TreeCount
    ensures forall i :: 0 <= i < TreeCount ==> Trees(base)[i] == Draw(Tree(i), Placed(TreeWorld(base, i)))
  {
    TreeTableShape();
    TreePassDraws(base, TreePosX, TreePosZ, 0);
    forall i | 0 <= i < TreeCount
      ensures Trees(base)[i] == Draw(Tree(i), Placed(TreeWorld(base, i)))
    {
      assert TreePass(base, TreePosX, TreePosZ, 0)[0 + i]
          == Draw(Tree(i), Placed(GroveWorld(base, TreePosX[i] as real, TreePosZ[i] as real)));
    }
  }

  /** The loop makes 200 draws, all of trees. */
  lemma TreesAreTreeDraws(base: Affine)
    ensures |Trees(base)| == TreeCount
    ensures forall e :: e in Trees(base) ==> e.Draw? && e.item.Tree?
    ensures TreeDraws(Trees(base)) == TreeCount
  {
    TreeTableShape();
    TreePassDraws(base, TreePosX, TreePosZ, 0);
    TreePassOnlyTrees(base, TreePosX, TreePosZ, 0);
  }

  /** BeginScene, the view matrix, and the floor draw. */
  function Opening(base: Affine): (r: seq<Event>)
    ensures |r| == 3 && r[0] == BeginScene
    ensures Plain(r) && TreeDraws(r) == 0
  {
    TreeDrawsNone([BeginScene, RenderCamera, Draw(Floor, Placed(FloorWorld(base)))]);
    [BeginScene, RenderCamera, Draw(Floor, Placed(FloorWorld(base)))]
  }

  /** The rocket, the trees and the satellite. */
  function Middle(base: Affine, rocketHeight: real): (r: seq<Event>)
    ensures |r| == TreeCount + 2 && Plain(r) && TreeDraws(r) == TreeCount
    ensures r[0] == Draw(Rocket, Placed(RocketWorld(base, rocketHeight)))
    ensures r[|r| - 1] == Draw(Satellite, Rotating)
  {
    TreesAreTreeDraws(base);
    TreesBetween(Draw(Rocket, Placed(RocketWorld(base, rocketHeight))), Trees(base), Draw(Satellite, Rotating));
    [Draw(Rocket, Placed(RocketWorld(base, rocketHeight)))] + Trees(base) + [Draw(Satellite, Rotating)]
  }

  /** A stretch that neither switches blending, nor ends the scene, nor draws the sun. */
  predicate Plain(a: seq<Event>) {
    forall e :: e in a ==> e != AlphaOn && e != AlphaOff && e != EndScene && e != Draw(Sun, Rotating)
  }

  lemma OpeningIsPlain(base: Affine)
    ensures |Opening(base)| == 3 && Plain(Opening(base)) && TreeDraws(Opening(base)) == 0
  {
    TreeDrawsNone(Opening(base));
  }

  /** A draw, a run of tree draws, and another draw form a plain stretch
      with as many tree draws as the run, provided neither draw is of a tree. */
  lemma TreesBetween(first: Event, trees: seq<Event>, last: Event)
    requires first.Draw? && !first.item.Tree? && first.item != Sun
    requires last.Draw? && !last.item.Tree? && last.item != Sun
    requires forall e :: e in trees ==> e.Draw? && e.item.Tree?
    ensures Plain([first] + trees + [last])
    ensures TreeDraws([first] + trees + [last]) == TreeDraws(trees)
  {
    TreeDrawsNone([first]);
    TreeDrawsNone([last]);
    TreeDrawsConcat([first], trees);
    TreeDrawsConcat([first] + trees, [last]);
  }

  /** The middle stretch is 202 draws: the rocket first, the trees, then the satellite. */
  lemma MiddleShape(base: Affine, rocketHeight: real)
    ensures var m := Middle(base, rocketHeight);
      && |m| == TreeCount + 2 && Plain(m) && TreeDraws(m) == TreeCount
      && m[0] == Draw(Rocket, Placed(RocketWorld(base, rocketHeight)))
      && m[|m| - 1] == Draw(Satellite, Rotating)
  {
    TreesAreTreeDraws(base);
    TreesBetween(Draw(Rocket, Placed(RocketWorld(base, rocketHeight))), Trees(base), Draw(Satellite, Rotating));
  }

  lemma Between(first: Event, trees: seq<Event>, last: Event)
    ensures |[first] + trees + [last]| == |trees| + 2
    ensures forall i :: 0 <= i < |trees| ==> ([first] + trees + [last])[1 + i] == trees[i]
  {
  }

  /** Tree instance i is at position 1 + i of the middle stretch. */
  lemma MiddleTrees(base: Affine, rocketHeight: real)
    ensures var m := Middle(base, rocketHeight);
      && |m| == TreeCount + 2
      && forall i :: 0 <= i < TreeCount ==> m[1 + i] == Draw(Tree(i), Placed(TreeWorld(base, i)))
  {
    TreesInOrder(base);
    Between(Draw(Rocket, Placed(RocketWorld(base, rocketHeight))), Trees(base), Draw(Satellite, Rotating));
  }

  const EarthPart: seq<Event> := [Draw(Earth, Rotating)]

  /** Saturn, its ring, and the alpha-blended sun. */
  const SunPart: seq<Event> := [Draw(Saturn, Rotating), Draw(SaturnRing, Rotating), AlphaOn, Draw(Sun, Rotating)]

  const Closing: seq<Event> := [AlphaOff, EndScene]

  /** The calls of one Render given its opening and middle stretches: the
      first checked draw that fails ends the list. */
  function Calls(opening: seq<Event>, middle: seq<Event>, failing: set<Renderable>): (r: seq<Event>)
    ensures |opening| <= |r| && r[..|opening|] == opening
    ensures Floor !in failing ==> |opening| + |middle| <= |r| && r[..|opening| + |middle|] == opening + middle
    ensures CheckedDraws !! failing <==> |r| == |opening| + |middle| + 7
    ensures CheckedDraws !! failing ==> r[|r| - 2..] == [AlphaOff, EndScene]
  {
    if Floor in failing then opening
    else if Satellite in failing then opening + middle
    else if Earth in failing then opening + middle + EarthPart
    else if Sun in failing then opening + middle + EarthPart + SunPart
    else opening + middle + EarthPart + SunPart + Closing
  }

  /** GraphicsClass::Render(rocketTakeOff) with timer value t, base world
      matrix base (what GetWorldMatrix reports) and the set of draws whose
      shader call reports failure. The statics advance before anything is drawn,
      so they advance even when a draw fails. */
  function Render(acc: Accumulators, takeOff: bool, t: real, base: Affine, failing: set<Renderable>): (r: RenderOutcome)
    ensures r.acc == Advance(acc, takeOff, t)
    ensures r.ok <==> CheckedDraws !! failing
  {
    var acc' := Advance(acc, takeOff, t);
    var ok := Floor !in failing && Satellite !in failing && Earth !in failing && Sun !in failing;
    RenderOutcome(acc', ok, Calls(Opening(base), Middle(base, acc'.rocketHeight), failing))
  }

  /** Failures of the rocket, tree, Saturn and ring draws change nothing: two
      failure sets that agree on the checked draws give the same outcome. */
  lemma UncheckedFailuresAreIgnored(acc: Accumulators, takeOff: bool, t: real, base: Affine,
                                    f1: set<Renderable>, f2: set<Renderable>)
    requires forall o :: o in CheckedDraws ==> (o in f1 <==> o in f2)
    ensures Render(acc, takeOff, t, base, f1) == Render(acc, takeOff, t, base, f2)
  {
    assert Floor in CheckedDraws && Satellite in CheckedDraws && Earth in CheckedDraws && Sun in CheckedDraws;
  }

  // ---------------------------------------------------------------------------
  // Shape of the call list

  lemma CallsStart(opening: seq<Event>, middle: seq<Event>, failing: set<Renderable>)
    ensures var c := Calls(opening, middle, failing);
      && |opening| <= |c| && c[..|opening|] == opening
      && (Floor !in failing ==> |opening| + |middle| <= |c| && c[..|opening| + |middle|] == opening + middle)
  {
  }

  lemma CallsEnd(opening: seq<Event>, middle: seq<Event>, failing: set<Renderable>)
    requires Plain(opening) && Plain(middle)
    ensures var c := Calls(opening, middle, failing);
      && (EndScene in c <==> CheckedDraws !! failing)
      && (AlphaOff in c <==> CheckedDraws !! failing)
      && (CheckedDraws !! failing ==> c[|c| - 1] == EndScene)
  {
    assert EndScene !in opening && AlphaOff !in opening;
    assert EndScene !in middle && AlphaOff !in middle;
  }

  /** The scene is ended, and blending switched off, exactly when Render
      returns true; EndScene is then the last call. Every frame begins with
      BeginScene, the view matrix and the floor draw. */
  lemma RenderEndsSceneIffOk(acc: Accumulators, takeOff: bool, t: real, base: Affine, failing: set<Renderable>)
    ensures var r := Render(acc, takeOff, t, base, failing);
      && (EndScene in r.trace <==> r.ok)
      && (AlphaOff in r.trace <==> r.ok)
      && (r.ok ==> r.trace[|r.trace| - 1] == EndScene)
      && |r.trace| >= 3 && r.trace[..3] == Opening(base)
  {
    var h := Advance(acc, takeOff, t).rocketHeight;
    OpeningIsPlain(base);
    MiddleShape(base, h);
    CallsEnd(Opening(base), Middle(base, h), failing);
    CallsStart(Opening(base), Middle(base, h), failing);
  }

  // ---------------------------------------------------------------------------
  // Early return

  /** A stretch that draws none of the four checked renderables. */
  predicate Unchecked(a: seq<Event>) {
    forall e :: e in a ==> !(e.Draw? && e.item in CheckedDraws)
  }

  /** Every checked draw in a reported success. */
  predicate CheckedSucceed(a: seq<Event>, failing: set<Renderable>) {
    forall e :: e in a && e.Draw? && e.item in CheckedDraws ==> e.item !in failing
  }

  /** The call list stops at the first checked draw that fails: that draw is the
      last call, and every checked draw before it succeeded. The opening ends
      with the floor draw and the middle stretch with the satellite draw; neither
      draws anything else that is checked. */
  lemma CallsStopAtFailedDraw(opening: seq<Event>, middle: seq<Event>, failing: set<Renderable>)
    requires 0 < |opening| && opening[|opening| - 1].Draw? && opening[|opening| - 1].item == Floor
    requires 0 < |middle| && middle[|middle| - 1] == Draw(Satellite, Rotating)
    requires Unchecked(opening[..|opening| - 1]) && Unchecked(middle[..|middle| - 1])
    ensures var c := Calls(opening, middle, failing);
      && 0 < |c|
      && CheckedSucceed(c[..|c| - 1], failing)
      && (!(CheckedDraws !! failing) ==>
            c[|c| - 1].Draw? && c[|c| - 1].item in CheckedDraws && c[|c| - 1].item in failing)
  {
    var pre := opening[..|opening| - 1];
    var mid := middle[..|middle| - 1];
    assert opening == pre + [opening[|opening| - 1]];
    assert middle == mid + [Draw(Satellite, Rotating)];
    var c := Calls(opening, middle, failing);
    if Floor in failing {
      assert c[..|c| - 1] == pre;
    } else if Satellite in failing {
      assert c[..|c| - 1] == opening + mid;
    } else if Earth in failing {
      assert c[..|c| - 1] == opening + middle;
    } else if Sun in failing {
      assert c[..|c| - 1] == opening + middle + EarthPart + [Draw(Saturn, Rotating), Draw(SaturnRing, Rotating), AlphaOn];
    } else {
      assert c[..|c| - 1] == opening + middle + EarthPart + SunPart + [AlphaOff];
    }
  }

  /** Before the satellite, the middle stretch draws nothing checked. */
  lemma MiddleUnchecked(base: Affine, rocketHeight: real)
    ensures var m := Middle(base, rocketHeight); 0 < |m| && Unchecked(m[..|m| - 1])
  {
    MiddleShape(base, rocketHeight);
    MiddleTrees(base, rocketHeight);
    RocketThenTrees(Middle(base, rocketHeight));
  }

  /** A stretch whose first draw is the rocket and whose later draws, up to the
      last, are trees draws nothing checked before its last call. */
  lemma RocketThenTrees(m: seq<Event>)
    requires 0 < |m| && m[0].Draw? && m[0].item == Rocket
    requires forall i :: 1 <= i < |m| - 1 ==> m[i].Draw? && m[i].item.Tree?
    ensures Unchecked(m[..|m| - 1])
  {
    forall e | e in m[..|m| - 1]
      ensures !(e.Draw? && e.item in CheckedDraws)
    {
      var i :| 0 <= i < |m| - 1 && m[i] == e;
    }
  }

  /** The opening draws nothing checked before the floor. */
  lemma OpeningUnchecked(base: Affine)
    ensures 0 < |Opening(base)| && Unchecked(Opening(base)[..|Opening(base)| - 1])
    ensures Opening(base)[|Opening(base)| - 1] == Draw(Floor, Placed(FloorWorld(base)))
  {
    assert Opening(base)[..2] == [BeginScene, RenderCamera];
  }

  /** Render returns at the first failed checked draw: a frame that returns
      false ends with that draw, and every checked draw before it succeeded. */
  lemma RenderStopsAtFailedDraw(acc: Accumulators, takeOff: bool, t: real, base: Affine, failing: set<Renderable>)
    ensures var r := Render(acc, takeOff, t, base, failing);
      && 0 < |r.trace|
      && CheckedSucceed(r.trace[..|r.trace| - 1], failing)
      && (!r.ok ==>
            r.trace[|r.trace| - 1].Draw? && r.trace[|r.trace| - 1].item in CheckedDraws
            && r.trace[|r.trace| - 1].item in failing)
  {
    var h := Advance(acc, takeOff, t).rocketHeight;
    OpeningUnchecked(base);
    MiddleUnchecked(base, h);
    MiddleShape(base, h);
    OutcomeStopsAtFailedDraw(Render(acc, takeOff, t, base, failing), Opening(base), Middle(base, h), failing);
  }

  /** CallsStopAtFailedDraw, read off an outcome whose trace is the call list. */
  lemma OutcomeStopsAtFailedDraw(r: RenderOutcome, opening: seq<Event>, middle: seq<Event>, failing: set<Renderable>)
    requires r.trace == Calls(opening, middle, failing) && (r.ok <==> CheckedDraws !! failing)
    requires 0 < |opening| && opening[|opening| - 1].Draw? && opening[|opening| - 1].item == Floor
    requires 0 < |middle| && middle[|middle| - 1] == Draw(Satellite, Rotating)
    requires Unchecked(opening[..|opening| - 1]) && Unchecked(middle[..|middle| - 1])
    ensures && 0 < |r.trace|
      && CheckedSucceed(r.trace[..|r.trace| - 1], failing)
      && (!r.ok ==>
            r.trace[|r.trace| - 1].Draw? && r.trace[|r.trace| - 1].item in CheckedDraws
            && r.trace[|r.trace| - 1].item in failing)
  {
    CallsStopAtFailedDraw(opening, middle, failing);
  }

  /** The rocket is drawn right after the floor, at the height Render has just
      advanced, not at the height of the previous frame. */
  lemma RenderDrawsAdvancedRocket(acc: Accumulators, takeOff: bool, t: real, base: Affine, failing: set<Renderable>)
    ensures var r := Render(acc, takeOff, t, base, failing);
      Floor !in failing ==>
        |r.trace| > 3 && r.trace[3] == Draw(Rocket, Placed(RocketWorld(base, r.acc.rocketHeight)))
  {
    var r := Render(acc, takeOff, t, base, failing);
    var h := Advance(acc, takeOff, t).rocketHeight;
    assert r.trace == Calls(Opening(base), Middle(base, h), failing);
    assert r.acc.rocketHeight == h;
    if Floor !in failing {
      OpeningIsPlain(base);
      MiddleShape(base, h);
      CallsAfterFloor(Opening(base), Middle(base, h), failing);
      assert r.trace[3] == Middle(base, h)[0];
    }
  }

  /** Once the floor draw succeeds, the first call of the middle stretch follows
      the three calls of the opening. */
  lemma CallsAfterFloor(opening: seq<Event>, middle: seq<Event>, failing: set<Renderable>)
    requires |opening| == 3 && 0 < |middle| && Floor !in failing
    ensures var c := Calls(opening, middle, failing); |c| > 3 && c[3] == middle[0]
  {
    var c := Calls(opening, middle, failing);
    assert c[..|opening| + |middle|] == opening + middle;
    assert (opening + middle)[3] == middle[0];
  }

  // ---------------------------------------------------------------------------
  // Alpha blending

  /** Whether alpha blending is on after the calls of trace, starting from on. */
  function BlendAfter(trace: seq<Event>, on: bool): bool
    decreases |trace|
  {
    if trace == [] then on
    else BlendAfter(trace[1..], if trace[0] == AlphaOn then true else if trace[0] == AlphaOff then false else on)
  }

  lemma {:induction false} BlendAfterConcat(a: seq<Event>, b: seq<Event>, on: bool)
    ensures BlendAfter(a + b, on) == BlendAfter(b, BlendAfter(a, on))
    decreases |a|
  {
    if a != [] {
      assert (a + b)[0] == a[0];
      assert (a + b)[1..] == a[1..] + b;
      BlendAfterConcat(a[1..], b, if a[0] == AlphaOn then true else if a[0] == AlphaOff then false else on);
    } else {
      assert a + b == b;
    }
  }

  lemma {:induction false} BlendAfterPlain(a: seq<Event>, on: bool)
    requires Plain(a)
    ensures BlendAfter(a, on) == on
    decreases |a|
  {
    if a != [] {
      assert a[0] in a;
      assert Plain(a[1..]) by {
        forall e | e in a[1..] ensures e in a { }
      }
      BlendAfterPlain(a[1..], on);
    }
  }

  lemma CallsBlend(opening: seq<Event>, middle: seq<Event>, failing: set<Renderable>, on: bool)
    requires Plain(opening) && Plain(middle)
    ensures BlendAfter(Calls(opening, middle, failing), on) ==
      if CheckedDraws !! failing then false
      else if Floor !in failing && Satellite !in failing && Earth !in failing then true
      else on
  {
    var upToSatellite := opening + middle;
    var upToEarth := upToSatellite + EarthPart;
    var upToSun := upToEarth + SunPart;
    BlendAfterPlain(opening, on);
    BlendAfterPlain(middle, on);
    BlendAfterConcat(opening, middle, on);
    BlendAfterConcat(upToSatellite, EarthPart, on);
    BlendAfterConcat(upToEarth, SunPart, on);
    BlendAfterConcat(upToSun, Closing, on);
  }

  /** Blending is switched on just before the sun and off only after a
      successful sun draw, so a failed sun draw leaves it on; a frame that
      stops earlier leaves it as it was. */
  lemma BlendingAfterRender(acc: Accumulators, takeOff: bool, t: real, base: Affine,
                            failing: set<Renderable>, on: bool)
    ensures var r := Render(acc, takeOff, t, base, failing);
      BlendAfter(r.trace, on) ==
        if r.ok then false
        else if Floor !in failing && Satellite !in failing && Earth !in failing then true
        else on
  {
    var h := Advance(acc, takeOff, t).rocketHeight;
    OpeningIsPlain(base);
    MiddleShape(base, h);
    CallsBlend(Opening(base), Middle(base, h), failing, on);
  }

  lemma CallsAlphaOn(opening: seq<Event>, middle: seq<Event>, failing: set<Renderable>, i: nat)
    requires Plain(opening) && Plain(middle)
    requires i < |Calls(opening, middle, failing)|
    ensures var c := Calls(opening, middle, failing);
      && (c[i] == AlphaOn <==> i + 1 < |c| && c[i + 1] == Draw(Sun, Rotating))
      && (c[i] == Draw(Sun, Rotating) ==> 0 < i && c[i - 1] == AlphaOn)
  {
    var c := Calls(opening, middle, failing);
    if Floor in failing {
      assert c[i] in opening;
      if i + 1 < |c| {
        assert c[i + 1] in opening;
      }
    } else {
      var om := opening + middle;
      var p := |om|;
      assert Plain(om);
      assert c[..p] == om;
      if i < p {
        assert c[i] == om[i] && om[i] in om;
        if i + 1 < p {
          assert c[i + 1] == om[i + 1] && om[i + 1] in om;
        } else if i + 1 < |c| {
          assert c[i + 1] == Draw(Earth, Rotating);
        }
      }
    }
  }

  /** TurnOnAlphaBlending comes immediately before the sun draw and nowhere else. */
  lemma AlphaOnPrecedesSun(acc: Accumulators, takeOff: bool, t: real, base: Affine,
                           failing: set<Renderable>, i: nat)
    ensures var tr := Render(acc, takeOff, t, base, failing).trace;
      i < |tr| ==>
      && (tr[i] == AlphaOn <==> i + 1 < |tr| && tr[i + 1] == Draw(Sun, Rotating))
      && (tr[i] == Draw(Sun, Rotating) ==> 0 < i && tr[i - 1] == AlphaOn)
  {
    var h := Advance(acc, takeOff, t).rocketHeight;
    if i < |Calls(Opening(base), Middle(base, h), failing)| {
      OpeningIsPlain(base);
      MiddleShape(base, h);
      CallsAlphaOn(Opening(base), Middle(base, h), failing, i);
    }
  }

  // ---------------------------------------------------------------------------
  // Trees

  /** The number of tree draws in a trace. */
  function TreeDraws(trace: seq<Event>): nat
    decreases |trace|
  {
    if trace == [] then 0
    else (if trace[0].Draw? && trace[0].item.Tree? then 1 else 0) + TreeDraws(trace[1..])
  }

  lemma {:induction false} TreeDrawsConcat(a: seq<Event>, b: seq<Event>)
    ensures TreeDraws(a + b) == TreeDraws(a) + TreeDraws(b)
    decreases |a|
  {
    if a != [] {
      assert (a + b)[0] == a[0];
      assert (a + b)[1..] == a[1..] + b;
      TreeDrawsConcat(a[1..], b);
    } else {
      assert a + b == b;
    }
  }

  lemma {:induction false} TreeDrawsNone(a: seq<Event>)
    requires forall e :: e in a ==> !(e.Draw? && e.item.Tree?)
    ensures TreeDraws(a) == 0
    decreases |a|
  {
    if a != [] {
      assert a[0] in a;
      TreeDrawsNone(a[1..]);
    }
  }

  lemma CallsTrees(opening: seq<Event>, middle: seq<Event>, failing: set<Renderable>)
    ensures TreeDraws(Calls(opening, middle, failing)) ==
      TreeDraws(opening) + if Floor in failing then 0 else TreeDraws(middle)
  {
    TreeDrawsNone(EarthPart);
    TreeDrawsNone(SunPart);
    TreeDrawsNone(Closing);
    var upToSatellite := opening + middle;
    TreeDrawsConcat(opening, middle);
    TreeDrawsConcat(upToSatellite, EarthPart);
    TreeDrawsConcat(upToSatellite + EarthPart, SunPart);
    TreeDrawsConcat(upToSatellite + EarthPart + SunPart, Closing);
  }

  /** Once the floor is drawn, every frame makes exactly 200 tree draws, the
      i-th with instance i's world matrix, whatever they report. */
  lemma TreesDrawnPerFrame(acc: Accumulators, takeOff: bool, t: real, base: Affine, failing: set<Renderable>)
    ensures var tr := Render(acc, takeOff, t, base, failing).trace;
      && TreeDraws(tr) == (if Floor in failing then 0 else TreeCount)
      && (Floor !in failing ==>
            && |tr| >= 4 + TreeCount
            && forall i :: 0 <= i < TreeCount ==> tr[4 + i] == Draw(Tree(i), Placed(TreeWorld(base, i))))
  {
    var h := Advance(acc, takeOff, t).rocketHeight;
    var o := Opening(base);
    var m := Middle(base, h);
    OpeningIsPlain(base);
    MiddleShape(base, h);
    MiddleTrees(base, h);
    CallsTrees(o, m, failing);
    CallsStart(o, m, failing);
    if Floor !in failing {
      var c := Calls(o, m, failing);
      forall i | 0 <= i < TreeCount
        ensures c[4 + i] == Draw(Tree(i), Placed(TreeWorld(base, i)))
      {
        assert c[4 + i] == (c[..|o| + |m|])[4 + i] == (o + m)[3 + 1 + i] == m[1 + i];
      }
    }
  }
}
