/**
 The owned-resource slots of GraphicsClass and the two operations that fill
 and empty them, Initialize and Shutdown.

 A slot is one of the class's owning pointers. The model records which slots
 are non-null as a set; the objects behind them are collaborators whose only
 observable behaviour here is whether their own Initialize call reports
 success, which is an input.
 */
module Lifecycle {

  /** One owning pointer of GraphicsClass, in declaration order. */
  datatype Slot =
    | Input | D3D | Timer | ShaderManager | Position | Camera | Light
    | FloorModel | SatelliteModel | RocketModel | TreeModel | SaturnModel | SaturnRingModel
    | EarthModel | SunModel

  /** The order in which Initialize allocates the slots. */
  const CreationOrder: seq<Slot> :=
    [Input, D3D, ShaderManager, Timer, Position, Camera, Light,
     FloorModel, SatelliteModel, RocketModel, TreeModel, SaturnModel, SaturnRingModel,
     EarthModel, SunModel]

  /** The order in which Shutdown releases the slots it handles. */
  const ReleaseOrder: seq<Slot> :=
    [FloorModel, SatelliteModel, EarthModel, SunModel, Light, Camera, Position,
     ShaderManager, Timer, D3D, Input]

  /** The position of s in CreationOrder. */
  function CreationRank(s: Slot): nat {
    match s
    case Input => 0
    case D3D => 1
    case ShaderManager => 2
    case Timer => 3
    case Position => 4
    case Camera => 5
    case Light => 6
    case FloorModel => 7
    case SatelliteModel => 8
    case RocketModel => 9
    case TreeModel => 10
    case SaturnModel => 11
    case SaturnRingModel => 12
    case EarthModel => 13
    case SunModel => 14
  }

  /** The position of s in ReleaseOrder, or -1 when Shutdown never releases s. */
  function ReleaseRank(s: Slot): int {
    match s
    case FloorModel => 0
    case SatelliteModel => 1
    case EarthModel => 2
    case SunModel => 3
    case Light => 4
    case Camera => 5
    case Position => 6
    case ShaderManager => 7
    case Timer => 8
    case D3D => 9
    case Input => 10
    case _ => -1
  }

  /** Every slot is non-null. */
  predicate AllLive(live: set<Slot>) {
    forall s: Slot :: s in live
  }

  /** The slots Shutdown never releases. */
  const NeverReleased: set<Slot> := {RocketModel, TreeModel, SaturnModel, SaturnRingModel}

  /** Whether the object in slot s has an Initialize call that can report failure
      right after it is allocated; position, camera and light only have setters. */
  predicate Fallible(s: Slot) {
    s !in {Position, Camera, Light}
  }

  /** Whether Shutdown calls the object's own Shutdown before deleting it. */
  predicate CallsShutdown(s: Slot) {
    s in {FloorModel, SatelliteModel, EarthModel, SunModel, ShaderManager, D3D, Input}
  }

  /** A step of Initialize fails when its slot is fallible and its collaborator reports failure. */
  predicate FailsAt(s: Slot, failing: set<Slot>) {
    Fallible(s) && s in failing
  }

  predicate Distinct(order: seq<Slot>) {
    forall i, j :: 0 <= i < j < |order| ==> order[i] != order[j]
  }

  // ---------------------------------------------------------------------------
  // Initialize

  /** live: the non-null slots afterwards; created: the slots allocated, in order;
      ok: the value Initialize returns. */
  datatype InitOutcome = InitOutcome(live: set<Slot>, created: seq<Slot>, ok: bool)

  /** Allocates the slots of plan in order, each followed by its Initialize call,
      and stops at the first call that fails. The failing slot itself stays
      allocated: it was assigned before its Initialize call. */
  function Acquire(live: set<Slot>, plan: seq<Slot>, failing: set<Slot>): (r: InitOutcome)
    ensures |r.created| <= |plan| && r.created == plan[..|r.created|]
    ensures forall s :: s in r.live <==> s in live || s in r.created
    ensures r.ok <==> forall i :: 0 <= i < |plan| ==> !FailsAt(plan[i], failing)
    ensures r.ok ==> r.created == plan
    ensures !r.ok ==> |r.created| > 0 && FailsAt(r.created[|r.created| - 1], failing)
    ensures forall i :: 0 <= i < |r.created| - 1 ==> !FailsAt(r.created[i], failing)
    decreases |plan|
  {
    if plan == [] then
      InitOutcome(live, [], true)
    else
      var s := plan[0];
      if FailsAt(s, failing) then
        InitOutcome(live + {s}, [s], false)
      else
        var rest := Acquire(live + {s}, plan[1..], failing);
        assert forall i :: 1 <= i < |plan| ==> plan[i] == plan[1..][i - 1];
        InitOutcome(rest.live, [s] + rest.created, rest.ok)
  }

  /** GraphicsClass::Initialize on the slots live, where failing holds the
      collaborators whose Initialize call reports failure. */
  function Initialize(live: set<Slot>, failing: set<Slot>): (r: InitOutcome)
    ensures |r.created| <= |CreationOrder| && r.created == CreationOrder[..|r.created|]
    ensures r.ok <==> forall s :: s in failing ==> !Fallible(s)
    ensures r.ok ==> AllLive(r.live)
  {
    var r := Acquire(live, CreationOrder, failing);
    InitializeSucceedsIffNothingFails(live, failing);
    r
  }

  /** Acquiring a plan that lists every slot succeeds exactly when no
      fallible slot fails, and then every slot is live. */
  lemma AcquireAll(live: set<Slot>, plan: seq<Slot>, failing: set<Slot>)
    requires forall s :: s in plan
    ensures var r := Acquire(live, plan, failing);
      && (r.ok <==> forall s :: s in failing ==> !Fallible(s))
      && (r.ok ==> AllLive(r.live))
  {
    var r := Acquire(live, plan, failing);
    if r.ok {
      forall s | s in failing
        ensures !Fallible(s)
      {
        assert s in plan;
        var i :| 0 <= i < |plan| && plan[i] == s;
      }
    } else {
      var i :| 0 <= i < |plan| && FailsAt(plan[i], failing);
      assert plan[i] in failing;
    }
  }

  lemma InitializeSucceedsIffNothingFails(live: set<Slot>, failing: set<Slot>)
    ensures var r := Acquire(live, CreationOrder, failing);
      && (r.ok <==> forall s :: s in failing ==> !Fallible(s))
      && (r.ok ==> AllLive(r.live))
  {
    forall s ensures s in CreationOrder {
      CreationOrderLists(s);
    }
    AcquireAll(live, CreationOrder, failing);
  }

  lemma CreationOrderLists(s: Slot)
    ensures |CreationOrder| == 15
    ensures CreationRank(s) < 15 && CreationOrder[CreationRank(s)] == s
  {
  }

  lemma CreationRankIsIndex(i: int)
    requires 0 <= i < |CreationOrder|
    ensures CreationRank(CreationOrder[i]) == i
  {
  }

  lemma CreationOrderDistinct()
    ensures Distinct(CreationOrder)
  {
    forall i, j | 0 <= i < j < |CreationOrder|
      ensures CreationOrder[i] != CreationOrder[j]
    {
      CreationRankIsIndex(i);
      CreationRankIsIndex(j);
    }
  }

  /** Slots of a walk without repeats that come after the last allocated one are left as they were. */
  lemma AcquireLeavesLaterSlots(live: set<Slot>, plan: seq<Slot>, failing: set<Slot>)
    requires Distinct(plan)
    ensures var r := Acquire(live, plan, failing);
      forall i :: |r.created| <= i < |plan| ==> (plan[i] in r.live <==> plan[i] in live)
  {
    var r := Acquire(live, plan, failing);
    var k := |r.created|;
    forall i | k <= i < |plan|
      ensures plan[i] !in r.created
    {
      forall j | 0 <= j < k
        ensures r.created[j] != plan[i]
      {
        assert r.created[j] == plan[j];
      }
    }
  }

  /** When Initialize fails, the slot of the first failing step is allocated and
      every slot after it is left as it was: still null on a freshly
      constructed object, whose slots are all null. */
  lemma InitializeStopsAtFirstFailure(live: set<Slot>, failing: set<Slot>)
    requires exists s :: s in failing && Fallible(s)
    ensures var r := Initialize(live, failing);
      && 0 < |r.created|
      && FailsAt(CreationOrder[|r.created| - 1], failing)
      && (forall i :: 0 <= i < |r.created| - 1 ==> !FailsAt(CreationOrder[i], failing))
      && (forall i :: |r.created| <= i < |CreationOrder| ==> (CreationOrder[i] in r.live <==> CreationOrder[i] in live))
  {
    var r := Initialize(live, failing);
    forall i | 0 <= i < |r.created|
      ensures r.created[i] == CreationOrder[i]
    {
    }
    CreationOrderDistinct();
    AcquireLeavesLaterSlots(live, CreationOrder, failing);
  }

  // ---------------------------------------------------------------------------
  // Shutdown

  /** The release of one slot: its object's Shutdown (when it has one), then delete. */
  datatype Teardown = Teardown(slot: Slot, callsShutdown: bool)

  /** live: the non-null slots afterwards; released: the releases, in order. */
  datatype ShutdownOutcome = ShutdownOutcome(live: set<Slot>, released: seq<Teardown>)

  /** The slots of a sequence of releases. */
  function Slots(ts: seq<Teardown>): (r: seq<Slot>)
    ensures |r| == |ts| && forall i :: 0 <= i < |ts| ==> r[i] == ts[i].slot
  {
    seq(|ts|, i requires 0 <= i < |ts| => ts[i].slot)
  }

  /** Walks order, releasing and nulling each slot that is non-null. */
  function Release(live: set<Slot>, order: seq<Slot>): (r: ShutdownOutcome)
    ensures forall s :: s in r.live <==> s in live && s !in order
    ensures forall t :: t in r.released ==>
      t.slot in live && t.slot in order && t.callsShutdown == CallsShutdown(t.slot)
    decreases |order|
  {
    if order == [] then
      ShutdownOutcome(live, [])
    else
      var s := order[0];
      if s in live then
        var rest := Release(live - {s}, order[1..]);
        ShutdownOutcome(rest.live, [Teardown(s, CallsShutdown(s))] + rest.released)
      else
        Release(live, order[1..])
  }

  /** The slots of order that are non-null in live, in the order of the walk. */
  function Keep(live: set<Slot>, order: seq<Slot>): (r: seq<Slot>)
    ensures forall s :: s in r <==> s in live && s in order
    decreases |order|
  {
    if order == [] then []
    else
      assert order == [order[0]] + order[1..];
      (if order[0] in live then [order[0]] else []) + Keep(live, order[1..])
  }

  /** Nulling a slot that is not on the walk changes nothing the walk keeps. */
  lemma {:induction false} KeepMinus(live: set<Slot>, s: Slot, order: seq<Slot>)
    requires s !in order
    ensures Keep(live - {s}, order) == Keep(live, order)
    decreases |order|
  {
    if order != [] {
      assert s != order[0] && s !in order[1..];
      KeepMinus(live, s, order[1..]);
    }
  }

  /** A walk without repeats releases the non-null slots on it in the order of the walk. */
  lemma {:induction false} ReleaseKeepsOrder(live: set<Slot>, order: seq<Slot>)
    requires Distinct(order)
    ensures Slots(Release(live, order).released) == Keep(live, order)
    decreases |order|
  {
    if order != [] {
      var s := order[0];
      assert Distinct(order[1..]);
      if s in live {
        assert s !in order[1..];
        ReleaseKeepsOrder(live - {s}, order[1..]);
        KeepMinus(live, s, order[1..]);
        var rest := Release(live - {s}, order[1..]).released;
        assert Slots([Teardown(s, CallsShutdown(s))] + rest) == [s] + Slots(rest);
      } else {
        ReleaseKeepsOrder(live, order[1..]);
      }
    }
  }

  /** Every non-null slot on the walk is released, with its own kind of teardown. */
  lemma {:induction false} ReleaseIsComplete(live: set<Slot>, order: seq<Slot>, s: Slot)
    requires s in live && s in order
    ensures Teardown(s, CallsShutdown(s)) in Release(live, order).released
    decreases |order|
  {
    var first := order[0];
    if first != s {
      assert s in order[1..];
      if first in live {
        ReleaseIsComplete(live - {first}, order[1..], s);
      } else {
        ReleaseIsComplete(live, order[1..], s);
      }
    }
  }

  /** The walk releases exactly the slots that are both non-null and on it. */
  lemma ReleaseReleasesExactly(live: set<Slot>, order: seq<Slot>)
    ensures forall s :: s in Slots(Release(live, order).released) <==> s in live && s in order
  {
    var r := Release(live, order);
    forall s | s in Slots(r.released)
      ensures s in live && s in order
    {
      var i :| 0 <= i < |r.released| && Slots(r.released)[i] == s;
      assert r.released[i] in r.released;
    }
    forall s | s in live && s in order
      ensures s in Slots(r.released)
    {
      ReleaseIsComplete(live, order, s);
      var i :| 0 <= i < |r.released| && r.released[i] == Teardown(s, CallsShutdown(s));
      assert Slots(r.released)[i] == s;
    }
  }

  /** A walk without repeats releases no slot twice. */
  lemma {:induction false} ReleaseHasNoRepeats(live: set<Slot>, order: seq<Slot>)
    requires Distinct(order)
    ensures Distinct(Slots(Release(live, order).released))
    decreases |order|
  {
    if order != [] {
      var s := order[0];
      assert Distinct(order[1..]);
      if s in live {
        var rest := Release(live - {s}, order[1..]);
        ReleaseHasNoRepeats(live - {s}, order[1..]);
        assert s !in order[1..];
      } else {
        ReleaseHasNoRepeats(live, order[1..]);
      }
    }
  }

  /** When every slot on the walk is non-null, the releases follow the walk exactly. */
  lemma {:induction false} ReleaseFollowsOrder(live: set<Slot>, order: seq<Slot>)
    requires Distinct(order)
    requires forall s :: s in order ==> s in live
    ensures Slots(Release(live, order).released) == order
    decreases |order|
  {
    if order != [] {
      var s := order[0];
      assert Distinct(order[1..]);
      assert forall t :: t in order[1..] ==> t in live - {s};
      ReleaseFollowsOrder(live - {s}, order[1..]);
    }
  }

  /** A walk over slots that are all null releases nothing. */
  lemma {:induction false} ReleaseOfNothing(live: set<Slot>, order: seq<Slot>)
    requires forall s :: s in order ==> s !in live
    ensures Release(live, order) == ShutdownOutcome(live, [])
    decreases |order|
  {
    if order != [] {
      assert order[0] !in live;
      ReleaseOfNothing(live, order[1..]);
    }
  }

  /** GraphicsClass::Shutdown: releases each non-null slot it handles exactly
      once, nulls it, and leaves the four never-released models as they were. */
  function Shutdown(live: set<Slot>): (r: ShutdownOutcome)
    ensures forall s :: s in r.live <==> s in live && s in NeverReleased
    ensures forall s :: s in Slots(r.released) <==> s in live && s !in NeverReleased
    ensures Distinct(Slots(r.released))
    ensures Slots(r.released) == Keep(live, ReleaseOrder)
  {
    ReleaseOrderFacts();
    ReleaseKeepsOrder(live, ReleaseOrder);
    ReleaseHasNoRepeats(live, ReleaseOrder);
    ReleaseReleasesExactly(live, ReleaseOrder);
    Release(live, ReleaseOrder)
  }

  lemma ReleaseRankIsIndex(i: int)
    requires 0 <= i < |ReleaseOrder|
    ensures ReleaseRank(ReleaseOrder[i]) == i
  {
  }

  lemma ReleaseOrderFacts()
    ensures Distinct(ReleaseOrder)
    ensures forall s :: s in ReleaseOrder <==> s !in NeverReleased
  {
    forall i, j | 0 <= i < j < |ReleaseOrder|
      ensures ReleaseOrder[i] != ReleaseOrder[j]
    {
      ReleaseRankIsIndex(i);
      ReleaseRankIsIndex(j);
    }
    forall s | s in ReleaseOrder
      ensures s !in NeverReleased
    {
      var i :| 0 <= i < |ReleaseOrder| && ReleaseOrder[i] == s;
      ReleaseRankIsIndex(i);
    }
    forall s | s !in NeverReleased
      ensures s in ReleaseOrder
    {
      ReleaseOrderLists(s);
    }
  }

  lemma ReleaseOrderLists(s: Slot)
    requires s !in NeverReleased
    ensures 0 <= ReleaseRank(s) < |ReleaseOrder| && ReleaseOrder[ReleaseRank(s)] == s
  {
  }

  /** A second Shutdown releases nothing and changes nothing. */
  lemma ShutdownIdempotent(live: set<Slot>)
    ensures Shutdown(Shutdown(live).live).released == []
    ensures Shutdown(Shutdown(live).live).live == Shutdown(live).live
  {
    var once := Shutdown(live);
    ReleaseOrderFacts();
    ReleaseOfNothing(once.live, ReleaseOrder);
  }

  /** After a complete Initialize, Shutdown releases the handled slots in the
      literal release order and leaves the rocket, tree, Saturn and ring models
      allocated. */
  lemma ShutdownAfterFullInitialize(live: set<Slot>)
    requires AllLive(live)
    ensures var r := Shutdown(live);
      && r.live == NeverReleased
      && Slots(r.released) == ReleaseOrder
  {
    ReleaseOrderFacts();
    ReleaseFollowsOrder(live, ReleaseOrder);
  }

  /** Shutdown after an Initialize that failed part-way releases exactly the
      handled slots allocated so far, each once, and never touches the rest. */
  lemma ShutdownAfterPartialInitialize(failing: set<Slot>, s: Slot)
    ensures var init := Initialize({}, failing);
      var r := Shutdown(init.live);
      && (s in Slots(r.released) <==> s in init.created && s !in NeverReleased)
      && (s in r.live <==> s in init.created && s in NeverReleased)
  {
  }

  /** The release order is not the reverse of the creation order: the shader
      manager is both allocated and released before the timer. */
  lemma ReleaseOrderIsNotReversed()
    ensures CreationOrder[2] == ShaderManager && CreationOrder[3] == Timer
    ensures ReleaseOrder[7] == ShaderManager && ReleaseOrder[8] == Timer
  {
  }
}
