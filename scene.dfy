/**
 * The module-level state of app.js (app.js:132-148) and the handlers that
 * change it: the piece registry (the cashObjects list and the cashByMeshId
 * map), the pending spawn queue, the scheduler accumulators, and the grab
 * controller's dragState record.
 *
 * Visualizer.Valid() is the invariant every handler keeps:
 *  - the list and the map hold the same pieces, each under its own mesh id,
 *    with no piece twice and no body shared;
 *  - the drag record is either reset or holds a registered piece whose body
 *    is kinematic with mass 0 and whose saved mass is its spawn mass; every
 *    other registered body is dynamic with its spawn mass.
 *
 * Rendering, the physics step, ray casting and Math.random are not modelled:
 * what they produce (the hit under the pointer, the drag-plane point, launch
 * positions and velocities) comes in as parameters.
 */
module Scene {
  import opened Wrappers
  import opened Denominations
  import opened Arena
  import opened Planner
  import opened Pieces
  import opened Sequences
  import Exchange
  import Scheduler
  import FisherYates

  /** What the pointer ray hits first among the pieces' meshes: a mesh id and the hit point. */
  datatype Hit = Hit(meshId: nat, point: Vec3)

  /**
   * A pointer event: the button, the pointer id, the first hit under the
   * pointer, and where the pointer ray meets the horizontal plane at a given
   * height (None when it misses the plane).
   */
  datatype PointerEvent = PointerEvent(
    button: int,
    pointerId: int,
    hit: Option<Hit>,
    ray: real -> Option<PlanePoint>)

  /** Where and how spawnCash launches a piece, before the bounds clamp. */
  datatype Launch = Launch(x: real, y: real, z: real, velocity: Vec3, angularVelocity: Vec3)

  /**
   * createCashObject and the placement part of spawnCash (app.js:610-653):
   * a fresh dynamic body with the spawn mass of its kind, at the launch
   * point clamped into the spawn area, launched with the given velocities.
   */
  method NewPiece(meshId: nat, entry: QueueEntry, launch: Launch) returns (piece: Piece)
    ensures fresh(piece) && fresh(piece.body)
    ensures piece.meshId == meshId
    ensures piece.denomination == entry.denomination && piece.representedValue == entry.representedValue
    ensures piece.body.bodyType == Dynamic && piece.body.mass == SpawnMass(entry.denomination.kind)
    ensures var c := ClampToBounds(launch.x, launch.z, SpawnMargin);
      piece.body.position == Vec3(c.x, launch.y, c.z) && InBounds(c, SpawnMargin)
    ensures piece.body.velocity == launch.velocity && piece.body.angularVelocity == launch.angularVelocity
  {
    var start := ClampToBounds(launch.x, launch.z, SpawnMargin);
    var body := new Body(SpawnMass(entry.denomination.kind), Vec3(start.x, launch.y, start.z),
                         launch.velocity, launch.angularVelocity);
    piece := new Piece(meshId, entry.denomination, entry.representedValue, body);
  }

  /** Valid() depends only on the registry fields, the drag record and the registered bodies. */
  twostate lemma ValidFrame(v: Visualizer)
    requires old(v.Valid())
    requires unchanged(v`cashObjects, v`cashByMeshId, v`nextMeshId, v.drag) && unchanged(old(v.Bodies()))
    ensures v.Valid()
  {
  }

  /** Valid() survives a change of the registry that keeps it consistent and drops no piece the drag holds. */
  twostate lemma ValidShrink(v: Visualizer)
    requires old(v.Valid()) && v.Registry()
    requires unchanged(v.drag) && unchanged(old(v.Bodies()))
    requires forall p :: p in v.cashObjects ==> p in old(v.cashObjects)
    requires v.drag.active ==> v.drag.obj.value in v.cashObjects
    ensures v.Valid()
  {
    forall p | p in v.cashObjects
      ensures v.BodyMode(p)
    {
      assert p in old(v.cashObjects);
      assert old(v.BodyMode(p));
    }
  }

  /** Valid() survives appending a piece in its free body mode to a consistent registry. */
  twostate lemma ValidGrow(v: Visualizer, new piece: Piece)
    requires old(v.Valid()) && v.Registry()
    requires unchanged(v.drag) && unchanged(old(v.Bodies()))
    requires v.cashObjects == old(v.cashObjects) + [piece] && v.BodyMode(piece)
    ensures v.Valid()
  {
    forall p | p in v.cashObjects
      ensures v.BodyMode(p)
    {
      if p != piece {
        assert p in old(v.cashObjects);
        assert old(v.BodyMode(p));
      }
    }
  }

  /** With no piece registered and the drag reset, the invariant holds whatever the mesh counter. */
  lemma EmptyValid(v: Visualizer)
    requires v.cashObjects == [] && v.cashByMeshId == map[] && v.drag.Idle()
    ensures v.Valid()
  {
  }

  /** dragState (app.js:135-143). */
  class DragState {
    var active: bool
    var pointerId: Option<int>
    var obj: Option<Piece>
    var dragHeight: real
    var grabOffsetX: real
    var grabOffsetZ: real
    var originalMass: real

    /** Every field at its initial value, as finishDragging leaves it. */
    predicate Idle()
      reads this
    {
      !active && pointerId == None && obj == None && dragHeight == 0.0 &&
      grabOffsetX == 0.0 && grabOffsetZ == 0.0 && originalMass == 0.0
    }

    constructor ()
      ensures Idle()
    {
      active := false;
      pointerId := None;
      obj := None;
      dragHeight := 0.0;
      grabOffsetX := 0.0;
      grabOffsetZ := 0.0;
      originalMass := 0.0;
    }

    /** Reset every field (app.js:917-923). */
    method Reset()
      modifies this
      ensures Idle()
    {
      active := false;
      pointerId := None;
      obj := None;
      dragHeight := 0.0;
      grabOffsetX := 0.0;
      grabOffsetZ := 0.0;
      originalMass := 0.0;
    }

    /** Record a grab (app.js:943-950). */
    method Grab(pointerId: int, obj: Piece, dragHeight: real, grabOffsetX: real, grabOffsetZ: real, originalMass: real)
      modifies this
      ensures active && this.pointerId == Some(pointerId) && this.obj == Some(obj)
      ensures this.dragHeight == dragHeight && this.originalMass == originalMass
      ensures this.grabOffsetX == grabOffsetX && this.grabOffsetZ == grabOffsetZ
    {
      active := true;
      this.pointerId := Some(pointerId);
      this.obj := Some(obj);
      this.dragHeight := dragHeight;
      this.grabOffsetX := grabOffsetX;
      this.grabOffsetZ := grabOffsetZ;
      this.originalMass := originalMass;
    }
  }

  class Visualizer {
    var cashObjects: seq<Piece>
    var cashByMeshId: map<nat, Piece>
    var pendingQueue: seq<QueueEntry>
    const drag: DragState
    var spawnAccumulator: real
    var settleAccumulator: real
    var running: bool
    var assetsReady: bool
    /** The next id three.js hands to a new mesh. */
    var nextMeshId: nat

    /** The scheduler's view of the state. */
    function Sched(): Scheduler.Schedule
      reads this
    {
      Scheduler.Schedule(spawnAccumulator, settleAccumulator, running, pendingQueue)
    }

    ghost function Bodies(): set<Body>
      reads this`cashObjects
    {
      BodiesOf(cashObjects)
    }

    /** The body a drag holds, if any. */
    function DraggedBodies(): set<Body>
      reads this, drag
    {
      if drag.obj.Some? then {drag.obj.value.body} else {}
    }

    /** cashObjects and cashByMeshId hold the same pieces, each under its own mesh id. */
    predicate Registry()
      reads this`cashObjects, this`cashByMeshId, this`nextMeshId
    {
      RegistryOf(cashObjects, cashByMeshId, nextMeshId)
    }

    /** The body mode a registered piece has: held by the drag, or free with its spawn mass. */
    predicate BodyMode(p: Piece)
      reads drag, p.body
    {
      if drag.active && drag.obj == Some(p) then p.body.bodyType == Kinematic && p.body.mass == 0.0
      else p.body.bodyType == Dynamic && p.body.mass == SpawnMass(p.denomination.kind)
    }

    /** The drag record is reset, or holds a registered piece whose spawn mass it saved. */
    predicate DragConsistent()
      reads this`cashObjects, drag, Bodies()
    {
      (!drag.active ==> drag.Idle()) &&
      (drag.active ==>
        drag.obj.Some? && drag.obj.value in cashObjects && drag.pointerId.Some? &&
        drag.dragHeight >= MinDragHeight &&
        drag.originalMass == SpawnMass(drag.obj.value.denomination.kind)) &&
      (forall p :: p in cashObjects ==> BodyMode(p))
    }

    predicate Valid()
      reads this`cashObjects, this`cashByMeshId, this`nextMeshId, drag, Bodies()
    {
      Registry() && DragConsistent()
    }

    /** The state at page load: nothing on the table, nothing queued, assets still loading. */
    constructor ()
      ensures Valid() && fresh(drag) && drag.Idle()
      ensures cashObjects == [] && cashByMeshId == map[] && pendingQueue == []
      ensures !running && !assetsReady && spawnAccumulator == 0.0 && settleAccumulator == 0.0
    {
      cashObjects := [];
      cashByMeshId := map[];
      pendingQueue := [];
      drag := new DragState();
      spawnAccumulator := 0.0;
      settleAccumulator := 0.0;
      running := false;
      assetsReady := false;
      nextMeshId := 0;
    }

    /** The end of initAssets (app.js:1067-1079): the drop is enabled exactly when the textures loaded. */
    method AssetsLoaded(success: bool)
      requires Valid()
      modifies this
      ensures Valid()
      ensures assetsReady == success
      ensures cashObjects == old(cashObjects) && cashByMeshId == old(cashByMeshId)
      ensures Sched() == old(Sched()) && nextMeshId == old(nextMeshId)
    {
      assetsReady := success;
    }

    /**
     * spawnCash (app.js:610-661): a new dynamic body with its spawn mass,
     * placed at the launch point clamped into the spawn area, and a new
     * piece appended to the list and mapped under its fresh mesh id.
     */
    method SpawnCash(entry: QueueEntry, launch: Launch) returns (piece: Piece)
      requires Valid()
      modifies this
      ensures Valid()
      ensures fresh(piece) && fresh(piece.body)
      ensures cashObjects == old(cashObjects) + [piece]
      ensures cashByMeshId == old(cashByMeshId)[piece.meshId := piece]
      ensures piece.meshId == old(nextMeshId) && nextMeshId == old(nextMeshId) + 1
      ensures piece.meshId !in old(cashByMeshId)
      ensures piece.denomination == entry.denomination && piece.representedValue == entry.representedValue
      ensures piece.body.bodyType == Dynamic && piece.body.mass == SpawnMass(entry.denomination.kind)
      ensures var c := ClampToBounds(launch.x, launch.z, SpawnMargin);
        piece.body.position == Vec3(c.x, launch.y, c.z)
      ensures InBounds(PlanePoint(piece.body.position.x, piece.body.position.z), SpawnMargin)
      ensures piece.body.velocity == launch.velocity && piece.body.angularVelocity == launch.angularVelocity
      ensures RegistryTotal(cashObjects) == old(RegistryTotal(cashObjects)) + entry.representedValue
      ensures Sched() == old(Sched()) && assetsReady == old(assetsReady)
    {
      piece := NewPiece(nextMeshId, entry, launch);
      RegistryAppend(cashObjects, cashByMeshId, nextMeshId, piece);
      RegistryTotalAppend(cashObjects, piece);
      cashObjects := cashObjects + [piece];
      cashByMeshId := cashByMeshId[piece.meshId := piece];
      nextMeshId := nextMeshId + 1;
      ValidGrow(this, piece);
    }

    /**
     * removeCashObject (app.js:663-671): the piece leaves the list (if it is
     * there) and the map. The callers never remove the piece being dragged;
     * a piece's mesh id names that piece and no other.
     */
    method RemoveCashObject(target: Piece)
      requires Valid()
      requires target.meshId in cashByMeshId ==> cashByMeshId[target.meshId] == target
      requires drag.obj != Some(target)
      modifies this
      ensures Valid()
      ensures cashObjects == Without(old(cashObjects), target)
      ensures forall p :: p in cashObjects <==> p in old(cashObjects) && p != target
      ensures cashByMeshId == old(cashByMeshId) - {target.meshId}
      ensures nextMeshId == old(nextMeshId) && Sched() == old(Sched()) && assetsReady == old(assetsReady)
    {
      RegistryRemove(cashObjects, cashByMeshId, nextMeshId, target);
      ghost var held := drag.obj;
      assert drag.active ==> held.value in Without(cashObjects, target);
      cashObjects := Without(cashObjects, target);
      cashByMeshId := cashByMeshId - {target.meshId};
      ValidShrink(this);
    }

    /** The piece under the pointer, as pickCashFromEvent finds it (app.js:856-871). */
    function Pick(hit: Option<Hit>): (r: Option<Piece>)
      reads this
      ensures r.Some? ==> |cashObjects| > 0 && hit.Some?
      ensures Registry() && r.Some? ==> r.value in cashObjects && r.value.meshId == hit.value.meshId
      ensures Registry() && r.Some? ==> cashByMeshId[r.value.meshId] == r.value
      ensures |cashObjects| > 0 && hit.Some? && hit.value.meshId in cashByMeshId ==>
        r == Some(cashByMeshId[hit.value.meshId])
    {
      if |cashObjects| == 0 then None
      else match hit
        case None => None
        case Some(h) => if h.meshId in cashByMeshId then Some(cashByMeshId[h.meshId]) else None
    }

    /**
     * exchangeCashObject (app.js:673-723): when ExchangeOf allows it, the
     * piece is removed and pieceCount pieces of the next denomination, each
     * standing for an equal share, are spawned around it; otherwise nothing
     * changes. What the table stands for is conserved.
     */
    method ExchangeCashObject(target: Piece, scatter: nat -> Launch) returns (exchanged: bool)
      requires Valid()
      requires target.meshId in cashByMeshId ==> cashByMeshId[target.meshId] == target
      requires drag.obj != Some(target)
      modifies this
      ensures Valid()
      ensures exchanged == Exchange.ExchangeOf(target.denomination, target.representedValue).Some?
      ensures !exchanged ==>
        cashObjects == old(cashObjects) && cashByMeshId == old(cashByMeshId) && nextMeshId == old(nextMeshId)
      ensures exchanged ==>
        var split := Exchange.ExchangeOf(target.denomination, target.representedValue).value;
        var kept := Without(old(cashObjects), target);
        |cashObjects| == |kept| + split.pieceCount && cashObjects[..|kept|] == kept &&
        AllStandFor(cashObjects[|kept|..], QueueEntry(split.target, split.perPieceValue)) &&
        NumberedFrom(cashObjects[|kept|..], old(nextMeshId)) &&
        (forall p :: p in cashObjects[|kept|..] ==> fresh(p)) &&
        target !in cashObjects &&
        RegistryTotal(cashObjects) == RegistryTotal(kept) + target.representedValue
      ensures exchanged && target in old(cashObjects) ==>
        RegistryTotal(cashObjects) == old(RegistryTotal(cashObjects))
      ensures Sched() == old(Sched()) && assetsReady == old(assetsReady)
    {
      var outcome := Exchange.ExchangeOf(target.denomination, target.representedValue);
      if outcome.None? {
        return false;
      }
      var split := outcome.value;
      ghost var total := RegistryTotal(cashObjects);
      if target in cashObjects {
        WithoutTotal(cashObjects, target);
      }
      RemoveCashObject(target);
      ghost var keptTotal := RegistryTotal(cashObjects);
      assert target in old(cashObjects) ==> keptTotal + target.representedValue == total;
      ghost var kept := cashObjects;
      SpawnShares(QueueEntry(split.target, split.perPieceValue), split.pieceCount, scatter);
      assert RegistryTotal(cashObjects) == keptTotal + target.representedValue;
      assert target !in kept;
      exchanged := true;
    }

    /**
     * The spawning loop of exchangeCashObject (app.js:698-720): `count`
     * pieces for `entry`, the i-th launched as `scatter(i)` says, appended
     * in order.
     */
    method SpawnShares(entry: QueueEntry, count: nat, scatter: nat -> Launch)
      requires Valid()
      modifies this
      ensures Valid()
      ensures |cashObjects| == |old(cashObjects)| + count && cashObjects[..|old(cashObjects)|] == old(cashObjects)
      ensures AllStandFor(cashObjects[|old(cashObjects)|..], entry)
      ensures NumberedFrom(cashObjects[|old(cashObjects)|..], old(nextMeshId))
      ensures forall p :: p in cashObjects[|old(cashObjects)|..] ==> fresh(p)
      ensures forall p :: p in cashObjects ==> p in old(cashObjects) || fresh(p)
      ensures nextMeshId == old(nextMeshId) + count
      ensures RegistryTotal(cashObjects) == old(RegistryTotal(cashObjects)) + count * entry.representedValue
      ensures Sched() == old(Sched()) && assetsReady == old(assetsReady)
    {
      ghost var before := cashObjects;
      ghost var added := SpawnEach(entry, count, scatter);
      ConcatParts(before, added);
      RegistryTotalShares(before, added, entry);
    }

    /** The loop of the exchange (app.js:698-720): one spawnCash per share, in order. */
    method SpawnEach(entry: QueueEntry, count: nat, scatter: nat -> Launch) returns (ghost added: seq<Piece>)
      requires Valid()
      modifies this
      ensures Valid()
      ensures cashObjects == old(cashObjects) + added && |added| == count
      ensures AllStandFor(added, entry) && NumberedFrom(added, old(nextMeshId))
      ensures forall p :: p in added ==> fresh(p)
      ensures nextMeshId == old(nextMeshId) + count
      ensures Sched() == old(Sched()) && assetsReady == old(assetsReady)
    {
      ghost var before := cashObjects;
      added := [];
      for i := 0 to count
        invariant Valid()
        invariant cashObjects == before + added && |added| == i
        invariant AllStandFor(added, entry) && NumberedFrom(added, old(nextMeshId))
        invariant forall p :: p in added ==> fresh(p)
        invariant nextMeshId == old(nextMeshId) + i
        invariant Sched() == old(Sched()) && assetsReady == old(assetsReady)
      {
        var piece := SpawnCash(entry, scatter(i));
        AllStandForAppend(added, entry, piece);
        NumberedFromAppend(added, old(nextMeshId), piece);
        SnocAssoc(before, added, piece);
        added := added + [piece];
      }
    }

    /** isPileSettled (app.js:1002-1014). */
    method IsPileSettled() returns (settled: bool)
      ensures settled == PileSettled(cashObjects)
    {
      if |cashObjects| == 0 {
        return true;
      }
      for i := 0 to |cashObjects|
        invariant forall k :: 0 <= k < i ==> BodySettled(cashObjects[k].body)
      {
        if !BodySettled(cashObjects[i].body) {
          return false;
        }
      }
      return true;
    }

    /**
     * The bookkeeping of tick (app.js:1036-1059): the schedule advances as
     * Scheduler.Frame says, with isPileSettled taken over the pieces after
     * the spawn; a spawned entry becomes the last piece, so the yen on the
     * table and in the queue together stay the same.
     */
    method Tick(clockDelta: real, launch: Launch)
      requires Valid() && clockDelta >= 0.0
      modifies this
      ensures Valid()
      ensures Sched() == Scheduler.Frame(old(Sched()), clockDelta, PileSettled(cashObjects)).schedule
      ensures var spawned := Scheduler.Frame(old(Sched()), clockDelta, PileSettled(cashObjects)).spawned;
        (spawned.None? ==> cashObjects == old(cashObjects)) &&
        (spawned.Some? ==>
          |cashObjects| == |old(cashObjects)| + 1 &&
          cashObjects == old(cashObjects) + [cashObjects[|old(cashObjects)|]] &&
          cashObjects[|old(cashObjects)|].denomination == spawned.value.denomination &&
          cashObjects[|old(cashObjects)|].representedValue == spawned.value.representedValue)
      ensures RegistryTotal(cashObjects) + SumRepresented(pendingQueue) ==
        old(RegistryTotal(cashObjects) + SumRepresented(pendingQueue))
      ensures assetsReady == old(assetsReady)
    {
      var delta := Scheduler.FrameDelta(clockDelta);
      var spawned := SpawnHalf(delta, launch);
      SettleHalf(delta);
    }

    /** `pendingQueue.shift()` (app.js:1042): the head leaves the queue, taking its value with it. */
    method Dequeue() returns (next: QueueEntry)
      requires Valid() && |pendingQueue| > 0
      modifies this
      ensures Valid()
      ensures next == old(pendingQueue)[0] && pendingQueue == old(pendingQueue)[1..]
      ensures SumRepresented(old(pendingQueue)) == next.representedValue + SumRepresented(pendingQueue)
      ensures cashObjects == old(cashObjects) && cashByMeshId == old(cashByMeshId) && nextMeshId == old(nextMeshId)
      ensures spawnAccumulator == old(spawnAccumulator) && settleAccumulator == old(settleAccumulator)
      ensures running == old(running) && assetsReady == old(assetsReady)
    {
      next := pendingQueue[0];
      SumRepresentedConcat([next], pendingQueue[1..]);
      HeadTail(pendingQueue);
      pendingQueue := pendingQueue[1..];
      ValidFrame(this);
    }

    /**
     * The spawn half of tick (app.js:1037-1044): the accumulator grows by the
     * frame's delta, and once it reaches SPAWN_INTERVAL while running with
     * entries queued, the head of the queue is spawned and the accumulator
     * restarts.
     */
    method SpawnHalf(delta: real, launch: Launch) returns (spawned: Option<Piece>)
      requires Valid()
      modifies this
      ensures Valid()
      ensures Sched() == Scheduler.SpawnStep(old(Sched()), delta).schedule
      ensures var step := Scheduler.SpawnStep(old(Sched()), delta);
        spawned.Some? <==> step.spawned.Some?
      ensures spawned.None? ==> cashObjects == old(cashObjects)
      ensures spawned.Some? ==>
        var entry := Scheduler.SpawnStep(old(Sched()), delta).spawned.value;
        cashObjects == old(cashObjects) + [spawned.value] &&
        spawned.value.denomination == entry.denomination &&
        spawned.value.representedValue == entry.representedValue
      ensures RegistryTotal(cashObjects) + SumRepresented(pendingQueue) ==
        old(RegistryTotal(cashObjects) + SumRepresented(pendingQueue))
      ensures assetsReady == old(assetsReady)
    {
      spawnAccumulator := spawnAccumulator + delta;
      if running && |pendingQueue| > 0 && spawnAccumulator >= Scheduler.SpawnInterval {
        spawnAccumulator := 0.0;
        var next := Dequeue();
        var piece := SpawnCash(next, launch);
        spawned := Some(piece);
      } else {
        spawned := None;
        ValidFrame(this);
      }
    }

    /**
     * The settle half of tick (app.js:1049-1057): while running with the
     * queue empty, the settle accumulator adds the delta when the pile is
     * settled and restarts otherwise, and the run ends once it passes 0.75
     * seconds.
     */
    method SettleHalf(delta: real)
      requires Valid()
      modifies this
      ensures Valid()
      ensures Sched() == Scheduler.SettleStep(old(Sched()), delta, PileSettled(cashObjects))
      ensures cashObjects == old(cashObjects) && cashByMeshId == old(cashByMeshId)
      ensures nextMeshId == old(nextMeshId) && assetsReady == old(assetsReady)
    {
      if running && |pendingQueue| == 0 {
        var settled := IsPileSettled();
        if settled {
          settleAccumulator := settleAccumulator + delta;
        } else {
          settleAccumulator := 0.0;
        }
        if settleAccumulator > Scheduler.SettleHold {
          running := false;
        }
      }
      ValidFrame(this);
    }

    /**
     * updateDraggedBodyPosition (app.js:881-898): the held body is pinned at
     * the drag height, above the ray's point less the grab offset clamped
     * into the drag area, and stopped.
     */
    method UpdateDraggedBodyPosition(ray: real -> Option<PlanePoint>)
      requires Valid()
      modifies DraggedBodies()
      ensures Valid()
      ensures old(drag.active) && ray(drag.dragHeight).Some? ==>
        var p := ray(drag.dragHeight).value;
        var c := ClampToBounds(p.x - drag.grabOffsetX, p.z - drag.grabOffsetZ, DragMargin);
        var b := drag.obj.value.body;
        b.position == Vec3(c.x, drag.dragHeight, c.z) && InBounds(c, DragMargin) &&
        b.velocity == Zero && b.angularVelocity == Zero &&
        b.bodyType == old(b.bodyType) && b.mass == old(b.mass) && b.sleepState == old(b.sleepState)
      ensures !(old(drag.active) && ray(drag.dragHeight).Some?) ==> unchanged(old(DraggedBodies()))
    {
      if !drag.active || drag.obj.None? {
        return;
      }
      var p := ray(drag.dragHeight);
      if p.None? {
        return;
      }
      var c := ClampToBounds(p.value.x - drag.grabOffsetX, p.value.z - drag.grabOffsetZ, DragMargin);
      var held := drag.obj.value;
      held.body.Pin(Vec3(c.x, drag.dragHeight, c.z));
      forall q | q in cashObjects
        ensures BodyMode(q)
      {
        if q != held {
          DistinctBodies(cashObjects, q, held);
          assert old(BodyMode(q));
        }
      }
    }

    /**
     * finishDragging (app.js:900-925): the held body becomes dynamic again
     * with the mass saved at grab time, which is its spawn mass, and every
     * drag field is reset. Without an active drag nothing changes.
     */
    method FinishDragging()
      requires Valid()
      modifies drag, DraggedBodies()
      ensures Valid() && drag.Idle()
      ensures old(drag.active) ==>
        var b := old(drag.obj).value.body;
        b.bodyType == Dynamic && b.mass == old(drag.originalMass) &&
        b.mass == SpawnMass(old(drag.obj).value.denomination.kind) &&
        b.velocity == Vec3(0.0, -0.04, 0.0) && b.angularVelocity == Zero && b.sleepState == Awake &&
        b.position == old(b.position)
      ensures !old(drag.active) ==> unchanged(drag)
    {
      if !drag.active || drag.obj.None? {
        return;
      }
      var held := drag.obj.value;
      held.body.Release(drag.originalMass);
      drag.Reset();
      forall p | p in cashObjects
        ensures BodyMode(p)
      {
        if p != held {
          DistinctBodies(cashObjects, p, held);
          assert old(BodyMode(p));
        }
      }
    }

    /** The conditions under which a pointer-down starts a drag (app.js:928-935). */
    predicate StartsDrag(e: PointerEvent)
      reads this, drag
    {
      e.button == 0 && assetsReady && !drag.active && Pick(e.hit).Some?
    }

    /** The body a pointer-down would grab. */
    function PickedBodies(hit: Option<Hit>): set<Body>
      reads this
    {
      if Pick(hit).Some? then {Pick(hit).value.body} else {}
    }

    /**
     * onViewportPointerDown (app.js:927-960): ignored while a drag is active
     * or off a piece; otherwise the drag records the pointer, the piece, a
     * drag height of at least MinDragHeight, the grab offset and the body's
     * mass, and the body becomes kinematic with mass 0, stopped, and is
     * lifted to the drag height over the clamped ray point when there is one.
     */
    method PointerDown(e: PointerEvent)
      requires Valid()
      modifies drag, PickedBodies(e.hit)
      ensures Valid()
      ensures !old(StartsDrag(e)) ==> unchanged(drag) && unchanged(old(PickedBodies(e.hit)))
      ensures old(StartsDrag(e)) ==>
        var p := old(Pick(e.hit)).value;
        drag.active && drag.obj == Some(p) && drag.pointerId == Some(e.pointerId) &&
        drag.originalMass == old(p.body.mass) &&
        drag.dragHeight == RealMax(old(p.body.position.y) + DragLiftHeight, MinDragHeight) &&
        drag.grabOffsetX == e.hit.value.point.x - old(p.body.position.x) &&
        drag.grabOffsetZ == e.hit.value.point.z - old(p.body.position.z) &&
        p.body.bodyType == Kinematic && p.body.mass == 0.0 && p.body.sleepState == Awake &&
        p.body.velocity == Zero && p.body.angularVelocity == Zero &&
        (e.ray(drag.dragHeight).Some? ==>
          var c := ClampToBounds(e.ray(drag.dragHeight).value.x - drag.grabOffsetX,
                                 e.ray(drag.dragHeight).value.z - drag.grabOffsetZ, DragMargin);
          p.body.position == Vec3(c.x, drag.dragHeight, c.z)) &&
        (e.ray(drag.dragHeight).None? ==> p.body.position == old(p.body.position))
    {
      if e.button != 0 || !assetsReady || drag.active {
        return;
      }
      var picked := Pick(e.hit);
      if picked.None? {
        return;
      }
      var obj := picked.value;
      var body := obj.body;
      var point := e.hit.value.point;
      drag.Grab(e.pointerId, obj, RealMax(body.position.y + DragLiftHeight, MinDragHeight),
                point.x - body.position.x, point.z - body.position.z, body.mass);
      body.Hold();
      forall q | q in cashObjects
        ensures BodyMode(q)
      {
        if q != obj {
          DistinctBodies(cashObjects, q, obj);
          assert old(BodyMode(q));
        }
      }
      UpdateDraggedBodyPosition(e.ray);
    }

    /** The guard of the move and up handlers: the event belongs to the active drag. */
    predicate OwnsDrag(e: PointerEvent)
      reads drag
    {
      drag.active && drag.pointerId == Some(e.pointerId)
    }

    /** onViewportPointerMove (app.js:962-968): only the dragging pointer moves the piece. */
    method PointerMove(e: PointerEvent)
      requires Valid()
      modifies DraggedBodies()
      ensures Valid()
      ensures !(OwnsDrag(e) && e.ray(drag.dragHeight).Some?) ==> unchanged(old(DraggedBodies()))
      ensures OwnsDrag(e) && e.ray(drag.dragHeight).Some? ==>
        var p := e.ray(drag.dragHeight).value;
        var c := ClampToBounds(p.x - drag.grabOffsetX, p.z - drag.grabOffsetZ, DragMargin);
        var b := drag.obj.value.body;
        b.position == Vec3(c.x, drag.dragHeight, c.z) && InBounds(c, DragMargin) &&
        b.velocity == Zero && b.angularVelocity == Zero &&
        b.bodyType == old(b.bodyType) && b.mass == old(b.mass) && b.sleepState == old(b.sleepState)
    {
      if !drag.active || drag.pointerId != Some(e.pointerId) {
        return;
      }
      UpdateDraggedBodyPosition(e.ray);
    }

    /** onViewportPointerUp / pointercancel (app.js:970-976): only the dragging pointer ends the drag. */
    method PointerUp(e: PointerEvent)
      requires Valid()
      modifies drag, DraggedBodies()
      ensures Valid()
      ensures !old(OwnsDrag(e)) ==> unchanged(drag) && unchanged(old(DraggedBodies()))
      ensures old(OwnsDrag(e)) ==>
        var b := old(drag.obj).value.body;
        drag.Idle() &&
        b.bodyType == Dynamic && b.mass == old(drag.originalMass) &&
        b.mass == SpawnMass(old(drag.obj).value.denomination.kind) &&
        b.velocity == Vec3(0.0, -0.04, 0.0) && b.angularVelocity == Zero && b.sleepState == Awake &&
        b.position == old(b.position)
    {
      if !drag.active || drag.pointerId != Some(e.pointerId) {
        return;
      }
      FinishDragging();
    }

    /**
     * onViewportContextMenu (app.js:978-990): with assets ready, pieces on the
     * table and no drag, the piece under the pointer is exchanged; the yen on
     * the table stay the same either way.
     */
    method ContextMenu(e: PointerEvent, scatter: nat -> Launch)
      requires Valid()
      modifies this
      ensures Valid()
      ensures RegistryTotal(cashObjects) == old(RegistryTotal(cashObjects))
      ensures !(old(assetsReady) && !drag.active && old(Pick(e.hit)).Some?) ==>
        cashObjects == old(cashObjects) && cashByMeshId == old(cashByMeshId)
      ensures old(assetsReady) && !drag.active && old(Pick(e.hit)).Some? ==>
        var p := old(Pick(e.hit)).value;
        (p in cashObjects <==> Exchange.ExchangeOf(p.denomination, p.representedValue).None?)
      ensures Sched() == old(Sched()) && assetsReady == old(assetsReady)
    {
      if !assetsReady || |cashObjects| == 0 || drag.active {
        return;
      }
      var picked := Pick(e.hit);
      if picked.None? {
        return;
      }
      var exchanged := ExchangeCashObject(picked.value, scatter);
    }

    /**
     * clearAll (app.js:837-848): ends any drag, empties the queue, removes
     * every piece from the last to the first, empties the map and stops the
     * run.
     */
    method ClearAll()
      requires Valid()
      modifies this, drag, Bodies()
      ensures Valid() && drag.Idle()
      ensures cashObjects == [] && cashByMeshId == map[] && pendingQueue == []
      ensures !running && settleAccumulator == 0.0
      ensures spawnAccumulator == old(spawnAccumulator) && assetsReady == old(assetsReady)
    {
      FinishDragging();
      pendingQueue := [];
      RemoveAll();
      cashByMeshId := map[];
      running := false;
      settleAccumulator := 0.0;
      EmptyValid(this);
    }

    /** The removal loop of clearAll (app.js:841-843): every piece, from the last to the first. */
    method RemoveAll()
      requires Valid() && drag.obj == None
      modifies this
      ensures Valid() && cashObjects == []
      ensures Sched() == old(Sched()) && assetsReady == old(assetsReady)
    {
      var i := |cashObjects|;
      while i > 0
        invariant i == |cashObjects|
        invariant Valid()
        invariant Sched() == old(Sched()) && assetsReady == old(assetsReady)
        decreases i
      {
        i := i - 1;
        WithoutLast(cashObjects);
        RemoveCashObject(cashObjects[i]);
      }
    }

    /** The last three assignments of queueFromAmount (app.js:830-832). */
    method StartRun()
      requires Valid()
      modifies this
      ensures Valid()
      ensures running && spawnAccumulator == 0.0 && settleAccumulator == 0.0
      ensures pendingQueue == old(pendingQueue) && assetsReady == old(assetsReady)
      ensures cashObjects == old(cashObjects) && cashByMeshId == old(cashByMeshId) && nextMeshId == old(nextMeshId)
    {
      running := true;
      spawnAccumulator := 0.0;
      settleAccumulator := 0.0;
      ValidFrame(this);
    }

    /** The copy loop of queueFromAmount (app.js:825-828): each entry is pushed onto the queue in order. */
    method EnqueueAll(entries: seq<QueueEntry>)
      requires Valid()
      modifies this
      ensures Valid()
      ensures pendingQueue == old(pendingQueue) + entries
      ensures cashObjects == old(cashObjects) && cashByMeshId == old(cashByMeshId) && nextMeshId == old(nextMeshId)
      ensures running == old(running) && assetsReady == old(assetsReady)
      ensures spawnAccumulator == old(spawnAccumulator) && settleAccumulator == old(settleAccumulator)
    {
      for k := 0 to |entries|
        invariant pendingQueue == old(pendingQueue) + entries[..k]
        invariant cashObjects == old(cashObjects) && cashByMeshId == old(cashByMeshId) && nextMeshId == old(nextMeshId)
        invariant running == old(running) && assetsReady == old(assetsReady)
        invariant spawnAccumulator == old(spawnAccumulator) && settleAccumulator == old(settleAccumulator)
      {
        pendingQueue := pendingQueue + [entries[k]];
        SnocAssoc(old(pendingQueue), entries[..k], entries[k]);
        assert entries[..k + 1] == entries[..k] + [entries[k]];
      }
      assert entries[..|entries|] == entries;
    }

    /**
     * queueFromAmount (app.js:809-835): before the assets are ready, or when
     * parseAmount plans nothing, nothing changes; otherwise the table is
     * cleared and the planned queue, standing for the plan's represented
     * amount, starts a fresh run.
     */
    method QueueFromAmount(raw: JsNumber, rng: nat -> FisherYates.Unit)
      requires Valid()
      modifies this, drag, Bodies()
      ensures Valid()
      ensures !old(assetsReady) || PlanOf(raw, rng).itemQueue == [] ==>
        unchanged(this) && unchanged(drag) && unchanged(old(Bodies()))
      ensures old(assetsReady) && PlanOf(raw, rng).itemQueue != [] ==>
        cashObjects == [] && cashByMeshId == map[] && drag.Idle() &&
        pendingQueue == PlanOf(raw, rng).itemQueue &&
        running && spawnAccumulator == 0.0 && settleAccumulator == 0.0 &&
        RegistryTotal(cashObjects) + SumRepresented(pendingQueue) == PlanOf(raw, rng).representedAmount
    {
      if !assetsReady {
        return;
      }
      var plan := ParseAmount(raw, rng);
      if |plan.itemQueue| <= 0 {
        return;
      }
      ClearAll();
      pendingQueue := [];
      EnqueueAll(plan.itemQueue);
      assert [] + plan.itemQueue == plan.itemQueue;
      StartRun();
      PlanRepresented(raw, rng);
    }
  }
}
