/** One animation frame: read the clock, step the physics world, copy every registered
    body's transform onto its mesh. */
module Animation {
  import opened Geometry
  import opened State
  import Collision

  /** The arguments the frame passes to the physics step. */
  const FixedTimeStep: real := 1.0 / 60.0
  const MaxSubSteps: nat := 3

  /** The physics engine's step, which is outside this model: given the bodies in the world,
      the fixed step, the frame's delta and the sub-step cap, it yields new poses. */
  type Stepper = (map<BodyId, Body>, real, real, nat) -> map<BodyId, Pose>

  /** Frame delta from the previous clock reading to the new one. */
  function DeltaTime(currentTime: real, elapsed: real): (delta: real)
    ensures currentTime + delta == elapsed
    ensures delta >= 0.0 <==> elapsed >= currentTime
  {
    elapsed - currentTime
  }

  /** The deltas a run of frames computes from successive clock readings, starting from
      `currentTime`; each frame records its reading as the next frame's `currentTime`. */
  function Deltas(currentTime: real, readings: seq<real>): (ds: seq<real>)
    ensures |ds| == |readings|
    decreases |readings|
  {
    if readings == [] then []
    else [DeltaTime(currentTime, readings[0])] + Deltas(readings[0], readings[1..])
  }

  function Sum(s: seq<real>): real
  {
    if s == [] then 0.0 else s[0] + Sum(s[1..])
  }

  /** The readings never go backwards, starting from `start`. */
  predicate NonDecreasingFrom(start: real, readings: seq<real>)
  {
    forall i :: 0 <= i < |readings| ==> ([start] + readings)[i] <= readings[i]
  }

  /** The frame deltas add up to the total elapsed time: no time is lost or counted twice. */
  lemma {:induction false} DeltasTelescope(currentTime: real, readings: seq<real>)
    requires |readings| > 0
    ensures Sum(Deltas(currentTime, readings)) == readings[|readings| - 1] - currentTime
    decreases |readings|
  {
    if |readings| > 1 {
      DeltasTelescope(readings[0], readings[1..]);
    }
  }

  predicate AllNonNegative(ds: seq<real>)
  {
    forall i :: 0 <= i < |ds| ==> ds[i] >= 0.0
  }

  /** Every frame delta is non-negative exactly when the clock never goes backwards. */
  lemma {:induction false} DeltasNonNegativeIff(currentTime: real, readings: seq<real>)
    ensures AllNonNegative(Deltas(currentTime, readings)) <==> NonDecreasingFrom(currentTime, readings)
    decreases |readings|
  {
    if readings != [] {
      var ds := Deltas(currentTime, readings);
      var rest := readings[1..];
      var dsRest := Deltas(readings[0], rest);
      DeltasNonNegativeIff(readings[0], rest);
      assert ds == [readings[0] - currentTime] + dsRest;
      assert AllNonNegative(ds) <==> currentTime <= readings[0] && AllNonNegative(dsRest) by {
        assert ds[0] == readings[0] - currentTime;
        if currentTime <= readings[0] && AllNonNegative(dsRest) {
          forall i | 0 <= i < |readings|
            ensures ds[i] >= 0.0
          {
            if i > 0 {
              assert ds[i] == dsRest[i - 1];
            }
          }
        }
        if AllNonNegative(ds) {
          forall j | 0 <= j < |rest|
            ensures dsRest[j] >= 0.0
          {
            assert dsRest[j] == ds[j + 1];
          }
        }
      }
      var full, fullRest := [currentTime] + readings, [readings[0]] + rest;
      assert NonDecreasingFrom(currentTime, readings)
         <==> currentTime <= readings[0] && NonDecreasingFrom(readings[0], rest) by {
        assert forall j :: 0 <= j < |rest| ==> fullRest[j] == full[j + 1] && rest[j] == readings[j + 1];
        if currentTime <= readings[0] && NonDecreasingFrom(readings[0], rest) {
          forall i | 0 <= i < |readings|
            ensures full[i] <= readings[i]
          {
            if i > 0 {
              assert full[i] == fullRest[i - 1] && readings[i] == rest[i - 1];
            }
          }
        }
      }
    }
  }

  /** `world.step`: bodies in the world take the poses the engine yields; bodies removed
      from the world stay where they are; no body gains or loses its mass or shape. */
  function StepWorld(c: Context, delta: real, step: Stepper): (r: Context)
    ensures r == c.(bodies := r.bodies)
    ensures r.bodies.Keys == c.bodies.Keys
    ensures forall b :: b in c.bodies ==>
      r.bodies[b] == c.bodies[b].(pose := r.bodies[b].pose)
    ensures forall b :: b in c.bodies && b !in c.world ==> r.bodies[b] == c.bodies[b]
    ensures var moved := step(map b | b in c.bodies && b in c.world :: c.bodies[b], FixedTimeStep, delta, MaxSubSteps);
      forall b :: b in c.bodies && b in c.world && b in moved ==> r.bodies[b].pose == moved[b]
  {
    var live := map b | b in c.bodies && b in c.world :: c.bodies[b];
    var moved := step(live, FixedTimeStep, delta, MaxSubSteps);
    c.(bodies := map b | b in c.bodies ::
         if b in c.world && b in moved then c.bodies[b].(pose := moved[b]) else c.bodies[b])
  }

  /** Every registered mesh shows exactly its body's pose. */
  predicate Synced(c: Context)
  {
    forall i :: 0 <= i < |c.registry| ==>
      && c.registry[i].mesh in c.meshes && c.registry[i].body in c.bodies
      && c.meshes[c.registry[i].mesh].pose == c.bodies[c.registry[i].body].pose
  }

  /** From `c` to `r` no mesh appears or disappears, only poses change, and meshes outside
      the registry keep even their pose. */
  predicate OnlyRegisteredPosesChange(c: Context, r: Context)
  {
    && r.meshes.Keys == c.meshes.Keys
    && (forall m :: m in c.meshes ==> r.meshes[m] == c.meshes[m].(pose := r.meshes[m].pose))
    && (forall m :: m in c.meshes && !RegisteredMesh(c.registry, m) ==> r.meshes[m] == c.meshes[m])
  }

  /** The copy loop: for every registry entry in order, the mesh takes the body's position
      and quaternion. Entries whose halves were removed by a reset are still visited. */
  method SyncTransforms(c: Context) returns (r: Context)
    requires Valid(c)
    ensures r == c.(meshes := r.meshes)
    ensures r.meshes.Keys == c.meshes.Keys
    ensures forall i :: 0 <= i < |c.registry| ==>
      r.meshes[c.registry[i].mesh] == c.meshes[c.registry[i].mesh].(pose := c.bodies[c.registry[i].body].pose)
    ensures forall m :: m in c.meshes && !RegisteredMesh(c.registry, m) ==> r.meshes[m] == c.meshes[m]
    ensures forall m :: m in c.meshes ==> r.meshes[m] == c.meshes[m].(pose := r.meshes[m].pose)
  {
    var meshes := c.meshes;
    var i := 0;
    while i < |c.registry|
      invariant 0 <= i <= |c.registry|
      invariant meshes.Keys == c.meshes.Keys
      invariant forall m :: m in c.meshes ==> meshes[m] == c.meshes[m].(pose := meshes[m].pose)
      invariant forall j :: 0 <= j < i ==>
        meshes[c.registry[j].mesh] == c.meshes[c.registry[j].mesh].(pose := c.bodies[c.registry[j].body].pose)
      invariant forall m :: m in c.meshes && (forall j :: 0 <= j < i ==> c.registry[j].mesh != m) ==>
        meshes[m] == c.meshes[m]
    {
      var e := c.registry[i];
      assert EntryConsistent(c, e);
      meshes := meshes[e.mesh := meshes[e.mesh].(pose := c.bodies[e.body].pose)];
      i := i + 1;
    }
    r := c.(meshes := meshes);
  }

  /** One frame: the clock delta, the physics step -- during which the engine raises the
      `collide` events `events`, each delivered to its body's listener -- then the transform
      copy. Afterwards every registered mesh shows exactly its body's pose; the copy moves
      no body and changes nothing about a mesh but its pose. */
  method Tick(c: Context, elapsed: real, step: Stepper, events: seq<Collision.CollisionEvent>)
    returns (r: Context, delta: real)
    requires Valid(c)
    ensures delta == DeltaTime(c.currentTime, elapsed)
    ensures r.currentTime == elapsed
    ensures Valid(r)
    ensures r.world == c.world && r.scene == c.scene && r.listeners == c.listeners
    ensures r.registry == c.registry
    ensures r.nextBody == c.nextBody && r.nextMesh == c.nextMesh
    ensures r.bodies == StepWorld(c, delta, step).bodies
    ensures r.audio == Collision.CollideAll(c, events).audio
    ensures r.audio == c.audio <==> Collision.NoneHeard(c.listeners, events)
    ensures OnlyRegisteredPosesChange(c, r)
    ensures Synced(r)
  {
    delta := DeltaTime(c.currentTime, elapsed);
    // The clock is recorded before the step; the step does not read it.
    var stepped := StepWorld(c, delta, step).(currentTime := elapsed);
    var heard := Collision.CollideAll(stepped, events);
    Collision.CollideAllDependsOnAudioAndListeners(stepped, c, events);
    ValidIgnoresRecords(c, heard);
    r := SyncTransforms(heard);
    ValidIgnoresRecords(heard, r);
  }

  /** One more frame moves one delta from the pending suffix onto the computed prefix. */
  lemma DeltasShift(done: seq<real>, before: real, readings: seq<real>, i: nat, total: seq<real>)
    requires i < |readings|
    requires done + Deltas(before, readings[i..]) == total
    ensures (done + [DeltaTime(before, readings[i])]) + Deltas(readings[i], readings[i + 1..]) == total
  {
    assert readings[i..][1..] == readings[i + 1..];
  }

  /** Consecutive frames at the clock readings `readings`. The k-th frame's step is
      `steps[k]` and raises `frameEvents[k]`: the engine's state beyond poses (velocities,
      its time accumulator, sleeping) differs from frame to frame, so each frame has its own. The deltas the frames compute are exactly `Deltas` of the readings,
      the clock ends at the last reading, and the state stays valid. */
  method RunFrames(c: Context, readings: seq<real>, steps: seq<Stepper>,
                   frameEvents: seq<seq<Collision.CollisionEvent>>)
    returns (r: Context, deltas: seq<real>)
    requires Valid(c)
    requires |frameEvents| == |readings| && |steps| == |readings|
    ensures deltas == Deltas(c.currentTime, readings)
    ensures r.currentTime == if readings == [] then c.currentTime else readings[|readings| - 1]
    ensures |readings| > 0 ==> Sum(deltas) == r.currentTime - c.currentTime
    ensures AllNonNegative(deltas) <==> NonDecreasingFrom(c.currentTime, readings)
    ensures Valid(r)
    ensures r.world == c.world && r.scene == c.scene && r.listeners == c.listeners
    ensures r.registry == c.registry
    ensures |readings| > 0 ==> Synced(r)
  {
    r, deltas := c, [];
    var i := 0;
    while i < |readings|
      invariant 0 <= i <= |readings|
      invariant Valid(r)
      invariant r.world == c.world && r.scene == c.scene && r.listeners == c.listeners
      invariant r.registry == c.registry
      invariant r.currentTime == if i == 0 then c.currentTime else readings[i - 1]
      invariant deltas + Deltas(r.currentTime, readings[i..]) == Deltas(c.currentTime, readings)
      invariant i > 0 ==> Synced(r)
    {
      var before := r.currentTime;
      var delta;
      r, delta := Tick(r, readings[i], steps[i], frameEvents[i]);
      DeltasShift(deltas, before, readings, i, Deltas(c.currentTime, readings));
      deltas := deltas + [delta];
      i := i + 1;
    }
    assert readings[i..] == [];
    if |readings| > 0 {
      DeltasTelescope(c.currentTime, readings);
    }
    DeltasNonNegativeIff(c.currentTime, readings);
  }
}
