/** `debugObject.reset`: detach every registered entity from the world, the scene and
    the collision listeners. The registry itself is left as it is. */
module Removal {
  import opened Geometry
  import opened State
  import Factory

  /** A body is named by `es` exactly when the first entry or the rest names it. */
  lemma RegisteredBodyCons(es: seq<Entry>, b: BodyId)
    requires |es| > 0
    ensures RegisteredBody(es, b) <==> es[0].body == b || RegisteredBody(es[1..], b)
  {
  }

  /** A mesh is named by `es` exactly when the first entry or the rest names it. */
  lemma RegisteredMeshCons(es: seq<Entry>, m: MeshId)
    requires |es| > 0
    ensures RegisteredMesh(es, m) <==> es[0].mesh == m || RegisteredMesh(es[1..], m)
  {
  }

  /** The body of the reset loop, applied to the entries `es` in order: for each one,
      unsubscribe its body, remove the body from the world and the mesh from the scene.
      Removing something already absent changes nothing. */
  function RemoveEntries(c: Context, es: seq<Entry>): (r: Context)
    ensures r == c.(world := r.world, scene := r.scene, listeners := r.listeners)
    ensures forall b :: b in r.world <==> b in c.world && !RegisteredBody(es, b)
    ensures forall m :: m in r.scene <==> m in c.scene && !RegisteredMesh(es, m)
    ensures forall b :: b in r.listeners <==> b in c.listeners && !RegisteredBody(es, b)
    decreases |es|
  {
    if es == [] then
      c
    else
      var e := es[0];
      var next := c.(listeners := c.listeners - {e.body},
                     world := c.world - {e.body},
                     scene := c.scene - {e.mesh});
      var r := RemoveEntries(next, es[1..]);
      assert forall b :: RegisteredBody(es, b) <==> e.body == b || RegisteredBody(es[1..], b) by {
        forall b ensures RegisteredBody(es, b) <==> e.body == b || RegisteredBody(es[1..], b) {
          RegisteredBodyCons(es, b);
        }
      }
      assert forall m :: RegisteredMesh(es, m) <==> e.mesh == m || RegisteredMesh(es[1..], m) by {
        forall m ensures RegisteredMesh(es, m) <==> e.mesh == m || RegisteredMesh(es[1..], m) {
          RegisteredMeshCons(es, m);
        }
      }
      r
  }

  /** `reset`: every registered body leaves the world and stops listening, every registered
      mesh leaves the scene; the registry, the records, the clock and the audio are untouched. */
  function Reset(c: Context): (r: Context)
    ensures r.registry == c.registry
    ensures r == c.(world := r.world, scene := r.scene, listeners := r.listeners)
    ensures forall i :: 0 <= i < |c.registry| ==>
      c.registry[i].body !in r.world && c.registry[i].mesh !in r.scene && c.registry[i].body !in r.listeners
    ensures forall b :: b in c.world && !RegisteredBody(c.registry, b) ==> b in r.world
    ensures forall m :: m in c.scene && !RegisteredMesh(c.registry, m) ==> m in r.scene
    ensures forall b :: b in c.listeners && !RegisteredBody(c.registry, b) ==> b in r.listeners
    ensures r.world <= c.world && r.scene <= c.scene && r.listeners <= c.listeners
  {
    RemoveEntries(c, c.registry)
  }

  /** From a valid state, reset leaves exactly the floor in the world and no listeners, and
      the state is still valid; the scene is empty unless a spawn threw part-way. */
  lemma ResetLeavesOnlyFloor(c: Context)
    requires Valid(c)
    ensures Reset(c).world == {FloorId}
    ensures NoOrphans(c) ==> Reset(c).scene == {}
    ensures Reset(c).listeners == {}
    ensures |Reset(c).registry| == |c.registry|
    ensures Valid(Reset(c))
  {
  }

  /** A second reset changes nothing. */
  lemma ResetIdempotent(c: Context)
    ensures Reset(Reset(c)) == Reset(c)
  {
  }

  /** Start-up, one more sphere, one box, then reset: only the floor is left in the world
      and the scene is empty, yet all three entries are still in the registry. */
  lemma SpawnTwiceThenReset(p: Vec3, q: Vec3)
    ensures var c := Factory.CreateBox(Factory.CreateSphere(Factory.InitialContext(), 0.25, p).after, 0.5, 0.75, 1.0, q);
      var r := Reset(c);
      && r.world == {FloorId}
      && r.scene == {}
      && |r.registry| == 3
  {
  }

  /** A sphere spawn that throws leaves its mesh in the scene unregistered, so no later
      reset removes it. */
  lemma OrphanMeshSurvivesReset(c: Context, radius: real, position: Geometry.Vec3)
    requires Valid(c)
    requires radius < 0.0
    ensures var s := Factory.CreateSphere(c, radius, position).after;
      c.nextMesh in s.scene && c.nextMesh in Reset(s).scene
  {
  }
}
