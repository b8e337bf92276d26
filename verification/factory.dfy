/** Entity creation: `createSphere`, `createBox`, and the program's initial state. */
module Factory {
  import opened Geometry
  import opened State

  /** Every spawned body is dynamic with this mass. */
  const SpawnMass: real := 1.0

  /** The bodies' constructor position, overwritten right after construction. */
  const ConstructorPosition: Vec3 := Vec3(0.0, 3.0, 0.0)

  /** The entry the most recent spawn appended. */
  function LastEntry(c: Context): Entry
    requires |c.registry| > 0
  {
    c.registry[|c.registry| - 1]
  }

  /** The bookkeeping both spawns share: add the mesh to the scene, add the body to the
      world, subscribe the body to collisions, and push the pair onto the registry.
      Fresh ids come from the context's counters. */
  function Spawn(c: Context, mesh: Mesh, body: Body): (r: Context)
    ensures |r.registry| == |c.registry| + 1 && r.registry[..|c.registry|] == c.registry
    ensures var e := LastEntry(r);
      && r.world == c.world + {e.body}
      && r.scene == c.scene + {e.mesh}
      && r.listeners == c.listeners + {e.body}
      && r.bodies == c.bodies[e.body := body]
      && r.meshes == c.meshes[e.mesh := mesh]
    ensures r.currentTime == c.currentTime && r.audio == c.audio
    ensures Valid(c) ==>
      && LastEntry(r).body !in c.bodies
      && LastEntry(r).mesh !in c.meshes
      && Valid(r)
    ensures NoOrphans(c) ==> NoOrphans(r)
  {
    var b, m := c.nextBody, c.nextMesh;
    var r := c.(
      world := c.world + {b},
      scene := c.scene + {m},
      registry := c.registry + [Entry(m, b)],
      listeners := c.listeners + {b},
      bodies := c.bodies[b := body],
      meshes := c.meshes[m := mesh],
      nextBody := b + 1,
      nextMesh := m + 1);
    assert r.registry[..|c.registry|] == c.registry;
    if Valid(c) then
      SpawnKeepsValid(c, r, mesh, body);
      r
    else
      r
  }

  lemma SpawnKeepsValid(c: Context, r: Context, mesh: Mesh, body: Body)
    requires Valid(c)
    requires r == c.(
      world := c.world + {c.nextBody},
      scene := c.scene + {c.nextMesh},
      registry := c.registry + [Entry(c.nextMesh, c.nextBody)],
      listeners := c.listeners + {c.nextBody},
      bodies := c.bodies[c.nextBody := body],
      meshes := c.meshes[c.nextMesh := mesh],
      nextBody := c.nextBody + 1,
      nextMesh := c.nextMesh + 1)
    ensures Valid(r)
  {
    var n := |c.registry|;
    assert forall i :: 0 <= i < n ==> r.registry[i] == c.registry[i];
    assert r.registry[n] == Entry(c.nextMesh, c.nextBody);
    forall b | RegisteredBody(c.registry, b)
      ensures RegisteredBody(r.registry, b)
    {
      var i :| 0 <= i < n && c.registry[i].body == b;
      assert r.registry[i].body == b;
    }
    forall m | RegisteredMesh(c.registry, m)
      ensures RegisteredMesh(r.registry, m)
    {
      var i :| 0 <= i < n && c.registry[i].mesh == m;
      assert r.registry[i].mesh == m;
    }
    assert RegisteredBody(r.registry, c.nextBody);
    assert RegisteredMesh(r.registry, c.nextMesh);
    forall i | 0 <= i < |r.registry|
      ensures EntryConsistent(r, r.registry[i])
    {
      if i < n {
        assert EntryConsistent(c, c.registry[i]);
      }
    }
  }

  /** How a spawn ended: it ran to completion, or it threw part-way and left the state
      as it was at the throw. */
  datatype Outcome = Completed(after: Context) | Threw(after: Context)

  /** `createSphere(radius, position)`: a mesh of the shared unit sphere scaled by the
      radius on every axis, and a mass-1 body with a sphere shape of that radius. Both
      end up at `position`: the body's constructor position is overwritten.
      The mesh is added to the scene before the body is built, and the physics engine
      refuses a negative sphere radius by throwing; in that case the mesh stays in the
      scene with no body, no listener and no registry entry. */
  function CreateSphere(c: Context, radius: real, position: Vec3): (r: Outcome)
    ensures r.Completed? <==> radius >= 0.0
    ensures r.Completed? ==> var s := r.after;
      && |s.registry| == |c.registry| + 1 && s.registry[..|c.registry|] == c.registry
      && var e := LastEntry(s);
      && s.world == c.world + {e.body}
      && s.scene == c.scene + {e.mesh}
      && s.listeners == c.listeners + {e.body}
      && e.body in s.bodies && e.mesh in s.meshes
      && s.bodies == c.bodies[e.body := s.bodies[e.body]]
      && s.meshes == c.meshes[e.mesh := s.meshes[e.mesh]]
      && s.bodies[e.body].mass == SpawnMass
      && s.bodies[e.body].shape == Sphere(radius)
      && s.meshes[e.mesh].geometry == UnitSphere
      && s.meshes[e.mesh].scale == Vec3(radius, radius, radius)
      && s.meshes[e.mesh].castShadow
      && s.bodies[e.body].pose.position == position
      && s.meshes[e.mesh].pose == s.bodies[e.body].pose
      && s.currentTime == c.currentTime && s.audio == c.audio
      && (Valid(c) ==> e.body !in c.bodies && e.mesh !in c.meshes && Valid(s))
      && (NoOrphans(c) ==> NoOrphans(s))
    ensures r.Threw? ==> var s := r.after; var m := c.nextMesh;
      && m in s.meshes
      && s == c.(scene := c.scene + {m}, meshes := c.meshes[m := s.meshes[m]], nextMesh := m + 1)
      && s.meshes[m].scale == Vec3(radius, radius, radius)
      && s.meshes[m].pose.position == position
      && (Valid(c) ==> m !in c.meshes && m !in c.scene && !RegisteredMesh(s.registry, m) && Valid(s) && !NoOrphans(s))
  {
    var mesh := Mesh(UnitSphere, Vec3(radius, radius, radius), Pose(position, Identity), true);
    if radius < 0.0 then
      Threw(c.(scene := c.scene + {c.nextMesh}, meshes := c.meshes[c.nextMesh := mesh],
               nextMesh := c.nextMesh + 1))
    else
      var constructed := Body(SpawnMass, Sphere(radius), Pose(ConstructorPosition, Identity));
      var body := constructed.(pose := constructed.pose.(position := position));
      Completed(Spawn(c, mesh, body))
  }

  /** `createBox(width, height, depth, position)`: the mesh is the shared unit box scaled
      (width, height, depth), but the body's half-extents are built from
      (height, width, depth) -- the first two axes are swapped relative to the mesh. */
  function CreateBox(c: Context, width: real, height: real, depth: real, position: Vec3): (r: Context)
    ensures NoOrphans(c) ==> NoOrphans(r)
    ensures |r.registry| == |c.registry| + 1 && r.registry[..|c.registry|] == c.registry
    ensures var e := LastEntry(r);
      && r.world == c.world + {e.body}
      && r.scene == c.scene + {e.mesh}
      && r.listeners == c.listeners + {e.body}
      && e.body in r.bodies && e.mesh in r.meshes
      && r.bodies == c.bodies[e.body := r.bodies[e.body]]
      && r.meshes == c.meshes[e.mesh := r.meshes[e.mesh]]
      && r.bodies[e.body].mass == SpawnMass
      && r.bodies[e.body].shape.Box?
      && r.meshes[e.mesh].geometry == UnitBox
      && r.meshes[e.mesh].scale == Vec3(width, height, depth)
      && r.bodies[e.body].shape.halfExtents == Vec3(height / 2.0, width / 2.0, depth / 2.0)
      && r.meshes[e.mesh].castShadow
      && r.bodies[e.body].pose.position == position
      && r.meshes[e.mesh].pose == r.bodies[e.body].pose
    ensures r.currentTime == c.currentTime && r.audio == c.audio
    ensures Valid(c) ==> LastEntry(r).body !in c.bodies && LastEntry(r).mesh !in c.meshes && Valid(r)
  {
    var mesh := Mesh(UnitBox, Vec3(width, height, depth), Pose(position, Identity), true);
    var constructed := Body(SpawnMass, Box(Vec3(height * 0.5, width * 0.5, depth * 0.5)),
                            Pose(ConstructorPosition, Identity));
    var body := constructed.(pose := constructed.pose.(position := position));
    Spawn(c, mesh, body)
  }

  /** The box's physical extents (twice the half-extents) equal its visual scale on every
      axis exactly when width and height agree. */
  lemma BoxExtentsMatchScaleIff(c: Context, width: real, height: real, depth: real, position: Vec3)
    ensures var r := CreateBox(c, width, height, depth, position);
      var e := LastEntry(r);
      var half := r.bodies[e.body].shape.halfExtents;
      var scale := r.meshes[e.mesh].scale;
      (Vec3(2.0 * half.x, 2.0 * half.y, 2.0 * half.z) == scale) <==> width == height
  {
  }

  /** A concrete box whose collision shape disagrees with what is drawn: a 1 x 2 x 1 box
      collides as a 2 x 1 x 1 box. */
  lemma TallBoxCollidesWide(c: Context, position: Vec3)
    ensures var r := CreateBox(c, 1.0, 2.0, 1.0, position);
      var e := LastEntry(r);
      && r.meshes[e.mesh].scale == Vec3(1.0, 2.0, 1.0)
      && r.bodies[e.body].shape.halfExtents == Vec3(1.0, 0.5, 0.5)
  {
  }

  /** The program's state after start-up: the floor plus one sphere of radius 0.5 at (0, 3, 0). */
  function InitialContext(): (c: Context)
    ensures Valid(c) && NoOrphans(c)
    ensures |c.registry| == 1
    ensures var e := c.registry[0];
      && c.world == {FloorId, e.body}
      && c.scene == {e.mesh}
      && c.listeners == {e.body}
      && c.bodies[e.body].shape == Sphere(0.5)
      && c.bodies[e.body].pose.position == Vec3(0.0, 3.0, 0.0)
    ensures c.currentTime == 0.0
  {
    EmptyContextValid();
    CreateSphere(EmptyContext, 0.5, Vec3(0.0, 3.0, 0.0)).after
  }
}
