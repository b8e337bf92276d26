/** The program's global mutable state, gathered into one immutable context value:
    the physics world, the render scene, the `objectsUpdate` registry, the set of
    bodies listening for collisions, per-entity records, the frame clock and the audio. */
module State {
  import opened Geometry
  import Sound

  /** Opaque handles for physics bodies and render meshes. */
  type BodyId = nat
  type MeshId = nat

  /** Physics collision shapes: the floor's plane, a sphere radius, a box's half-extents. */
  datatype Shape = Plane | Sphere(radius: real) | Box(halfExtents: Vec3)

  /** A physics body. Mass 0 is static. */
  datatype Body = Body(mass: real, shape: Shape, pose: Pose)

  /** The two shared unit geometries meshes are built from. */
  datatype MeshGeometry = UnitSphere | UnitBox

  /** A render mesh: shared geometry, per-mesh scale and transform, shadow flag. */
  datatype Mesh = Mesh(geometry: MeshGeometry, scale: Vec3, pose: Pose, castShadow: bool)

  /** One element of `objectsUpdate`: a mesh paired with the body that drives it. */
  datatype Entry = Entry(mesh: MeshId, body: BodyId)

  datatype Context = Context(
    world: set<BodyId>,
    scene: set<MeshId>,
    registry: seq<Entry>,
    listeners: set<BodyId>,
    bodies: map<BodyId, Body>,
    meshes: map<MeshId, Mesh>,
    nextBody: BodyId,
    nextMesh: MeshId,
    currentTime: real,
    audio: Sound.Audio)

  /** The static floor is the first body created. */
  const FloorId: BodyId := 0

  /** The floor: a static plane turned a quarter turn about -x. The quaternion holds the
      double-precision values sin(pi/4) and cos(pi/4) that the axis-angle conversion produces. */
  const FloorBody: Body :=
    Body(0.0, Plane, Pose(Origin, Quat(-0.7071067811865475, 0.0, 0.0, 0.7071067811865476)))

  predicate RegisteredBody(registry: seq<Entry>, b: BodyId)
  {
    exists i :: 0 <= i < |registry| && registry[i].body == b
  }

  predicate RegisteredMesh(registry: seq<Entry>, m: MeshId)
  {
    exists i :: 0 <= i < |registry| && registry[i].mesh == m
  }

  /** The invariant every reachable context keeps:
      - the floor is in the world, never registered, and never listens;
      - the world holds only the floor and registered bodies, the listener set only
        registered bodies, and the scene only meshes that have records (a sphere spawn that
        throws leaves an unregistered mesh there; see `NoOrphans`);
      - every registered entry's records exist, and its two halves and its listener are
        live together or not at all;
      - no body or mesh appears in two entries;
      - the id counters are past every allocated id. */
  predicate Valid(c: Context)
  {
    && FloorId in c.world
    && FloorId in c.bodies
    && !RegisteredBody(c.registry, FloorId)
    && (forall b :: b in c.world ==> b == FloorId || RegisteredBody(c.registry, b))
    && (forall m :: m in c.scene ==> m in c.meshes)
    && (forall b :: b in c.listeners ==> RegisteredBody(c.registry, b))
    && (forall b :: b in c.bodies ==> b < c.nextBody)
    && (forall m :: m in c.meshes ==> m < c.nextMesh)
    && (forall i :: 0 <= i < |c.registry| ==> EntryConsistent(c, c.registry[i]))
    && (forall i, j :: 0 <= i < j < |c.registry| ==>
          c.registry[i].body != c.registry[j].body && c.registry[i].mesh != c.registry[j].mesh)
  }

  /** Every mesh in the scene belongs to a registry entry: no spawn has thrown part-way. */
  predicate NoOrphans(c: Context)
  {
    forall m :: m in c.scene ==> RegisteredMesh(c.registry, m)
  }

  /** An entry's records exist and its body, mesh and listener are live together. */
  predicate EntryConsistent(c: Context, e: Entry)
  {
    && e.body in c.bodies
    && e.mesh in c.meshes
    && (e.body in c.world <==> e.mesh in c.scene)
    && (e.body in c.world <==> e.body in c.listeners)
  }

  /** Validity depends only on membership and ids, not on the records' contents, the clock
      or the audio. */
  lemma ValidIgnoresRecords(c: Context, r: Context)
    requires Valid(c)
    requires r.world == c.world && r.scene == c.scene && r.listeners == c.listeners
    requires r.registry == c.registry && r.nextBody == c.nextBody && r.nextMesh == c.nextMesh
    requires r.bodies.Keys == c.bodies.Keys && r.meshes.Keys == c.meshes.Keys
    ensures Valid(r)
  {
    assert forall i :: 0 <= i < |r.registry| ==> EntryConsistent(c, c.registry[i]);
  }

  /** The state right after the physics setup: only the floor, no entities, clock at zero. */
  const EmptyContext: Context :=
    Context({FloorId}, {}, [], {}, map[FloorId := FloorBody], map[], FloorId + 1, 0, 0.0,
            Sound.InitialAudio)

  lemma EmptyContextValid()
    ensures Valid(EmptyContext) && NoOrphans(EmptyContext)
    ensures EmptyContext.world == {FloorId} && EmptyContext.registry == []
  {
  }
}
