# three-physics: entity bookkeeping and frame rules

A model of the core of a small three.js + cannon-es demo (`main.js`). Spheres and boxes
are spawned as (render mesh, physics body) pairs, a debug action resets them, collisions
play a hit sound above an impact threshold, and each animation frame steps the physics
world and copies every body's transform onto its mesh.

The whole program state is one immutable `State.Context`:

- `world`: the set of physics bodies; it starts with the static floor (`FloorId`).
- `scene`: the set of spawned meshes.
- `registry`: the ordered `objectsUpdate` array of (mesh, body) pairs.
- `listeners`: the bodies subscribed to `playSound`.
- `bodies`, `meshes`: per-entity records (mass, shape, pose; geometry, scale, pose, shadow flag).
- `currentTime`: the frame clock.
- `audio`: the shared hit sound.

Every operation is a pure transition on this value.
`State.Valid` is the invariant every reachable context keeps, including one reached
after a sphere spawn threw:

- the floor is never registered and never listens;
- the world and listener set hold only the floor and registered entities;
- every mesh in the scene has a record;
- each entity's body, mesh and listener are live together or not at all;
- no id appears in two entries.

`State.NoOrphans` holds as long as no spawn has thrown: every mesh in the scene then
belongs to a registry entry.

Modules: `Geometry` (vectors, quaternions, poses), `Sound` (the `playSound` rule), `State`
(the context and its invariant), `Factory` (`createSphere`, `createBox`, start-up),
`Removal` (`debugObject.reset`), `Collision` (delivery of `collide` events to
listeners), `Animation` (the clock, the physics step and the sync loop of `tick`).

Behaviour kept as the code has it, where the names suggest otherwise:

- `reset` removes bodies, meshes and listeners but never empties `objectsUpdate`. The
  registry keeps its length and contents (`Removal.Reset`), so later frames still visit
  the stale entries (`Animation.SyncTransforms`).
- `createBox` scales the mesh by (width, height, depth) but gives the body half-extents
  (height/2, width/2, depth/2). The model keeps this swap
  (`Factory.BoxExtentsMatchScaleIff`, `Factory.TallBoxCollidesWide`).
- `createSphere` adds the mesh to the scene before it builds the body. The physics
  engine's sphere constructor throws for a negative radius, and then the mesh stays in
  the scene with no body, listener or registry entry. No reset ever removes it
  (`Factory.CreateSphere`, `Removal.OrphanMeshSurvivesReset`). The program's own callers
  only pass radii in [0, 0.5].
- Collision sounds play during a frame: the physics step raises the `collide` events, and
  each one is delivered to its body's listener (`Animation.Tick`, `Collision.CollideAll`).
- A collision reaching a body after a reset is silent because that body's listener was
  removed (`Collision.LateCollisionIgnored`). No separate guard exists.

## Model

| member | source | states |
|---|---|---|
| Sound.PlaySound | main.js:10-17 | above 1.5 the sound is restarted from time 0 at the drawn volume with one more play request; at or below 1.5 the audio is unchanged |
| Sound.PlaySoundChangesIff | main.js:11-16 | the audio state changes, and a play is requested, if and only if the impact strength is strictly greater than 1.5 |
| Sound.ThresholdBoundary | main.js:12 | strength exactly 1.5 leaves the audio alone; 1.5001 restarts it |
| Sound.VolumeIgnoresStrength | main.js:11-15 | any two triggering impacts of different strength give the same audio state; the volume is the random draw, not the impact |
| State.EmptyContextValid | main.js:93-99 | the state right after physics setup holds only the floor body, has an empty registry and satisfies the invariant |
| Factory.Spawn | main.js:204-219 | the registry grows by exactly one entry at its end. The entry's body joins the world and the listener set and its mesh joins the scene. The body and mesh are fresh in a valid state, no other record changes, and validity is preserved |
| Factory.CreateSphere | main.js:194-220 | completes exactly when the radius is non-negative. It then adds one new entry: a mass-1 body with sphere radius r and a unit-sphere mesh scaled (r,r,r) that casts shadows. Body and mesh share one pose whose position is the requested p, not the constructor's (0,3,0). Nothing else changes and validity is preserved. For a negative radius it throws after only a fresh mesh scaled (r,r,r) at p has joined the scene, and that mesh is in no registry entry. The state stays valid but now has an orphan mesh, and frames can still run on it |
| Factory.CreateBox | main.js:228-252 | one new entry: a mass-1 body and a unit-box mesh that casts shadows. The mesh is scaled (w,h,d) and the body's box half-extents are (h/2, w/2, d/2). Both sit at p with one shared pose. Nothing else changes and validity is preserved |
| Factory.BoxExtentsMatchScaleIff | main.js:234-241 | the box's physical extents equal its visual scale on every axis if and only if width equals height |
| Factory.TallBoxCollidesWide | main.js:234-241 | a 1 x 2 x 1 box is drawn 1 x 2 x 1 but gets half-extents (1, 0.5, 0.5) |
| Factory.InitialContext | main.js:223 | start-up state is valid with the floor plus one sphere of radius 0.5 at (0,3,0) in the world, its mesh in the scene, its body listening, and the clock at 0 |
| Removal.RemoveEntries | main.js:35-42 | after processing the entries, a body is in the world (or listening) exactly when it was before and no processed entry names it. The same holds for meshes in the scene. Only these three sets change |
| Removal.Reset | main.js:34-43 | no registered body stays in the world or listens, and no registered mesh stays in the scene. Unregistered bodies, meshes and listeners stay. The registry and all other state are unchanged |
| Removal.ResetLeavesOnlyFloor | main.js:34-43 | from a valid state, reset leaves exactly the floor in the world, no listeners, a registry of the same length, and a valid state. The scene is empty when no spawn has thrown |
| Removal.ResetIdempotent | main.js:35-42 | a second reset changes nothing |
| Removal.SpawnTwiceThenReset | main.js:34-43 | after start-up, a sphere, a box and a reset, the world is just the floor and the scene is empty, yet the registry still has 3 entries |
| Removal.OrphanMeshSurvivesReset | main.js:204-208 | from a valid state, a sphere spawn with a negative radius leaves its new mesh in the scene, and a reset does not remove it |
| Collision.Collide | main.js:214 | a collide event changes only the audio. It changes the audio exactly when the body is subscribed and the impact exceeds 1.5, and then it is a restart at the drawn volume |
| Collision.CollideAll | main.js:10-17 | delivering a step's events in order changes only the audio. It changes exactly when some event reaches a listener with strength above 1.5. Each such event adds exactly one play request. The sound then ends rewound to 0 at the volume drawn for the last heard event |
| Collision.TwoHeardEventsPlayTwice | main.js:10-17 | two heard events in one step give two play requests and leave the second one's volume |
| Collision.LateCollisionIgnored | main.js:37 | after a reset, a collide event on any registered body changes nothing |
| Collision.FloorIsSilent | main.js:93-99 | in a valid state a collide event on the floor body changes nothing; the floor never subscribes |
| Animation.DeltaTime | main.js:264-266 | the previous time plus the delta is the new reading, and the delta is non-negative if and only if the clock did not go backwards |
| Animation.Deltas | main.js:260-266 | a run of frames computes one delta per clock reading, each reading becoming the next frame's previous time (`Animation.RunFrames` proves these are the deltas the frames compute) |
| Animation.DeltasTelescope | main.js:260-266 | over any run of frames, the deltas sum to the last clock reading minus the starting time |
| Animation.DeltasNonNegativeIff | main.js:264-266 | every frame delta is non-negative if and only if the clock readings never decrease |
| Animation.StepWorld | main.js:269 | the step changes only body poses. Bodies in the world take the engine's poses, bodies out of the world do not move, and no mass or shape changes |
| Animation.SyncTransforms | main.js:271-274 | each registered mesh's pose becomes its body's pose, and no other mesh field changes. Unregistered meshes, all bodies and the rest of the state are untouched |
| Animation.Tick | main.js:262-274 | the delta is the reading minus the previous time and the clock becomes the reading. Bodies end up exactly as the physics step left them. The audio is what delivering the step's collide events makes it, and it is unchanged exactly when no event is heard. Every registered mesh's pose equals its body's pose, no other mesh field changes, and unregistered meshes are untouched. The world, scene, listeners, registry and id counters are unchanged and validity is preserved |
| Animation.RunFrames | main.js:262-284 | running a frame per clock reading, each with its own engine step and collide events, yields exactly the deltas `Deltas` defines. The clock ends at the last reading and the deltas sum to the elapsed time. They are all non-negative if and only if the readings never decrease. Validity and the registry are kept, and after at least one frame every registered mesh shows its body's pose |

## Left out

- Rendering setup (textures, environment map, lights, floor mesh, camera, resize handler, orbit controls, `renderer.render`): static configuration with no logic. The modelled scene therefore holds only spawned meshes.
- Animation.Tick: the `collide` events the step raises are an input (`events`), not derived from the bodies' motion, since contact detection belongs to the physics engine.
- Physics engine internals (broadphase, sleeping, contact solving, the integration inside `world.step`): the step is the parameter `Animation.Stepper`, a function from the in-world bodies and the step arguments (1/60, delta, 3) to new poses. The engine's state beyond poses (velocities, its time accumulator, sleeping) is not modelled, so a `Stepper` stands for one frame's step only. `Animation.RunFrames` therefore takes one per frame.
- The physics engine's own argument checks are not part of this model beyond the negative-radius throw of its sphere constructor. That throw is modelled in `Factory.CreateSphere`.
- The contact computation behind `getImpactVelocityAlongNormal`: the impact strength is an input of `Collision.Collide`.
- The debug panel and `Math.random`: radius, dimensions, position and the sound's volume are inputs. The model does not constrain the volume; the program draws it from [0, 1).
- Real audio playback: `play` is recorded as a counter of play requests.
- `requestAnimationFrame`, `controls.update` and the render call: one frame is one `Animation.Tick`. The clock reading is an input, and `Animation.RunFrames` runs a frame per reading.
- Floating point: coordinates, times and scales are reals. The floor's quaternion uses the double values the axis-angle conversion yields.
- Physics and contact materials (friction 0.1, restitution 0.7) and the shared render material: they take part only in the engine's step.
- Object identity: bodies and meshes are opaque ids drawn from counters in the context.
