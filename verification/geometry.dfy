/** Transforms shared by the physics bodies and the render meshes.
    Coordinates are reals standing for the program's doubles. */
module Geometry {

  /** A 3-vector: a position, a scale or a box's half-extents. */
  datatype Vec3 = Vec3(x: real, y: real, z: real)

  /** A rotation quaternion, components in the (x, y, z, w) order both engines use. */
  datatype Quat = Quat(x: real, y: real, z: real, w: real)

  /** Position plus orientation: the part of a transform the sync loop copies. */
  datatype Pose = Pose(position: Vec3, quaternion: Quat)

  /** The quaternion every freshly constructed body and mesh starts with. */
  const Identity: Quat := Quat(0.0, 0.0, 0.0, 1.0)

  const Origin: Vec3 := Vec3(0.0, 0.0, 0.0)
}
