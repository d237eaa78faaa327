/** Positions, orientations and poses of scene objects. */
module Geometry {

  datatype Vec3 = Vec3(x: real, y: real, z: real)

  /** A rotation quaternion; the model only copies these, it never composes them. */
  datatype Quat = Quat(x: real, y: real, z: real, w: real)

  /** Where an object is and how it is turned: `position` plus `quaternion`. */
  datatype Pose = Pose(position: Vec3, orientation: Quat)

  const Origin := Vec3(0.0, 0.0, 0.0)
  const IdentityQuat := Quat(0.0, 0.0, 0.0, 1.0)

  /** The pose of a freshly constructed scene object. */
  const IdentityPose := Pose(Origin, IdentityQuat)

  function Add(a: Vec3, b: Vec3): Vec3 {
    Vec3(a.x + b.x, a.y + b.y, a.z + b.z)
  }

  function Sub(a: Vec3, b: Vec3): Vec3 {
    Vec3(a.x - b.x, a.y - b.y, a.z - b.z)
  }

  /** The squared length of a vector. */
  function SquaredNorm(v: Vec3): real {
    v.x * v.x + v.y * v.y + v.z * v.z
  }

  function Scale(v: Vec3, k: real): Vec3 {
    Vec3(v.x * k, v.y * k, v.z * k)
  }

  /** A uniform scale vector `(k, k, k)`, as `mesh.scale.set(k, k, k)` makes. */
  function Uniform(k: real): Vec3 {
    Vec3(k, k, k)
  }
}
