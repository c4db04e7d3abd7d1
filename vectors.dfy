/** The part of `THREE.Vector3` the tile scheduler uses: squared distances. */
module Vectors {

  datatype Vec3 = Vec3(x: real, y: real, z: real)

  const Origin := Vec3(0.0, 0.0, 0.0)

  /** `v.lengthSq()` */
  function LengthSq(v: Vec3): real {
    v.x * v.x + v.y * v.y + v.z * v.z
  }

  /** `p.distanceToSquared(q)` */
  function DistanceToSquared(p: Vec3, q: Vec3): real {
    (p.x - q.x) * (p.x - q.x) + (p.y - q.y) * (p.y - q.y) + (p.z - q.z) * (p.z - q.z)
  }
}
