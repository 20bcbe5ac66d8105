/** The geometric value types carried by entities and messages. The model never
    computes with them (the physics step and the collision test are left out), so
    the coordinates are exact reals and only their identity matters. */
module Geometry {

  /** D3Vector: an (x, y, z) triple. */
  datatype Vector3 = Vector3(x: real, y: real, z: real)

  /** D3PolarCoordinate: a direction given as two angles and a length. */
  datatype Polar = Polar(azimuth: real, elevation: real, length: real)

  /** Size: the extents of the non-rotating hit box around an entity. */
  datatype Size = Size(width: real, depth: real, height: real)
}
