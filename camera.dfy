/** The `Camera` class of src/camera.hpp: an origin and nothing else (no
    orientation, no field of view). */
module Cameras {
  import opened Vectors

  datatype Camera = Camera(origin: Vector3)

  /** The default constructor `Camera()`: the origin at (0, 0, 0), the same
      camera as the explicit constructor given `Vector3(0, 0, 0)`. */
  function DefaultCamera(): (c: Camera)
    ensures c.origin == Vector3.Zero()
    ensures c == Camera(Vector3.FromInts(0, 0, 0))
  {
    Camera(Vector3.FromInts(0, 0, 0))
  }
}
