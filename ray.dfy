/** The `Ray` class of src/ray.hpp. Its constructor stores origin and
    direction as given: the direction is not normalised, and a zero
    direction is accepted. */
module Rays {
  import opened Vectors

  datatype Ray = Ray(origin: Vector3, direction: Vector3)
}
