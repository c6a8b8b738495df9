/** The `Sphere` class of src/sphere.hpp. Its constructor stores position,
    radius and colour as given; the radius is not checked, and the colour is
    a `Color`, so its channels are in [0, 1]. */
module Spheres {
  import opened Vectors
  import opened Colors

  datatype Sphere = Sphere(position: Vector3, radius: real, color: Color)
}
