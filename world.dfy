/** The `World` class of src/world.hpp: the ordered sphere list, the camera
    and the directional light that the renderer reads. */
module Worlds {
  import opened CMath
  import opened Vectors
  import opened Colors
  import opened Spheres
  import opened Cameras

  datatype World = World(spheres: seq<Sphere>, camera: Camera, light: Vector3)

  /** The default constructor: a default camera moved to z = 2 (the focal
      length), the light `normalize(Vector3(-1, -1, -1))`, and three spheres
      pushed back in the order red, green, blue. */
  function DefaultWorld(lib: MathLib): (w: World)
    requires lib.Valid()
    ensures w.camera.origin == Vector3(0.0, 0.0, 2.0)
    ensures w.light.LengthSquared() == 1.0
    ensures w.light.x == w.light.y == w.light.z < 0.0
    ensures |w.spheres| == 3
    ensures w.spheres[0] == Sphere(Vector3(0.0, 0.0, -1.0), 0.5, Rgb(1.0, 0.0, 0.0))
    ensures w.spheres[1] == Sphere(Vector3(-1.0, 1.0, -1.0), 0.25, Rgb(0.0, 1.0, 0.0))
    ensures w.spheres[2] == Sphere(Vector3(1.0, -1.0, -1.0), 0.25, Rgb(0.0, 0.0, 1.0))
  {
    var camera := DefaultCamera();
    var camera := camera.(origin := camera.origin.(z := 2.0));
    var light := Vector3.Normalize(Vector3.FromInts(-1, -1, -1), lib);
    var spheres := [];
    var spheres := spheres + [Sphere(Vector3.FromInts(0, 0, -1), 0.5, NewColor(1.0, 0.0, 0.0))];
    var spheres := spheres + [Sphere(Vector3.FromInts(-1, 1, -1), 0.25, NewColor(0.0, 1.0, 0.0))];
    var spheres := spheres + [Sphere(Vector3.FromInts(1, -1, -1), 0.25, NewColor(0.0, 0.0, 1.0))];
    World(spheres, camera, light)
  }
}
