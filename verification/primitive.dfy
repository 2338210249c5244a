/**
 * What the BVH and the scene see of a scene object (Object.hpp is not part
 * of this model): its bounding box, whether it emits light, and its area;
 * and the result of a ray/object intersection.
 */
module Primitive {
  import opened Wrappers
  import opened Geometry

  /**
   * A scene object.  `id` tells objects with the same geometry apart; `lo`
   * and `hi` are the corners of getBounds(); `emissive` is hasEmit() and
   * `area` is getArea().
   */
  datatype Object = Object(id: nat, lo: Vec3, hi: Vec3, emissive: bool, area: real)
  {
    function Bounds(): Bounds3 { Box(lo, hi) }
  }

  /** The sort key of the builder: the centroid of the object's box on axis `dim`. */
  function Key(o: Object, dim: int): real
  {
    DimValue(dim, Centroid(o.Bounds()))
  }

  /**
   * Intersection: whether the ray hit, at which ray parameter, and which
   * object.  The shading data (coordinates, normal, material) ride along in
   * the source and are not modelled.
   */
  datatype Intersection = Intersection(happened: bool, distance: real, obj: Option<Object>)

  /**
   * The default-constructed Intersection.  Its distance is only ever read
   * when `happened` holds, so its value does not matter here.
   */
  const NoHit := Intersection(false, 0.0, None)
}
