/**
 * Points and axis-aligned boxes over the reals.  Bounds3.hpp is not part of
 * this model; the operations below are the small real-valued versions the
 * BVH builder relies on: component-wise union, centroid, diagonal, the axis
 * of widest extent, and the projection of a point on an axis.
 */
module Geometry {

  datatype Vec3 = Vec3(x: real, y: real, z: real)

  function Min(a: real, b: real): real { if a < b then a else b }
  function Max(a: real, b: real): real { if a < b then b else a }

  function MinVec(u: Vec3, v: Vec3): Vec3 { Vec3(Min(u.x, v.x), Min(u.y, v.y), Min(u.z, v.z)) }
  function MaxVec(u: Vec3, v: Vec3): Vec3 { Vec3(Max(u.x, v.x), Max(u.y, v.y), Max(u.z, v.z)) }

  predicate LeVec(u: Vec3, v: Vec3) { u.x <= v.x && u.y <= v.y && u.z <= v.z }

  /**
   * getDimValue: the coordinate of `v` on axis `dim`; any axis other than
   * 0 and 1 reads the z coordinate.
   */
  function DimValue(dim: int, v: Vec3): real
  {
    if dim == 0 then v.x else if dim == 1 then v.y else v.z
  }

  /** Axes 0, 1 and 2 select the coordinates in x, y, z order; every other axis reads z. */
  lemma DimValueSelectsAxis(dim: int, v: Vec3)
    ensures 0 <= dim <= 2 ==> DimValue(dim, v) == [v.x, v.y, v.z][dim]
    ensures dim < 0 || 2 < dim ==> DimValue(dim, v) == v.z
  {
  }

  /** Componentwise order is order on each axis getDimValue reads. */
  lemma LeVecOnAxes(u: Vec3, v: Vec3)
    ensures LeVec(u, v) <==> forall dim :: 0 <= dim <= 2 ==> DimValue(dim, u) <= DimValue(dim, v)
  {
    if forall dim :: 0 <= dim <= 2 ==> DimValue(dim, u) <= DimValue(dim, v) {
      assert DimValue(0, u) <= DimValue(0, v) && DimValue(1, u) <= DimValue(1, v) && DimValue(2, u) <= DimValue(2, v);
    }
  }

  /**
   * A box.  `Empty` is the default-constructed Bounds3, whose corners are
   * +infinity and -infinity so that it is the identity of Union.
   */
  datatype Bounds3 = Empty | Box(pMin: Vec3, pMax: Vec3)

  /** `outer` contains every point of `inner`. */
  predicate Contains(outer: Bounds3, inner: Bounds3)
  {
    inner.Empty? || (outer.Box? && LeVec(outer.pMin, inner.pMin) && LeVec(inner.pMax, outer.pMax))
  }

  /** Union(b1, b2): the smallest box that contains both. */
  function Union(a: Bounds3, b: Bounds3): (r: Bounds3)
    ensures Contains(r, a) && Contains(r, b)
    ensures forall c :: Contains(c, a) && Contains(c, b) ==> Contains(c, r)
    ensures r.Empty? <==> a.Empty? && b.Empty?
  {
    match (a, b)
    case (Empty, _) => b
    case (_, Empty) => a
    case (Box(aMin, aMax), Box(bMin, bMax)) => Box(MinVec(aMin, bMin), MaxVec(aMax, bMax))
  }

  /** Union(b, p): the box grown to take in the point `p`. */
  function UnionPoint(b: Bounds3, p: Vec3): (r: Bounds3)
    ensures r.Box? && Contains(r, b) && LeVec(r.pMin, p) && LeVec(p, r.pMax)
  {
    Union(b, Box(p, p))
  }

  function Centroid(b: Bounds3): (c: Vec3)
    requires b.Box?
    ensures LeVec(b.pMin, b.pMax) ==> LeVec(b.pMin, c) && LeVec(c, b.pMax)
  {
    Vec3(0.5 * b.pMin.x + 0.5 * b.pMax.x, 0.5 * b.pMin.y + 0.5 * b.pMax.y, 0.5 * b.pMin.z + 0.5 * b.pMax.z)
  }

  function Diagonal(b: Bounds3): Vec3
    requires b.Box?
  {
    Vec3(b.pMax.x - b.pMin.x, b.pMax.y - b.pMin.y, b.pMax.z - b.pMin.z)
  }

  /**
   * maxExtent: the axis along which the box is widest, x before y before z
   * only where the strict comparisons say so.  On the empty box every
   * diagonal component is -infinity, no comparison holds, and the answer is 2.
   */
  function MaxExtent(b: Bounds3): (dim: int)
    ensures 0 <= dim <= 2
    ensures b.Box? ==> forall k :: 0 <= k <= 2 ==> DimValue(k, Diagonal(b)) <= DimValue(dim, Diagonal(b))
  {
    if b.Empty? then 2
    else
      var d := Diagonal(b);
      if d.x > d.y && d.x > d.z then 0
      else if d.y > d.z then 1
      else 2
  }

  // Algebra of Union (the build's bounds do not depend on the order in which boxes are merged)

  lemma UnionCommutative(a: Bounds3, b: Bounds3)
    ensures Union(a, b) == Union(b, a)
  {
  }

  lemma UnionIdempotent(a: Bounds3)
    ensures Union(a, a) == a
  {
  }

  lemma UnionAssociative(a: Bounds3, b: Bounds3, c: Bounds3)
    ensures Union(Union(a, b), c) == Union(a, Union(b, c))
  {
  }

  lemma ContainsTransitive(a: Bounds3, b: Bounds3, c: Bounds3)
    requires Contains(a, b) && Contains(b, c)
    ensures Contains(a, c)
  {
  }

  /** The projection of a union's corners on an axis is the min / max of the projections. */
  lemma DimValueOfUnion(dim: int, a: Bounds3, b: Bounds3)
    requires a.Box? && b.Box?
    ensures DimValue(dim, Union(a, b).pMin) == Min(DimValue(dim, a.pMin), DimValue(dim, b.pMin))
    ensures DimValue(dim, Union(a, b).pMax) == Max(DimValue(dim, a.pMax), DimValue(dim, b.pMax))
  {
  }
}
