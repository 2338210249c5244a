/**
 * The scene: its objects and accelerator, light sampling by emitting area,
 * and the brute-force nearest-hit search over a list of objects.
 *
 * get_random_float() becomes the parameter `u`; Object::Sample becomes the
 * function `sample`, giving the sampled point and its pdf; Object::intersect
 * for the fixed ray of a query becomes `probe`, which gives the ray
 * parameter and the index of the hit, or None for a miss.
 */
module SceneModel {
  import opened Wrappers
  import opened Geometry
  import opened Primitive
  import opened BVHBuild
  import opened BVH

  // ---------------------------------------------------------------------------
  // Light sampling

  /** The summed area of the emitting objects of `objs`. */
  function EmitAreaSum(objs: seq<Object>): (sum: real)
    ensures NonNegativeAreas(objs) ==> sum >= 0.0
  {
    if |objs| == 0 then 0.0
    else
      var last := objs[|objs| - 1];
      EmitAreaSum(objs[..|objs| - 1]) + (if last.emissive then last.area else 0.0)
  }

  predicate NonNegativeAreas(objs: seq<Object>)
  {
    forall k :: 0 <= k < |objs| ==> objs[k].area >= 0.0
  }

  /** Object `k` emits and the emitting area up to and including it reaches `p`. */
  predicate Covers(objs: seq<Object>, p: real, k: int)
  {
    0 <= k < |objs| && objs[k].emissive && p <= EmitAreaSum(objs[..k + 1])
  }

  /** Object `k` is the first to cover `p`: the one the sampler picks. */
  predicate IsFirstCovering(objs: seq<Object>, p: real, k: int)
  {
    Covers(objs, p, k) && forall j :: 0 <= j < k ==> !Covers(objs, p, j)
  }

  /** The point p = u * (total emitting area) that selects the light. */
  function SamplePoint(objs: seq<Object>, u: real): real
  {
    u * EmitAreaSum(objs)
  }

  lemma EmitAreaSumStep(objs: seq<Object>, k: nat)
    requires k < |objs|
    ensures EmitAreaSum(objs[..k + 1]) == EmitAreaSum(objs[..k]) + (if objs[k].emissive then objs[k].area else 0.0)
  {
    assert objs[..k + 1][..k] == objs[..k];
  }

  /** With no negative areas the emitting area only grows along the list. */
  lemma {:induction false} EmitAreaSumMonotone(objs: seq<Object>, i: nat, j: nat)
    requires NonNegativeAreas(objs) && i <= j <= |objs|
    ensures EmitAreaSum(objs[..i]) <= EmitAreaSum(objs[..j])
    decreases j - i
  {
    if i < j {
      EmitAreaSumStep(objs, i);
      EmitAreaSumMonotone(objs, i + 1, j);
    }
  }

  /** When the emitting area of the first `m` objects reaches p > 0, one of them covers p. */
  lemma {:induction false} CoveredBefore(objs: seq<Object>, p: real, m: nat)
    requires m <= |objs|
    ensures p > 0.0 && EmitAreaSum(objs[..m]) >= p ==> exists j :: 0 <= j < m && Covers(objs, p, j)
  {
    if m > 0 && p > 0.0 && EmitAreaSum(objs[..m]) >= p {
      EmitAreaSumStep(objs, m - 1);
      if objs[m - 1].emissive {
        assert Covers(objs, p, m - 1);
      } else {
        CoveredBefore(objs, p, m - 1);
        var j :| 0 <= j < m - 1 && Covers(objs, p, j);
      }
    }
  }

  /**
   * For a positive p the sampler picks object k exactly when k emits and p
   * falls in k's share of the emitting area, (EmitAreaSum before k,
   * EmitAreaSum through k]: an emitter is picked with probability
   * proportional to its area when u is uniform on [0, 1).
   */
  lemma SelectionBracket(objs: seq<Object>, p: real, k: nat)
    requires p > 0.0 && NonNegativeAreas(objs) && k < |objs|
    ensures IsFirstCovering(objs, p, k) <==>
      objs[k].emissive && EmitAreaSum(objs[..k]) < p <= EmitAreaSum(objs[..k + 1])
  {
    EmitAreaSumStep(objs, k);
    CoveredBefore(objs, p, k);
    if objs[k].emissive && EmitAreaSum(objs[..k]) < p <= EmitAreaSum(objs[..k + 1]) {
      forall j | 0 <= j < k
        ensures !Covers(objs, p, j)
      {
        EmitAreaSumMonotone(objs, j + 1, k);
      }
    }
  }

  lemma ScaledBelow(u: real, total: real)
    requires 0.0 <= u <= 1.0 && total >= 0.0
    ensures u * total <= total
  {
    assert total - u * total == (1.0 - u) * total;
  }

  /**
   * When some object emits, areas are not negative and u lies in [0, 1],
   * the sampler picks an object.
   */
  lemma EmitterSampled(objs: seq<Object>, u: real)
    requires 0.0 <= u <= 1.0 && NonNegativeAreas(objs)
    requires exists k :: 0 <= k < |objs| && objs[k].emissive
    ensures exists k :: Covers(objs, SamplePoint(objs, u), k)
  {
    var p := SamplePoint(objs, u);
    var e :| 0 <= e < |objs| && objs[e].emissive;
    assert NonNegativeAreas(objs[..e + 1]);
    if p > 0.0 {
      ScaledBelow(u, EmitAreaSum(objs));
      assert objs[..|objs|] == objs;
      CoveredBefore(objs, p, |objs|);
    } else {
      assert Covers(objs, p, e);
    }
  }

  // ---------------------------------------------------------------------------
  // Brute-force nearest hit

  /** What Object::intersect reports on a hit: the ray parameter and the index. */
  datatype PrimHit = PrimHit(t: real, index: nat)

  /**
   * After the first `n` objects, object `k` holds the hit: its probe gave
   * (tNear, index) closer than tNear0, every earlier hit is strictly
   * farther, and every later hit among the first `n` is no closer.
   */
  ghost predicate HitAt(objs: seq<Object>, n: nat, tNear0: real, probe: Object -> Option<PrimHit>,
                        k: int, o: Object, tNear: real, index: nat)
    requires n <= |objs|
  {
    && 0 <= k < n && objs[k] == o
    && probe(o) == Some(PrimHit(tNear, index)) && tNear < tNear0
    && (forall j :: 0 <= j < k && probe(objs[j]).Some? ==> probe(objs[j]).value.t > tNear)
    && (forall j :: k < j < n && probe(objs[j]).Some? ==> probe(objs[j]).value.t >= tNear)
  }

  /**
   * The outcome of trace over the first `n` objects: with no object
   * recorded nothing was closer than tNear0 and tNear and index are
   * untouched; otherwise the recorded object holds the hit (HitAt).
   */
  ghost predicate TraceResult(objs: seq<Object>, n: nat, tNear0: real, index0: nat, probe: Object -> Option<PrimHit>,
                              hitObject: Option<Object>, tNear: real, index: nat)
    requires n <= |objs|
  {
    match hitObject
    case None =>
      && tNear == tNear0 && index == index0
      && forall j :: 0 <= j < n && probe(objs[j]).Some? ==> probe(objs[j]).value.t >= tNear0
    case Some(o) => exists k :: HitAt(objs, n, tNear0, probe, k, o, tNear, index)
  }

  /**
   * trace: walks the objects in order and records an object whenever it is
   * hit strictly closer than the closest hit so far (initially tNear0), so
   * that the first of the nearest hits wins; reports whether any was recorded.
   */
  method Trace(objects: seq<Object>, tNear0: real, index0: nat, probe: Object -> Option<PrimHit>)
    returns (hit: bool, tNear: real, index: nat, hitObject: Option<Object>)
    ensures hit <==> hitObject.Some?
    ensures TraceResult(objects, |objects|, tNear0, index0, probe, hitObject, tNear, index)
  {
    hitObject := None;
    tNear, index := tNear0, index0;
    ghost var hitK := 0;
    for k := 0 to |objects|
      invariant hitObject.None? ==> TraceResult(objects, k, tNear0, index0, probe, hitObject, tNear, index)
      invariant hitObject.Some? ==> HitAt(objects, k, tNear0, probe, hitK, hitObject.value, tNear, index)
    {
      var r := probe(objects[k]);
      if r.Some? && r.value.t < tNear {
        hitObject := Some(objects[k]);
        tNear, index := r.value.t, r.value.index;
        hitK := k;
      }
    }
    hit := hitObject.Some?;
  }

  /**
   * The accelerator and trace agree: when the object intersection the BVH
   * uses and the probe trace uses report the same hits at the same
   * distances, and tNear0 lies beyond every hit (kInfinity), the nearest
   * answer over the same objects hits exactly when trace does, at the
   * distance trace reports.
   */
  lemma NearestAgreesWithTrace(objs: seq<Object>, tNear0: real, index0: nat, probe: Object -> Option<PrimHit>,
                               isect: Object -> Intersection, r: Intersection,
                               hitObject: Option<Object>, tNear: real, index: nat)
    requires forall o :: (isect(o).happened <==> probe(o).Some?)
    requires forall o :: isect(o).happened ==> isect(o).distance == probe(o).value.t
    requires forall o :: o in objs && probe(o).Some? ==> probe(o).value.t < tNear0
    requires IsNearest(r, objs, isect)
    requires TraceResult(objs, |objs|, tNear0, index0, probe, hitObject, tNear, index)
    ensures r.happened <==> hitObject.Some?
    ensures r.happened ==> r.distance == tNear
  {
    if hitObject.Some? {
      var k :| HitAt(objs, |objs|, tNear0, probe, k, hitObject.value, tNear, index);
      assert isect(objs[k]).happened;
      assert r.happened;
      var o :| o in objs && r == isect(o);
      var m :| 0 <= m < |objs| && objs[m] == o;
      assert r.distance <= isect(objs[k]).distance;
      assert probe(objs[m]).value.t >= tNear;
    } else {
      forall o | o in objs
        ensures !isect(o).happened
      {
        var m :| 0 <= m < |objs| && objs[m] == o;
      }
    }
  }

  // ---------------------------------------------------------------------------
  // The scene

  class Scene {
    var objects: seq<Object>
    var bvh: BVHAccel?

    constructor (objects: seq<Object>)
      ensures this.objects == objects && bvh == null
    {
      this.objects := objects;
      bvh := null;
    }

    /** buildBVH: a fresh accelerator over the objects, one object per leaf, naive split. */
    method BuildBVH()
      modifies this
      ensures objects == old(objects)
      ensures bvh != null && fresh(bvh)
      ensures bvh.primitives == objects && bvh.maxPrimsInNode == 1 && bvh.splitMethod == NAIVE
      ensures bvh.Valid()
    {
      bvh := new BVHAccel(objects, 1, NAIVE);
    }

    /** intersect: the accelerator's answer. */
    function Intersect(isect: Object -> Intersection, boxTest: Bounds3 -> bool): (r: Intersection)
      reads this
      requires bvh != null
      ensures bvh.root.None? ==> r == NoHit
      ensures r == NoHit || exists o :: o in Leaves(bvh.root.value) && r == isect(o)
    {
      bvh.Intersect(isect, boxTest)
    }

    /**
     * Once the accelerator is built over the scene's objects, intersect
     * finds the nearest hit among them when the box tests are consistent
     * with the geometry.
     */
    lemma IntersectFindsNearest(isect: Object -> Intersection, boxTest: Bounds3 -> bool)
      requires bvh != null && bvh.Valid() && bvh.primitives == objects
      requires GeometryConsistent(isect, boxTest)
      ensures IsNearest(Intersect(isect, boxTest), objects, isect)
    {
      bvh.IntersectFindsNearest(isect, boxTest);
    }

    /**
     * sampleLight: p = u * (total emitting area); the first emitting object
     * whose running emitting area reaches p is sampled, and pos and pdf keep
     * their values when there is none.  `chosen` is the index sampled.
     */
    method SampleLight(u: real, pos0: Intersection, pdf0: real, sample: Object -> (Intersection, real))
      returns (pos: Intersection, pdf: real, chosen: Option<nat>)
      ensures var p := SamplePoint(objects, u);
        && (chosen.Some? ==> IsFirstCovering(objects, p, chosen.value)
                             && (pos, pdf) == sample(objects[chosen.value]))
        && (chosen.None? ==> (forall k :: 0 <= k < |objects| ==> !Covers(objects, p, k))
                             && pos == pos0 && pdf == pdf0)
    {
      var emitAreaSum := 0.0;
      for k := 0 to |objects|
        invariant emitAreaSum == EmitAreaSum(objects[..k])
      {
        EmitAreaSumStep(objects, k);
        if objects[k].emissive {
          emitAreaSum := emitAreaSum + objects[k].area;
        }
      }
      assert objects[..|objects|] == objects;
      var p := u * emitAreaSum;
      assert p == SamplePoint(objects, u);
      emitAreaSum := 0.0;
      pos, pdf, chosen := pos0, pdf0, None;
      var k := 0;
      while k < |objects|
        invariant 0 <= k <= |objects|
        invariant emitAreaSum == EmitAreaSum(objects[..k])
        invariant forall j :: 0 <= j < k ==> !Covers(objects, p, j)
      {
        EmitAreaSumStep(objects, k);
        if objects[k].emissive {
          emitAreaSum := emitAreaSum + objects[k].area;
          if p <= emitAreaSum {
            var sampled := sample(objects[k]);
            pos, pdf := sampled.0, sampled.1;
            chosen := Some(k);
            break;
          }
        }
        k := k + 1;
      }
    }
  }
}
