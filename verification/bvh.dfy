/**
 * The bounding volume hierarchy accelerator: construction from a list of
 * objects and the traversal that answers a ray query.
 *
 * A ray is fixed for each query and is represented by what the traversal
 * asks of it: `isect(o)`, the result of intersecting the ray with object
 * `o` (Object::getIntersection), and `boxTest(b)`, whether the ray meets box
 * `b` (Bounds3::IntersectP).
 */
module BVH {
  import opened Wrappers
  import opened Geometry
  import opened Primitive
  import opened BVHBuild

  datatype SplitMethod = NAIVE | SAH

  // ---------------------------------------------------------------------------
  // Traversal

  /**
   * Combining the answers of the two children: a miss on the right yields
   * the left answer, a miss on the left yields the right answer, and of two
   * hits the nearer one wins, the right one on a tie.
   */
  function Merge(risect: Intersection, lisect: Intersection): (r: Intersection)
    ensures r == risect || r == lisect
    ensures r.happened <==> risect.happened || lisect.happened
    ensures !risect.happened ==> r == lisect
    ensures risect.happened && lisect.happened ==> r.distance <= risect.distance && r.distance <= lisect.distance
    ensures risect.happened && lisect.happened && risect.distance == lisect.distance ==> r == risect
  {
    if !risect.happened then lisect
    else if !lisect.happened then risect
    else if risect.distance > lisect.distance then lisect
    else risect
  }

  /**
   * getIntersection: a leaf answers with its object's own intersection; an
   * internal node descends into each child whose box the ray meets (the
   * right child first) and merges the two answers.  The node's own box is
   * not tested.
   */
  function GetIntersection(node: Tree, isect: Object -> Intersection, boxTest: Bounds3 -> bool): (r: Intersection)
    ensures node.Leaf? ==> r == isect(node.obj)
    ensures r == NoHit || exists o :: o in Leaves(node) && r == isect(o)
    ensures node.Node? && !boxTest(node.left.box) && !boxTest(node.right.box) ==> r == NoHit
  {
    match node
    case Leaf(o, _) => isect(o)
    case Node(left, right, _) =>
      var risect := if boxTest(right.box) then GetIntersection(right, isect, boxTest) else NoHit;
      var lisect := if boxTest(left.box) then GetIntersection(left, isect, boxTest) else NoHit;
      Merge(risect, lisect)
  }

  /**
   * The reference answer for a set of objects: a hit exactly when some
   * object is hit, and then the result of one of the objects that are hit,
   * at a distance no greater than that of any of them.
   */
  ghost predicate IsNearest(r: Intersection, objs: seq<Object>, isect: Object -> Intersection)
  {
    && (r.happened <==> exists o :: o in objs && isect(o).happened)
    && (r.happened ==> exists o :: o in objs && r == isect(o))
    && (r.happened ==> forall o :: o in objs && isect(o).happened ==> r.distance <= isect(o).distance)
  }

  /**
   * The box tests never reject a subtree holding an object the ray hits:
   * what a slab test against boxes that contain their objects guarantees.
   */
  ghost predicate Conservative(t: Tree, isect: Object -> Intersection, boxTest: Bounds3 -> bool)
  {
    match t
    case Leaf(_, _) => true
    case Node(l, r, _) =>
      && (forall o :: o in Leaves(l) && isect(o).happened ==> boxTest(l.box))
      && (forall o :: o in Leaves(r) && isect(o).happened ==> boxTest(r.box))
      && Conservative(l, isect, boxTest)
      && Conservative(r, isect, boxTest)
  }

  /**
   * The geometric facts behind Conservative: a ray that hits an object meets
   * the object's box, and a ray that meets a box meets every box containing it.
   */
  ghost predicate GeometryConsistent(isect: Object -> Intersection, boxTest: Bounds3 -> bool)
  {
    && (forall o :: isect(o).happened ==> boxTest(o.Bounds()))
    && (forall b, c :: Contains(b, c) && boxTest(c) ==> boxTest(b))
  }

  /** In a well-formed tree, consistent geometry makes the box tests conservative. */
  lemma {:induction false} ConservativeFromGeometry(t: Tree, isect: Object -> Intersection, boxTest: Bounds3 -> bool)
    requires WellFormed(t) && GeometryConsistent(isect, boxTest)
    ensures Conservative(t, isect, boxTest)
  {
    match t
    case Leaf(_, _) =>
    case Node(l, r, _) =>
      LeafBoxesContained(l);
      LeafBoxesContained(r);
      ConservativeFromGeometry(l, isect, boxTest);
      ConservativeFromGeometry(r, isect, boxTest);
  }

  /** A child whose box is rejected holds no object the ray hits. */
  lemma SkippedChild(t: Tree, isect: Object -> Intersection, boxTest: Bounds3 -> bool)
    requires forall o :: o in Leaves(t) && isect(o).happened ==> boxTest(t.box)
    requires !boxTest(t.box)
    ensures IsNearest(NoHit, Leaves(t), isect)
  {
  }

  /** Merging the nearest answers of two halves gives the nearest answer of the whole. */
  lemma MergeNearest(risect: Intersection, lisect: Intersection, ls: seq<Object>, rs: seq<Object>,
                     isect: Object -> Intersection)
    requires IsNearest(risect, rs, isect) && IsNearest(lisect, ls, isect)
    ensures IsNearest(Merge(risect, lisect), ls + rs, isect)
  {
    var r := Merge(risect, lisect);
    if r.happened {
      forall o | o in ls + rs && isect(o).happened
        ensures r.distance <= isect(o).distance
      {
        if o in ls {
          assert lisect.happened;
        } else {
          assert risect.happened;
        }
      }
    }
  }

  /**
   * With conservative box tests the traversal finds the nearest hit among
   * the objects of the tree, and reports a miss exactly when no object is hit.
   */
  lemma {:induction false} TraversalFindsNearest(t: Tree, isect: Object -> Intersection, boxTest: Bounds3 -> bool)
    requires Conservative(t, isect, boxTest)
    ensures IsNearest(GetIntersection(t, isect, boxTest), Leaves(t), isect)
  {
    match t
    case Leaf(o, _) =>
      assert Leaves(t) == [o];
    case Node(l, r, _) =>
      if boxTest(r.box) {
        TraversalFindsNearest(r, isect, boxTest);
      } else {
        SkippedChild(r, isect, boxTest);
      }
      if boxTest(l.box) {
        TraversalFindsNearest(l, isect, boxTest);
      } else {
        SkippedChild(l, isect, boxTest);
      }
      var risect := if boxTest(r.box) then GetIntersection(r, isect, boxTest) else NoHit;
      var lisect := if boxTest(l.box) then GetIntersection(l, isect, boxTest) else NoHit;
      MergeNearest(risect, lisect, Leaves(l), Leaves(r), isect);
  }

  /** The reference answer depends only on which objects there are. */
  lemma NearestSameObjects(r: Intersection, xs: seq<Object>, ys: seq<Object>, isect: Object -> Intersection)
    requires multiset(xs) == multiset(ys) && IsNearest(r, xs, isect)
    ensures IsNearest(r, ys, isect)
  {
    forall o
      ensures o in xs <==> o in ys
    {
      assert o in xs <==> o in multiset(xs);
      assert o in ys <==> o in multiset(ys);
    }
  }

  // ---------------------------------------------------------------------------
  // The accelerator

  class BVHAccel {
    /** The leaf capacity, at most 255; the build puts one object per leaf whatever it is. */
    const maxPrimsInNode: int
    const splitMethod: SplitMethod
    const primitives: seq<Object>
    /** The root of the tree, None when there are no primitives. */
    const root: Option<Tree>

    ghost predicate Valid()
    {
      && (root.None? <==> primitives == [])
      && (root.Some? ==> IsBuild(root.value, primitives) && WellFormed(root.value)
                         && multiset(Leaves(root.value)) == multiset(primitives))
    }

    /** Builds the tree over `p`; with no objects there is no tree. */
    constructor (p: seq<Object>, maxPrimsInNode: int, splitMethod: SplitMethod)
      ensures this.maxPrimsInNode == if maxPrimsInNode < 255 then maxPrimsInNode else 255
      ensures this.maxPrimsInNode <= 255
      ensures this.splitMethod == splitMethod && primitives == p
      ensures Valid()
      ensures p != [] ==> root.value.box == BoundsOf(p)
    {
      this.maxPrimsInNode := if maxPrimsInNode < 255 then maxPrimsInNode else 255;
      this.splitMethod := splitMethod;
      primitives := p;
      if |p| == 0 {
        root := None;
      } else {
        var t := RecursiveBuild(p);
        root := Some(t);
      }
    }

    /**
     * Intersect: a miss when there is no tree, and otherwise the traversal
     * from the root (whose own box is not tested).
     */
    function Intersect(isect: Object -> Intersection, boxTest: Bounds3 -> bool): (r: Intersection)
      ensures root.None? ==> r == NoHit
      ensures root.Some? ==> r == NoHit || exists o :: o in Leaves(root.value) && r == isect(o)
    {
      if root.None? then NoHit else GetIntersection(root.value, isect, boxTest)
    }

    /**
     * When the box tests are consistent with the geometry, Intersect finds
     * the nearest hit among the primitives, and a miss exactly when none is hit.
     */
    lemma IntersectFindsNearest(isect: Object -> Intersection, boxTest: Bounds3 -> bool)
      requires Valid() && GeometryConsistent(isect, boxTest)
      ensures IsNearest(Intersect(isect, boxTest), primitives, isect)
    {
      if root.Some? {
        ConservativeFromGeometry(root.value, isect, boxTest);
        TraversalFindsNearest(root.value, isect, boxTest);
        NearestSameObjects(Intersect(isect, boxTest), Leaves(root.value), primitives, isect);
      }
    }
  }
}
