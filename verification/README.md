# BVH construction, traversal and scene queries

A Dafny model of the bounding volume hierarchy (BVH) and the scene queries of a
small path tracer. It covers two C++ files:

- `Homework6/BVH.cpp`:
  - the accelerator's constructor;
  - the top-down build `recursiveBuild`. From three objects on, it sorts them by centroid along the widest axis, lays six buckets over that axis, and prices the five interior boundaries with a surface-area-style cost. It then cuts the sorted list just after the first cheapest pivot.
  - the ray traversal `Intersect` / `getIntersection`.
- `Homework7/Scene.cpp`:
  - building the scene's accelerator;
  - intersecting through it;
  - choosing a light in proportion to emitting area (`sampleLight`);
  - the brute-force nearest-hit search `trace`.

Files:

| file | module | contents |
|---|---|---|
| `wrappers.dfy` | `Wrappers` | `Option` |
| `geometry.dfy` | `Geometry` | points and boxes over the reals: `Union`, `Centroid`, `MaxExtent`, `getDimValue` |
| `primitive.dfy` | `Primitive` | what the BVH sees of a scene object, and `Intersection` |
| `bvh_build.dfy` | `BVHBuild` | the build: sort, bucket cost, pivot, cut, `RecursiveBuild`, the relational specification `IsBuild` and its properties |
| `bvh.dfy` | `BVH` | the `BVHAccel` class, the traversal, and the proof that it returns the nearest hit |
| `scene.dfy` | `SceneModel` | the `Scene` class, light sampling, `trace`, and the agreement between the BVH and `trace` |

Modelling choices:

- **Numbers.** Floating-point values are reals.
- **Empty box.** The default `Bounds3`, whose corners are +infinity and -infinity, is the constructor `Empty`. It is the identity of `Union`.
- **Infinite starting cost.** `minC = +infinity` is modelled as "the first boundary's cost is always taken".
- **Unstable sort.** `std::sort` is not stable, so the tree is not a function of the input. `IsBuild(t, objs)` holds for every tree the build can return for any sorted order of `objs`.
- **Rays.** A ray query is modelled by three functions for that fixed ray:
  - `isect(o)` stands for `Object::getIntersection`;
  - `boxTest(b)` stands for `Bounds3::IntersectP`;
  - `probe(o)` stands for `Object::intersect`, as `trace` uses it.
- **Randomness and object sampling.** The random number is the parameter `u`, and `Object::Sample` is the function `sample`.
- **Headers not modelled.** `BVH.hpp`, `Bounds3.hpp`, `Object.hpp`, `Intersection.hpp` and `Scene.hpp` are not part of this model. It assumes that:
  - the root pointer starts out null;
  - `maxExtent` is the usual strict comparison `d.x > d.y && d.x > d.z ? 0 : (d.y > d.z ? 1 : 2)`.

## Model

| member | source | states |
|---|---|---|
| Geometry.DimValueSelectsAxis | Homework6/BVH.cpp:27-31 | getDimValue: axes 0, 1 and 2 read the x, y and z coordinates, and any other axis reads z |
| Geometry.LeVecOnAxes | Homework6/BVH.cpp:27-31 | one point lies below another in every coordinate exactly when it does on each of the three axes getDimValue reads |
| Geometry.DimValueOfUnion | Homework6/BVH.cpp:56-59 | projecting a union's corners on an axis gives the min and max of the projected corners |
| Geometry.Union | Homework6/BVH.cpp:37-39 | the union contains both boxes and is contained in every box that contains both; it is empty only when both are empty |
| Geometry.UnionPoint | Homework6/BVH.cpp:56-59 | growing a box by a centroid gives a box that contains the old box and the point |
| Geometry.MaxExtent | Homework6/BVH.cpp:60 | the split axis is 0, 1 or 2, and the centroid box is at least as wide along it as along any other axis |
| BVHBuild.BoundsOf | Homework6/BVH.cpp:37-39 | the accumulated box contains every object's box, and is empty only for no objects |
| BVHBuild.BoundsOfPermutation | Homework6/BVH.cpp:37-39 | the accumulated box does not depend on the order of the objects (the sort reorders them) |
| BVHBuild.CentroidBoundsOf | Homework6/BVH.cpp:56-59 | the centroid box is empty exactly for no objects, and every object's centroid lies inside it |
| BVHBuild.CentroidBoundsAttained | Homework6/BVH.cpp:56-59 | on every axis each centroid lies between the centroid box's corners, and some centroid attains the upper corner |
| BVHBuild.SortByCentroid | Homework6/BVH.cpp:61-80 | afterwards the array is sorted by centroid on the axis and is a permutation of its old contents |
| BVHBuild.AxisFrame | Homework6/BVH.cpp:81-102 | pdim_min and pdim_max are the centroid box's corners on the split axis; a and b are its extents on the other two axes in x, y, z order |
| BVHBuild.PrefixBelow | Homework6/BVH.cpp:108-117 | the scan's j: every earlier key lies below the boundary, and the key at j (if any) does not |
| BVHBuild.SortedPrefixIsBelow | Homework6/BVH.cpp:107-117 | on a sorted list, an index is before the scan's stop exactly when its centroid lies below the boundary |
| BVHBuild.ScanBelow | Homework6/BVH.cpp:108-117 | the inner loop returns the length of the longest prefix below the boundary |
| BVHBuild.CostNonNegative | Homework6/BVH.cpp:118 | the tmpC estimate `Cost` is never negative for non-negative extents and bucket size, j ≤ n and i ≤ 6 |
| BVHBuild.CostWithoutExtent | Homework6/BVH.cpp:118 | tmpC is 0 when the centroids have no extent across the split axis (a = b = 0) |
| BVHBuild.FirstMinIndex | Homework6/BVH.cpp:118-122 | the boundary kept has the least cost, and every earlier boundary costs strictly more (later equal costs do not replace it) |
| BVHBuild.PivotIsCheapestCut | Homework6/BVH.cpp:103-124 | the functional pivot `Pivot`: pviot is the scan length at an interior boundary i in 1..5 whose cost is the least of the five and strictly below the cost of every earlier boundary |
| BVHBuild.PivotOf | Homework6/BVH.cpp:103-124 | the pivot chosen for a sorted order of the objects along a given axis is an index of that order |
| BVHBuild.ChoosePivot | Homework6/BVH.cpp:103-124 | the bucket loop's pviot is the scan length at the first boundary of least cost |
| BVHBuild.PivotInRange | Homework6/BVH.cpp:103-124 | pviot is an index of the list: the object at the top of the centroid range stops every scan |
| BVHBuild.PivotWithoutExtent | Homework6/BVH.cpp:103-124 | when the centroids have no extent across the split axis, every cost is 0 and pviot is the scan at the first boundary |
| BVHBuild.Split | Homework6/BVH.cpp:126-133 | the two halves put back together give the sorted list; the first half has pviot + 1 objects; the sizes add up; the second half is empty exactly when pviot is the last index |
| BVHBuild.NoProgressExample | Homework6/BVH.cpp:103-136 | for centroids 0, 1 and 10 on x, the sorted list is itself, pviot = 2 = n - 1, and the cut gives the whole list and an empty list |
| BVHBuild.NoProgressSortIsUnique | Homework6/BVH.cpp:61-80 | that list has only one sorted order, so the recursive call on the first half is the same call again |
| BVHBuild.CorrectedSplit | Homework6/BVH.cpp:126-133 | both halves are non-empty and shorter than the list, they give the list back, and the cut is the source's whenever pviot is not the last index |
| BVHBuild.Partition | Homework6/BVH.cpp:55-133 | the two halves are the corrected cut (`CorrectedSplit`), at the chosen pivot, of a sorted permutation of the objects along their widest centroid axis: together they hold exactly the objects, each is non-empty and smaller than the list, and no centroid on the left lies above one on the right |
| BVHBuild.RecursiveBuild | Homework6/BVH.cpp:32-142 | the result is a build of the objects: one leaf for one object; the exact two-leaf node for two; otherwise a node over builds of the two halves. Each object is in exactly one leaf, and the root box is the union of all object boxes |
| BVHBuild.BuildShape | Homework6/BVH.cpp:40-54 | every build is well formed (a leaf's box is its object's box, a node's box the union of its children's), holds exactly the input objects, and has the union of their boxes at the root |
| BVHBuild.BuildSplitOrder | Homework6/BVH.cpp:130-136 | in a build of three or more objects, every object on the left has a centroid no greater than every object on the right, on the split axis |
| BVHBuild.LeafBoxesContained | Homework6/BVH.cpp:52 | every node's box contains the box of each object below it |
| BVH.BVHAccel.constructor | Homework6/BVH.cpp:5-15 | maxPrimsInNode is min(255, given); the primitives are kept; there is no root exactly when the list is empty; otherwise the root is a build of the list |
| BVH.Merge | Homework6/BVH.cpp:171-176 | the answer is one of the two; it hits exactly when either does; of two hits it is no farther than either, and the right one on a tie; a right miss gives the left answer |
| BVH.GetIntersection | Homework6/BVH.cpp:153-177 | a leaf answers with its object's own intersection; any answer is a miss or some leaf object's intersection; a node whose children's boxes are both rejected misses |
| BVH.ConservativeFromGeometry | Homework6/BVH.cpp:167-170 | when a hit implies the ray meets the object's box, and meeting a box implies meeting every box around it, no child holding a hit object is skipped |
| BVH.MergeNearest | Homework6/BVH.cpp:171-176 | merging the nearest answers of the right and left halves gives the nearest answer of all their objects |
| BVH.TraversalFindsNearest | Homework6/BVH.cpp:153-177 | when no box test rejects a subtree holding a hit object, the traversal hits exactly when some object is hit, returns one of them, and no hit object is nearer |
| BVH.BVHAccel.Intersect | Homework6/BVH.cpp:144-151 | with no root the answer is a miss; otherwise it is a miss or a leaf object's intersection |
| BVH.BVHAccel.IntersectFindsNearest | Homework6/BVH.cpp:144-151 | for a valid accelerator and consistent box tests, Intersect returns the nearest hit among the primitives, and a miss exactly when none is hit |
| SceneModel.Scene.BuildBVH | Homework7/Scene.cpp:8-11 | the scene gets a fresh valid accelerator over its objects, with one object per leaf and the naive split method; the objects are unchanged |
| SceneModel.Scene.Intersect | Homework7/Scene.cpp:13-16 | the scene answers with the accelerator's result: a miss without a root, else a miss or some leaf object's intersection |
| SceneModel.Scene.IntersectFindsNearest | Homework7/Scene.cpp:13-16 | once the accelerator is built over the scene's objects, the scene's intersect returns the nearest hit among them |
| SceneModel.EmitAreaSum | Homework7/Scene.cpp:20-25 | the summed area of the emitting objects is not negative when no area is |
| SceneModel.EmitAreaSumMonotone | Homework7/Scene.cpp:28-31 | the running emitting area never decreases along the list |
| SceneModel.Scene.SampleLight | Homework7/Scene.cpp:18-37 | the sampled object is the first emitter whose running emitting area reaches p = u * total, and pos and pdf come from it; with no such emitter pos and pdf are unchanged |
| SceneModel.SelectionBracket | Homework7/Scene.cpp:26-36 | for p > 0, object k is picked exactly when it emits and p lies in (emitting area before k, emitting area through k]: each emitter gets a share of [0, total] equal to its area |
| SceneModel.EmitterSampled | Homework7/Scene.cpp:26-36 | when some object emits and u is in [0, 1], some object is sampled |
| SceneModel.Trace | Homework7/Scene.cpp:39-58 | trace reports a hit exactly when it records an object. The recorded object's hit is nearer than the initial tNear, no hit is nearer, and no earlier object is hit as near. With nothing recorded, tNear and index are unchanged and no hit is nearer than the initial tNear |
| SceneModel.NearestAgreesWithTrace | Homework7/Scene.cpp:39-58 | the two paths agree when the two object tests agree and the initial tNear is beyond every hit: the nearest answer hits exactly when trace does, at trace's tNear |

## Left out

- Timing and the progress messages of the constructor and `buildBVH` (`time`, `printf`) are I/O and are not modelled.
- `castRay` (the path-tracing integrator) is not part of this model: it is shading built on top of `intersect` and `sampleLight`.
- The bodies of `Bounds3::IntersectP`, `Object::getIntersection`, `Object::intersect` and `Object::Sample` lie outside this model. They are the parameters `boxTest`, `isect`, `probe` and `sample`. The nearest-hit theorems assume what a correct slab test guarantees (`GeometryConsistent`).
- Ray data (`direction_inv`, `dirIsNeg`) only feeds `IntersectP` and is not modelled.
- Floating-point rounding, NaN and infinities are not modelled: values are reals, and `minC = +infinity` is "take the first".
- `tNearK`'s initial `kInfinity` (Homework7/Scene.cpp:46) is not modelled, because `probe` gives the distance of a hit directly. `NearestAgreesWithTrace` takes a `tNear0` beyond every hit, which is what a caller passing `kInfinity` does.
- The `uint32_t` indices and the `int` maxPrimsInNode are unbounded integers. No wrap-around can occur at the sizes involved.
- Ownership and memory (`new BVHBuildNode`, the tree never freed, raw `Object*` pointers) are not modelled. Objects are values, told apart by `id`. Trees are datatypes.
- maxPrimsInNode and splitMethod are stored but never read by the build, as in the source. Every leaf holds one object.
- The shading fields of `Intersection` (coordinates, normal, material, emission) ride along in the source and are not modelled.
- The commented-out traversal after `getIntersection` and `Homework1` are not part of this model.
- SceneModel.Scene.SampleLight: the claim that an emitter is chosen with probability proportional to its area is stated as `SelectionBracket` (its share of [0, total] equals its area), not as a probability.
- BVHBuild.Partition: it returns the halves of `CorrectedSplit`, not of the source's cut at lines 126-131. When pviot = n - 1 the source gives the whole list and an empty list (modelled by `Split`), while `Partition` gives two non-empty halves. The two coincide whenever pviot ≤ n - 2 (see Findings).
- BVHBuild.RecursiveBuild: it cuts at `CorrectedSplit` rather than at the source's cut. The two coincide whenever the source's recursion terminates (see Findings).

## Findings

| source | as written | input that shows it | evidently intended | confidence | as-written member | corrected member |
|---|---|---|---|---|---|---|
| Homework6/BVH.cpp:118-136 | the cut is made after pviot, and pviot can be the last index n - 1; then leftshapes is the whole list and rightshapes is empty, and the recursive call on leftshapes repeats the same call forever | three point objects with centroids 0, 1 and 10 on x: the costs are all 0, boundary 1 (10/6) has two centroids below it, so pviot = 2 = n - 1 | both halves non-empty, e.g. the cut before the last object when pviot = n - 1 | not executed | BVHBuild.NoProgressExample | BVHBuild.CorrectedSplit |
