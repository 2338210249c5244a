/**
 * Top-down construction of the bounding volume hierarchy (BVHAccel::recursiveBuild).
 *
 * One object becomes a leaf, two objects an internal node over two leaves.
 * From three objects on, the objects are sorted by centroid along the widest
 * axis of their centroid box, six equal-width buckets are laid over that
 * axis, and each of the five interior bucket boundaries proposes a split
 * point whose cost is estimated; the first cheapest one wins and the sorted
 * list is cut just after the chosen pivot object.
 *
 * As written, the pivot can be the last object, and then the first half is
 * the whole list again and the recursion never ends (NoProgressExample).  The
 * build below cuts at CorrectedSplit, which is the source's cut whenever the
 * source terminates and keeps both halves non-empty otherwise.
 */
module BVHBuild {
  import opened Geometry
  import opened Primitive

  /** A BVHBuildNode: a leaf holds one object, an internal node two children. */
  datatype Tree = Leaf(obj: Object, box: Bounds3) | Node(left: Tree, right: Tree, box: Bounds3)

  /** The objects held by the leaves, left to right. */
  function Leaves(t: Tree): seq<Object>
  {
    match t
    case Leaf(o, _) => [o]
    case Node(l, r, _) => Leaves(l) + Leaves(r)
  }

  /** A leaf's box is its object's box; an internal node's box is the union of its children's. */
  ghost predicate WellFormed(t: Tree)
  {
    match t
    case Leaf(o, b) => b == o.Bounds()
    case Node(l, r, b) => b == Union(l.box, r.box) && WellFormed(l) && WellFormed(r)
  }

  // ---------------------------------------------------------------------------
  // Boxes accumulated over a list of objects

  /** The union of the boxes of `objs`, merged left to right starting from the empty box. */
  function BoundsOf(objs: seq<Object>): (b: Bounds3)
    ensures forall k :: 0 <= k < |objs| ==> Contains(b, objs[k].Bounds())
    ensures b.Empty? <==> |objs| == 0
  {
    if |objs| == 0 then Empty else Union(BoundsOf(objs[..|objs| - 1]), objs[|objs| - 1].Bounds())
  }

  /** The box spanned by the centroids of the boxes of `objs`. */
  function CentroidBoundsOf(objs: seq<Object>): (cb: Bounds3)
    ensures cb.Empty? <==> |objs| == 0
    ensures forall k :: 0 <= k < |objs| ==>
      LeVec(cb.pMin, Centroid(objs[k].Bounds())) && LeVec(Centroid(objs[k].Bounds()), cb.pMax)
  {
    if |objs| == 0 then Empty
    else UnionPoint(CentroidBoundsOf(objs[..|objs| - 1]), Centroid(objs[|objs| - 1].Bounds()))
  }

  lemma {:induction false} BoundsOfAppend(a: seq<Object>, b: seq<Object>)
    ensures BoundsOf(a + b) == Union(BoundsOf(a), BoundsOf(b))
    decreases |b|
  {
    if |b| == 0 {
      assert a + b == a;
    } else {
      var b' := b[..|b| - 1];
      assert (a + b)[..|a + b| - 1] == a + b';
      BoundsOfAppend(a, b');
      UnionAssociative(BoundsOf(a), BoundsOf(b'), b[|b| - 1].Bounds());
    }
  }

  /** The union of the boxes does not depend on the order of the objects. */
  lemma {:induction false} BoundsOfPermutation(s: seq<Object>, t: seq<Object>)
    requires multiset(s) == multiset(t)
    ensures BoundsOf(s) == BoundsOf(t)
    decreases |s|
  {
    if |s| == 0 {
      assert |t| == |multiset(t)| == 0;
    } else {
      var x := s[|s| - 1];
      var s' := s[..|s| - 1];
      assert s == s' + [x];
      assert multiset(s') == multiset(s) - multiset{x};
      assert x in multiset(t);
      var i :| 0 <= i < |t| && t[i] == x;
      var pre, post := t[..i], t[i + 1..];
      RemoveAt(t, i);
      BoundsOfPermutation(s', pre + post);
      BoundsOfMoveLast(pre, x, post);
    }
  }

  /** Removing the object at index `i` removes one copy of it from the multiset. */
  lemma RemoveAt(t: seq<Object>, i: nat)
    requires i < |t|
    ensures t == t[..i] + [t[i]] + t[i + 1..]
    ensures multiset(t[..i] + t[i + 1..]) == multiset(t) - multiset{t[i]}
  {
    assert t == t[..i] + [t[i]] + t[i + 1..];
    assert multiset(t) == multiset(t[..i]) + multiset{t[i]} + multiset(t[i + 1..]);
  }

  /** Moving one object to the end of the list does not change the union of the boxes. */
  lemma BoundsOfMoveLast(pre: seq<Object>, x: Object, post: seq<Object>)
    ensures BoundsOf(pre + [x] + post) == BoundsOf(pre + post + [x])
  {
    BoundsOfAppend(pre + [x], post);
    BoundsOfAppend(pre, [x]);
    BoundsOfAppend(pre, post);
    assert BoundsOf([x]) == x.Bounds();
    var A, X, B := BoundsOf(pre), x.Bounds(), BoundsOf(post);
    UnionAssociative(A, X, B);
    UnionCommutative(X, B);
    UnionAssociative(A, B, X);
    assert (pre + post + [x])[..|pre + post|] == pre + post;
  }

  /**
   * The centroid box spans exactly the centroids on every axis: each
   * centroid lies between its corners, and its upper corner is attained.
   */
  lemma {:induction false} CentroidBoundsAttained(objs: seq<Object>, dim: int)
    requires |objs| >= 1
    ensures var cb := CentroidBoundsOf(objs);
      && (forall k :: 0 <= k < |objs| ==> DimValue(dim, cb.pMin) <= Key(objs[k], dim) <= DimValue(dim, cb.pMax))
      && (exists k :: 0 <= k < |objs| && Key(objs[k], dim) == DimValue(dim, cb.pMax))
    decreases |objs|
  {
    var n := |objs|;
    var c := Centroid(objs[n - 1].Bounds());
    var pre := objs[..n - 1];
    if n == 1 {
      assert CentroidBoundsOf(objs) == Box(c, c);
      assert Key(objs[0], dim) == DimValue(dim, c);
    } else {
      CentroidBoundsAttained(pre, dim);
      var cbPre := CentroidBoundsOf(pre);
      DimValueOfUnion(dim, cbPre, Box(c, c));
      var cb := CentroidBoundsOf(objs);
      assert Key(objs[n - 1], dim) == DimValue(dim, c);
      forall k | 0 <= k < n
        ensures DimValue(dim, cb.pMin) <= Key(objs[k], dim) <= DimValue(dim, cb.pMax)
      {
        if k < n - 1 {
          assert objs[k] == pre[k];
        }
      }
      if Key(objs[n - 1], dim) < DimValue(dim, cbPre.pMax) {
        var k :| 0 <= k < n - 1 && Key(pre[k], dim) == DimValue(dim, cbPre.pMax);
        assert objs[k] == pre[k];
      } else {
        assert Key(objs[n - 1], dim) == DimValue(dim, cb.pMax);
      }
    }
  }

  // ---------------------------------------------------------------------------
  // Sorting by centroid

  /** The centroid coordinates of `s` on axis `dim`, in order. */
  function Keys(s: seq<Object>, dim: int): (keys: seq<real>)
    ensures |keys| == |s|
  {
    seq(|s|, k requires 0 <= k < |s| => Key(s[k], dim))
  }

  predicate SortedOn(s: seq<Object>, dim: int)
  {
    forall p, q :: 0 <= p < q < |s| ==> Key(s[p], dim) <= Key(s[q], dim)
  }

  /** `s` is `objs` reordered so that the centroids on axis `dim` are non-decreasing. */
  predicate SortedPermutation(s: seq<Object>, objs: seq<Object>, dim: int)
  {
    |s| == |objs| && multiset(s) == multiset(objs) && SortedOn(s, dim)
  }

  /**
   * std::sort by centroid coordinate on axis `dim`, in place.  Any sorting
   * algorithm meets the source's demands; this one is insertion sort.
   */
  method SortByCentroid(a: array<Object>, dim: int)
    modifies a
    ensures SortedOn(a[..], dim)
    ensures multiset(a[..]) == old(multiset(a[..]))
  {
    var i := 0;
    while i < a.Length
      invariant 0 <= i <= a.Length
      invariant forall p, q :: 0 <= p < q < i ==> Key(a[p], dim) <= Key(a[q], dim)
      invariant multiset(a[..]) == old(multiset(a[..]))
    {
      InsertIntoSorted(a, i, dim);
      i := i + 1;
    }
  }

  /** Moves a[i] down into the sorted prefix a[..i], so that a[..i + 1] is sorted. */
  method InsertIntoSorted(a: array<Object>, i: int, dim: int)
    requires 0 <= i < a.Length
    requires forall p, q :: 0 <= p < q < i ==> Key(a[p], dim) <= Key(a[q], dim)
    modifies a
    ensures forall p, q :: 0 <= p < q <= i ==> Key(a[p], dim) <= Key(a[q], dim)
    ensures multiset(a[..]) == old(multiset(a[..]))
  {
    var j := i;
    while j > 0 && Key(a[j - 1], dim) > Key(a[j], dim)
      invariant 0 <= j <= i
      invariant forall p, q :: 0 <= p < q <= i && q != j ==> Key(a[p], dim) <= Key(a[q], dim)
      invariant multiset(a[..]) == old(multiset(a[..]))
    {
      ghost var before := a[..];
      a[j - 1], a[j] := a[j], a[j - 1];
      SwapDown(before, a[..], i, j, dim);
      j := j - 1;
    }
    SettledSorted(a[..], i, j, dim);
  }

  /** Once a[j] is no smaller than its left neighbour, the prefix up to i is sorted. */
  lemma SettledSorted(s: seq<Object>, i: nat, j: nat, dim: int)
    requires j <= i < |s|
    requires j > 0 ==> Key(s[j - 1], dim) <= Key(s[j], dim)
    requires forall p, q :: 0 <= p < q <= i && q != j ==> Key(s[p], dim) <= Key(s[q], dim)
    ensures forall p, q :: 0 <= p < q <= i ==> Key(s[p], dim) <= Key(s[q], dim)
  {
    forall p | 0 <= p < j
      ensures Key(s[p], dim) <= Key(s[j], dim)
    {
      if p < j - 1 {
        assert Key(s[p], dim) <= Key(s[j - 1], dim);
      }
    }
  }

  /** Swapping the out-of-order pair at j - 1, j moves the one unsorted position down to j - 1. */
  lemma SwapDown(s: seq<Object>, t: seq<Object>, i: nat, j: nat, dim: int)
    requires 0 < j <= i < |s| && t == s[j - 1 := s[j]][j := s[j - 1]]
    requires Key(s[j - 1], dim) > Key(s[j], dim)
    requires forall p, q :: 0 <= p < q <= i && q != j ==> Key(s[p], dim) <= Key(s[q], dim)
    ensures forall p, q :: 0 <= p < q <= i && q != j - 1 ==> Key(t[p], dim) <= Key(t[q], dim)
  {
    forall p, q | 0 <= p < q <= i && q != j - 1
      ensures Key(t[p], dim) <= Key(t[q], dim)
    {
      if q == j {
        if p < j - 1 {
          assert t[p] == s[p] && t[q] == s[j - 1];
        }
      } else if p == j {
        assert t[p] == s[j - 1] && t[q] == s[q];
        assert Key(s[j], dim) <= Key(s[q], dim);
      } else if p == j - 1 {
        assert t[p] == s[j] && t[q] == s[q];
      } else {
        assert t[p] == s[p] && t[q] == s[q];
      }
    }
  }

  // ---------------------------------------------------------------------------
  // Choosing the split point

  const BuckNum: nat := 6

  function BuckSize(pdimMin: real, pdimMax: real): real
  {
    (pdimMax - pdimMin) / (BuckNum as real)
  }

  /** The i-th interior bucket boundary, pdim_min + bucksize * i. */
  function Boundary(pdimMin: real, bucksize: real, i: nat): real
  {
    pdimMin + bucksize * (i as real)
  }

  /** The length of the longest prefix of `keys` whose entries lie below `bound`. */
  function PrefixBelow(keys: seq<real>, bound: real): (j: nat)
    ensures j <= |keys|
    ensures forall k :: 0 <= k < j ==> keys[k] < bound
    ensures j < |keys| ==> keys[j] >= bound
  {
    if |keys| == 0 || keys[0] >= bound then 0 else 1 + PrefixBelow(keys[1..], bound)
  }

  lemma PrefixBelowUnique(keys: seq<real>, bound: real, j: nat)
    requires j <= |keys|
    requires forall k :: 0 <= k < j ==> keys[k] < bound
    requires j < |keys| ==> keys[j] >= bound
    ensures j == PrefixBelow(keys, bound)
  {
  }

  /**
   * On a sorted list the prefix found by the scan is exactly the set of
   * objects whose centroid lies below the boundary.
   */
  lemma SortedPrefixIsBelow(s: seq<Object>, dim: int, bound: real)
    requires SortedOn(s, dim)
    ensures forall k :: 0 <= k < |s| ==> (k < PrefixBelow(Keys(s, dim), bound) <==> Key(s[k], dim) < bound)
  {
    var keys := Keys(s, dim);
    var j := PrefixBelow(keys, bound);
    forall k | 0 <= k < |s|
      ensures k < j <==> Key(s[k], dim) < bound
    {
      assert keys[k] == Key(s[k], dim);
      if k >= j {
        assert keys[j] == Key(s[j], dim);
      }
    }
  }

  /** The cost estimate of cutting `n` objects with `j` of them below boundary `i` (the tmpC formula). */
  function Cost(j: nat, n: nat, i: nat, a: real, b: real, bucksize: real): real
  {
    (j as real) * (a * b + a * bucksize * (i as real) + b * bucksize * (i as real))
    + ((n - j) as real) * (a * b + ((BuckNum - i) as real) * a * bucksize + ((BuckNum - i) as real) * bucksize * b)
  }

  /**
   * The estimate is never negative for non-negative extents and bucket
   * size with j <= n and i <= bucknum.
   */
  lemma CostNonNegative(j: nat, n: nat, i: nat, a: real, b: real, bucksize: real)
    requires 0.0 <= a && 0.0 <= b && 0.0 <= bucksize && j <= n && i <= BuckNum
    ensures 0.0 <= Cost(j, n, i, a, b, bucksize)
  {
    NonNegativeProducts(a, b, bucksize, i as real, (BuckNum - i) as real);
  }

  lemma NonNegativeProducts(a: real, b: real, s: real, x: real, y: real)
    ensures 0.0 <= a && 0.0 <= b && 0.0 <= s && 0.0 <= x ==> 0.0 <= a * b + a * s * x + b * s * x
    ensures 0.0 <= a && 0.0 <= b && 0.0 <= s && 0.0 <= y ==> 0.0 <= a * b + y * a * s + y * s * b
  {
  }

  /** The cost of cutting the list `keys` at interior boundary `i`. */
  function CostAt(keys: seq<real>, pdimMin: real, bucksize: real, a: real, b: real, i: nat): real
  {
    Cost(PrefixBelow(keys, Boundary(pdimMin, bucksize, i)), |keys|, i, a, b, bucksize)
  }

  /** The costs of the five interior boundaries; entry k belongs to boundary k + 1. */
  function Costs(keys: seq<real>, pdimMin: real, bucksize: real, a: real, b: real): (c: seq<real>)
    ensures |c| == BuckNum - 1
  {
    [ CostAt(keys, pdimMin, bucksize, a, b, 1), CostAt(keys, pdimMin, bucksize, a, b, 2),
      CostAt(keys, pdimMin, bucksize, a, b, 3), CostAt(keys, pdimMin, bucksize, a, b, 4),
      CostAt(keys, pdimMin, bucksize, a, b, 5) ]
  }

  /** The index of the first smallest entry: later entries replace it only when strictly smaller. */
  function FirstMinIndex(c: seq<real>): (k: nat)
    requires |c| > 0
    ensures k < |c|
    ensures forall m :: 0 <= m < |c| ==> c[k] <= c[m]
    ensures forall m :: 0 <= m < k ==> c[k] < c[m]
  {
    if |c| == 1 then 0
    else
      var k := FirstMinIndex(c[..|c| - 1]);
      if c[|c| - 1] < c[k] then |c| - 1 else k
  }

  /**
   * pviot: the prefix length at the first boundary of least cost, for the
   * centroid coordinates `keys` spanning [pdimMin, pdimMax] and cross-axis
   * extents `a` and `b`.
   */
  function Pivot(keys: seq<real>, pdimMin: real, pdimMax: real, a: real, b: real): nat
  {
    var bucksize := BuckSize(pdimMin, pdimMax);
    var best := FirstMinIndex(Costs(keys, pdimMin, bucksize, a, b)) + 1;
    PrefixBelow(keys, Boundary(pdimMin, bucksize, best))
  }

  /**
   * pviot is the scan at an interior boundary whose cost is the least of
   * the five and strictly below that of every earlier boundary.
   */
  lemma PivotIsCheapestCut(keys: seq<real>, pdimMin: real, pdimMax: real, a: real, b: real)
    ensures var bucksize := BuckSize(pdimMin, pdimMax);
      exists i :: 1 <= i < BuckNum && Pivot(keys, pdimMin, pdimMax, a, b) == PrefixBelow(keys, Boundary(pdimMin, bucksize, i))
        && (forall m :: 1 <= m < BuckNum ==> CostAt(keys, pdimMin, bucksize, a, b, i) <= CostAt(keys, pdimMin, bucksize, a, b, m))
        && (forall m :: 1 <= m < i ==> CostAt(keys, pdimMin, bucksize, a, b, i) < CostAt(keys, pdimMin, bucksize, a, b, m))
  {
    var bucksize := BuckSize(pdimMin, pdimMax);
    var best := FirstMinIndex(Costs(keys, pdimMin, bucksize, a, b)) + 1;
    PivotIsFirstCheapest(keys, pdimMin, bucksize, a, b, best);
  }

  /** Boundary `best` of the first least cost in Costs is the first boundary of least CostAt. */
  lemma PivotIsFirstCheapest(keys: seq<real>, lo: real, bucksize: real, a: real, b: real, best: nat)
    requires best == FirstMinIndex(Costs(keys, lo, bucksize, a, b)) + 1
    ensures 1 <= best < BuckNum
    ensures forall m :: 1 <= m < BuckNum ==> CostAt(keys, lo, bucksize, a, b, best) <= CostAt(keys, lo, bucksize, a, b, m)
    ensures forall m :: 1 <= m < best ==> CostAt(keys, lo, bucksize, a, b, best) < CostAt(keys, lo, bucksize, a, b, m)
  {
    var c := Costs(keys, lo, bucksize, a, b);
    CostsAt(keys, lo, bucksize, a, b, best);
    forall m | 1 <= m < BuckNum
      ensures CostAt(keys, lo, bucksize, a, b, best) <= CostAt(keys, lo, bucksize, a, b, m)
      ensures m < best ==> CostAt(keys, lo, bucksize, a, b, best) < CostAt(keys, lo, bucksize, a, b, m)
    {
      CostsAt(keys, lo, bucksize, a, b, m);
    }
  }

  /** The range of the centroid box on the split axis and its extents on the two other axes. */
  datatype Frame = Frame(pdimMin: real, pdimMax: real, a: real, b: real)

  /** The switch on `dim` that reads pdim_min, pdim_max, a and b off the centroid box. */
  function AxisFrame(cb: Bounds3, dim: int): (f: Frame)
    requires cb.Box? && 0 <= dim <= 2
    ensures f.pdimMin == DimValue(dim, cb.pMin) && f.pdimMax == DimValue(dim, cb.pMax)
    ensures f.a == DimValue(if dim == 0 then 1 else 0, Diagonal(cb))
    ensures f.b == DimValue(if dim == 2 then 1 else 2, Diagonal(cb))
  {
    match dim
    case 0 => Frame(cb.pMin.x, cb.pMax.x, cb.pMax.y - cb.pMin.y, cb.pMax.z - cb.pMin.z)
    case 1 => Frame(cb.pMin.y, cb.pMax.y, cb.pMax.x - cb.pMin.x, cb.pMax.z - cb.pMin.z)
    case 2 => Frame(cb.pMin.z, cb.pMax.z, cb.pMax.x - cb.pMin.x, cb.pMax.y - cb.pMin.y)
  }

  lemma BoundaryBelowMax(lo: real, hi: real, i: nat)
    requires lo <= hi && 1 <= i < BuckNum
    ensures Boundary(lo, BuckSize(lo, hi), i) <= hi
  {
    var d := hi - lo;
    assert BuckSize(lo, hi) * (i as real) == d * (i as real) / 6.0;
    assert d * (i as real) <= d * 6.0;
  }

  lemma PrefixStopsAt(keys: seq<real>, m: nat, bound: real)
    requires m < |keys| && keys[m] >= bound
    ensures PrefixBelow(keys, bound) <= m
  {
  }

  /** An object whose centroid lies at the top of the range stops the scan at every boundary. */
  lemma PivotStopsAtTop(s: seq<Object>, dim: int, m: nat, lo: real, hi: real, a: real, b: real)
    requires m < |s| && Key(s[m], dim) >= hi && lo <= hi
    ensures Pivot(Keys(s, dim), lo, hi, a, b) <= m
  {
    var keys := Keys(s, dim);
    var bucksize := BuckSize(lo, hi);
    var best := FirstMinIndex(Costs(keys, lo, bucksize, a, b)) + 1;
    BoundaryBelowMax(lo, hi, best);
    assert keys[m] >= Boundary(lo, bucksize, best);
    PrefixStopsAt(keys, m, Boundary(lo, bucksize, best));
  }

  /**
   * The pivot chosen for the sorted list `s` of the objects `objs` is an
   * index of `s`: the object with the largest centroid on the split axis
   * stops every scan, since it lies at or above every interior boundary.
   */
  lemma PivotInRange(s: seq<Object>, objs: seq<Object>, dim: int)
    requires |objs| >= 1 && 0 <= dim <= 2 && multiset(s) == multiset(objs)
    ensures var f := AxisFrame(CentroidBoundsOf(objs), dim);
      Pivot(Keys(s, dim), f.pdimMin, f.pdimMax, f.a, f.b) < |s|
  {
    var f := AxisFrame(CentroidBoundsOf(objs), dim);
    CentroidBoundsAttained(objs, dim);
    var k :| 0 <= k < |objs| && Key(objs[k], dim) == f.pdimMax;
    assert f.pdimMin <= Key(objs[k], dim);
    assert objs[k] in multiset(s);
    var m :| 0 <= m < |s| && s[m] == objs[k];
    PivotStopsAtTop(s, dim, m, f.pdimMin, f.pdimMax, f.a, f.b);
  }

  /** The pivot the builder chooses for the sorted list `s` of the objects `objs`. */
  function PivotOf(s: seq<Object>, objs: seq<Object>, dim: int): (p: nat)
    requires |objs| >= 1 && 0 <= dim <= 2 && multiset(s) == multiset(objs)
    ensures p < |s|
  {
    PivotInRange(s, objs, dim);
    var f := AxisFrame(CentroidBoundsOf(objs), dim);
    Pivot(Keys(s, dim), f.pdimMin, f.pdimMax, f.a, f.b)
  }

  /**
   * The scan of the bucket loop (the inner loop): how many leading objects
   * of `a` have their centroid on axis `dim` below `bound`.
   */
  method ScanBelow(a: array<Object>, dim: int, bound: real) returns (j: nat)
    ensures j == PrefixBelow(Keys(a[..], dim), bound)
  {
    ghost var keys := Keys(a[..], dim);
    j := 0;
    while j < a.Length
      invariant 0 <= j <= a.Length
      invariant forall k :: 0 <= k < j ==> keys[k] < bound
    {
      if Key(a[j], dim) < bound {
        j := j + 1;
      } else {
        break;
      }
    }
    PrefixBelowUnique(keys, bound, j);
  }

  /** One step of the running first-minimum over `c`: element `i - 1` is taken
   *  exactly when it is the first or strictly cheaper than the best so far. */
  lemma FirstMinStep(c: seq<real>, i: nat, best: nat, minC: real)
    requires 1 <= i <= |c|
    requires i > 1 ==> best == FirstMinIndex(c[..i - 1]) && minC == c[best]
    ensures var best' := if i == 1 || c[i - 1] < minC then i - 1 else best;
            best' == FirstMinIndex(c[..i]) && c[best'] == (if i == 1 || c[i - 1] < minC then c[i - 1] else minC)
  {
    if i > 1 {
      assert c[..i][..i - 1] == c[..i - 1];
    }
  }

  lemma CostsAt(keys: seq<real>, lo: real, bucksize: real, a: real, b: real, i: nat)
    requires 1 <= i < BuckNum
    ensures Costs(keys, lo, bucksize, a, b)[i - 1] == CostAt(keys, lo, bucksize, a, b, i)
  {
  }

  lemma CostOfScan(keys: seq<real>, j: nat, lo: real, bucksize: real, a: real, b: real, i: nat)
    requires j == PrefixBelow(keys, Boundary(lo, bucksize, i))
    ensures Cost(j, |keys|, i, a, b, bucksize) == CostAt(keys, lo, bucksize, a, b, i)
  {
  }

  /** One round of the bucket loop: the scan at boundary `i` and the cost of cutting there. */
  method PriceBoundary(a: array<Object>, dim: int, pdimMin: real, bucksize: real, ea: real, eb: real, i: nat)
    returns (j: nat, tmpC: real)
    requires 1 <= i < BuckNum
    ensures j == PrefixBelow(Keys(a[..], dim), Boundary(pdimMin, bucksize, i))
    ensures tmpC == Costs(Keys(a[..], dim), pdimMin, bucksize, ea, eb)[i - 1]
  {
    var bound := Boundary(pdimMin, bucksize, i);
    j := ScanBelow(a, dim, bound);
    tmpC := Cost(j, a.Length, i, ea, eb, bucksize);
    CostOfScan(Keys(a[..], dim), j, pdimMin, bucksize, ea, eb, i);
    CostsAt(Keys(a[..], dim), pdimMin, bucksize, ea, eb, i);
  }

  /**
   * The bucket loop: for each interior boundary i, scan for the first object
   * at or above it, price the cut, and keep the first cheapest.  minC starts
   * at +infinity, so the first boundary's cost always replaces it.
   */
  method ChoosePivot(a: array<Object>, dim: int, pdimMin: real, pdimMax: real, ea: real, eb: real)
    returns (pviot: nat)
    ensures pviot == Pivot(Keys(a[..], dim), pdimMin, pdimMax, ea, eb)
  {
    ghost var keys := Keys(a[..], dim);
    var n := a.Length;
    var bucknum := BuckNum;
    var minC := 0.0;
    pviot := 0;
    var bucksize := (pdimMax - pdimMin) / (bucknum as real);
    assert bucksize == BuckSize(pdimMin, pdimMax);
    ghost var costs := Costs(keys, pdimMin, bucksize, ea, eb);
    ghost var best := 0;
    var i := 1;
    while i < bucknum
      invariant 1 <= i <= bucknum
      invariant i > 1 ==> best == FirstMinIndex(costs[..i - 1]) && minC == costs[best]
      invariant i > 1 ==> pviot == PrefixBelow(keys, Boundary(pdimMin, bucksize, best + 1))
    {
      var j, tmpC := PriceBoundary(a, dim, pdimMin, bucksize, ea, eb, i);
      FirstMinStep(costs, i, best, minC);
      if i == 1 || tmpC < minC {
        minC := tmpC;
        pviot := j;
        best := i - 1;
      }
      i := i + 1;
    }
    assert costs[..BuckNum - 1] == costs;
    PivotOfFirstMin(keys, pdimMin, pdimMax, ea, eb, best);
  }

  /** The pivot is the scan at the boundary after the first least cost. */
  lemma PivotOfFirstMin(keys: seq<real>, lo: real, hi: real, a: real, b: real, best: nat)
    requires best == FirstMinIndex(Costs(keys, lo, BuckSize(lo, hi), a, b))
    ensures Pivot(keys, lo, hi, a, b) == PrefixBelow(keys, Boundary(lo, BuckSize(lo, hi), best + 1))
  {
  }

  // ---------------------------------------------------------------------------
  // Cutting the sorted list

  /**
   * The cut as written: [0, pviot] and (pviot, n).  The halves put back
   * together give the list (the source asserts the sizes add up), the first
   * half is never empty, and the second is empty exactly when the pivot is
   * the last object.
   */
  function Split(s: seq<Object>, pviot: nat): (halves: (seq<Object>, seq<Object>))
    requires pviot < |s|
    ensures halves.0 + halves.1 == s
    ensures |halves.0| == pviot + 1 && |halves.0| + |halves.1| == |s|
    ensures halves.1 == [] <==> pviot == |s| - 1
  {
    (s[..pviot + 1], s[pviot + 1..])
  }

  /**
   * The cut the build uses: the source's cut whenever the pivot is not the
   * last object, and otherwise the cut before the last object, so that both
   * halves are non-empty and shorter than the list.
   */
  function CorrectedSplit(s: seq<Object>, pviot: nat): (halves: (seq<Object>, seq<Object>))
    requires 3 <= |s| && pviot < |s|
    ensures halves.0 + halves.1 == s
    ensures 1 <= |halves.0| < |s| && 1 <= |halves.1| < |s|
    ensures pviot <= |s| - 2 ==> halves == Split(s, pviot)
  {
    Split(s, if pviot <= |s| - 2 then pviot else |s| - 2)
  }

  /** Three point-sized objects with centroids 0, 1 and 10 on the x axis. */
  const NoProgressObjects: seq<Object> := [
    Object(0, Vec3(0.0, 0.0, 0.0), Vec3(0.0, 0.0, 0.0), false, 0.0),
    Object(1, Vec3(1.0, 0.0, 0.0), Vec3(1.0, 0.0, 0.0), false, 0.0),
    Object(2, Vec3(10.0, 0.0, 0.0), Vec3(10.0, 0.0, 0.0), false, 0.0)]

  lemma NoProgressCentroids()
    ensures CentroidBoundsOf(NoProgressObjects) == Box(Vec3(0.0, 0.0, 0.0), Vec3(10.0, 0.0, 0.0))
    ensures Keys(NoProgressObjects, 0) == [0.0, 1.0, 10.0]
    ensures SortedOn(NoProgressObjects, 0)
  {
    var s := NoProgressObjects;
    assert s[..2] == [s[0], s[1]] && [s[0], s[1]][..1] == [s[0]] && [s[0]][..0] == [];
    assert CentroidBoundsOf([s[0]]) == Box(Vec3(0.0, 0.0, 0.0), Vec3(0.0, 0.0, 0.0));
    assert CentroidBoundsOf([s[0], s[1]]) == Box(Vec3(0.0, 0.0, 0.0), Vec3(1.0, 0.0, 0.0));
    assert Key(s[0], 0) == 0.0 && Key(s[1], 0) == 1.0 && Key(s[2], 0) == 10.0;
  }

  /** With no extent across the split axis every cut costs nothing. */
  lemma CostWithoutExtent(j: nat, n: nat, i: nat, bucksize: real)
    ensures Cost(j, n, i, 0.0, 0.0, bucksize) == 0.0
  {
  }

  lemma CostsWithoutExtent(keys: seq<real>, lo: real, bucksize: real)
    ensures Costs(keys, lo, bucksize, 0.0, 0.0) == [0.0, 0.0, 0.0, 0.0, 0.0]
  {
    for i := 1 to BuckNum
      invariant forall k :: 1 <= k < i ==> CostAt(keys, lo, bucksize, 0.0, 0.0, k) == 0.0
    {
      CostWithoutExtent(PrefixBelow(keys, Boundary(lo, bucksize, i)), |keys|, i, bucksize);
    }
  }

  /** When every cost is the same the first boundary wins. */
  lemma FirstMinOfEqual(c: seq<real>)
    requires |c| > 0 && forall k :: 0 <= k < |c| ==> c[k] == c[0]
    ensures FirstMinIndex(c) == 0
  {
    var k := FirstMinIndex(c);
    assert !(c[k] < c[0]);
  }

  /**
   * When the centroids lie on a line along the split axis (no extent on
   * the two other axes) every cut costs nothing and the pivot is the scan
   * at the first boundary.
   */
  lemma PivotWithoutExtent(keys: seq<real>, lo: real, hi: real)
    ensures Pivot(keys, lo, hi, 0.0, 0.0) == PrefixBelow(keys, Boundary(lo, BuckSize(lo, hi), 1))
  {
    var costs := Costs(keys, lo, BuckSize(lo, hi), 0.0, 0.0);
    CostsWithoutExtent(keys, lo, BuckSize(lo, hi));
    FirstMinOfEqual(costs);
  }

  lemma NoProgressFirstBoundary()
    ensures PrefixBelow([0.0, 1.0, 10.0], Boundary(0.0, BuckSize(0.0, 10.0), 1)) == 2
  {
    assert Boundary(0.0, BuckSize(0.0, 10.0), 1) == 10.0 / 6.0;
    PrefixBelowUnique([0.0, 1.0, 10.0], 10.0 / 6.0, 2);
  }

  lemma NoProgressPivot()
    ensures PivotOf(NoProgressObjects, NoProgressObjects, 0) == 2
  {
    NoProgressCentroids();
    NoProgressFirstBoundary();
    FlatPivotOf(NoProgressObjects, 10.0, [0.0, 1.0, 10.0], 2);
  }

  /**
   * PivotWithoutExtent for a list whose centroids span [0, hi] on the x
   * axis only: the pivot is the scan at the first boundary.
   */
  lemma FlatPivotOf(s: seq<Object>, hi: real, keys: seq<real>, v: nat)
    requires |s| >= 1 && CentroidBoundsOf(s) == Box(Vec3(0.0, 0.0, 0.0), Vec3(hi, 0.0, 0.0))
    requires Keys(s, 0) == keys && PrefixBelow(keys, Boundary(0.0, BuckSize(0.0, hi), 1)) == v
    ensures PivotOf(s, s, 0) == v
  {
    assert AxisFrame(CentroidBoundsOf(s), 0) == Frame(0.0, hi, 0.0, 0.0);
    PivotWithoutExtent(keys, 0.0, hi);
  }

  /**
   * A cut that makes no progress.  For the objects above the split axis is
   * x, every boundary leaves the first two objects below it and every cost
   * is 0, so the first boundary wins with pviot = 2 = n - 1; the first half
   * is the whole sorted list and the second is empty.  Sorting that half
   * again can only give the same list (NoProgressSortIsUnique), so the
   * recursive call repeats this one forever.
   */
  lemma NoProgressExample()
    ensures var s := NoProgressObjects;
      var dim := MaxExtent(CentroidBoundsOf(s));
      && dim == 0
      && SortedPermutation(s, s, dim)
      && Split(s, PivotOf(s, s, dim)) == (s, [])
  {
    NoProgressAxis();
    NoProgressCentroids();
    NoProgressPivot();
    CutAtLastIndex(NoProgressObjects);
  }

  /** A sorted list whose pivot is its last index is cut into itself and nothing. */
  lemma CutAtLastIndex(s: seq<Object>)
    requires |s| >= 1 && MaxExtent(CentroidBoundsOf(s)) == 0 && SortedOn(s, 0)
    requires PivotOf(s, s, 0) == |s| - 1
    ensures var dim := MaxExtent(CentroidBoundsOf(s));
      && SortedPermutation(s, s, dim)
      && Split(s, PivotOf(s, s, dim)) == (s, [])
  {
    var dim := MaxExtent(CentroidBoundsOf(s));
    var halves := Split(s, PivotOf(s, s, dim));
    assert |halves.0| == |s| && halves.0 + halves.1 == s;
    assert halves.0 == s;
  }

  lemma NoProgressAxis()
    ensures MaxExtent(CentroidBoundsOf(NoProgressObjects)) == 0
  {
    NoProgressCentroids();
    AxisOfLine(NoProgressObjects, 10.0);
  }

  /** Centroids spread along x alone make x the split axis. */
  lemma AxisOfLine(s: seq<Object>, hi: real)
    requires hi > 0.0 && CentroidBoundsOf(s) == Box(Vec3(0.0, 0.0, 0.0), Vec3(hi, 0.0, 0.0))
    ensures MaxExtent(CentroidBoundsOf(s)) == 0
  {
    assert Diagonal(CentroidBoundsOf(s)) == Vec3(hi, 0.0, 0.0);
  }

  /** The only sorted order of the example objects is the one they are in. */
  lemma NoProgressSortIsUnique()
    ensures forall s' :: SortedPermutation(s', NoProgressObjects, 0) ==> s' == NoProgressObjects
  {
    var s := NoProgressObjects;
    NoProgressCentroids();
    forall s' | SortedPermutation(s', s, 0)
      ensures s' == s
    {
      SortedDistinctIsUnique(s', s);
    }
  }

  /** A sorted permutation of [o0, o1, o2] with centroids 0 < 1 < 10 on x is the list itself. */
  lemma SortedDistinctIsUnique(s': seq<Object>, s: seq<Object>)
    requires |s| == 3 && Key(s[0], 0) < Key(s[1], 0) < Key(s[2], 0)
    requires SortedPermutation(s', s, 0)
    ensures s' == s
  {
    assert forall k :: 0 <= k < 3 ==> s'[k] in multiset(s);
    assert forall k :: 0 <= k < 3 ==> s[k] in multiset(s');
    var m0 :| 0 <= m0 < 3 && s'[m0] == s[0];
    assert Key(s'[0], 0) <= Key(s[0], 0);
    var m2 :| 0 <= m2 < 3 && s'[m2] == s[2];
    assert Key(s[2], 0) <= Key(s'[2], 0);
    var m1 :| 0 <= m1 < 3 && s'[m1] == s[1];
  }

  // ---------------------------------------------------------------------------
  // What a build produces

  /**
   * `t` is a tree the build can return for `objs`: the leaf or two-leaf node
   * for one or two objects, and otherwise a node whose halves are builds of
   * the two halves of some sorted order of `objs` (std::sort may order
   * objects with equal centroids either way).
   */
  ghost predicate IsBuild(t: Tree, objs: seq<Object>)
    decreases |objs|
  {
    if |objs| == 0 then false
    else if |objs| == 1 then t == Leaf(objs[0], objs[0].Bounds())
    else if |objs| == 2 then
      t == Node(Leaf(objs[0], objs[0].Bounds()), Leaf(objs[1], objs[1].Bounds()),
                Union(objs[0].Bounds(), objs[1].Bounds()))
    else
      var dim := MaxExtent(CentroidBoundsOf(objs));
      && t.Node?
      && t.box == Union(t.left.box, t.right.box)
      && exists s :: SortedPermutation(s, objs, dim) &&
           var halves := CorrectedSplit(s, PivotOf(s, objs, dim));
           IsBuild(t.left, halves.0) && IsBuild(t.right, halves.1)
  }

  /** A node over builds of the two halves of a sorted order is a build. */
  lemma BuildNode(objs: seq<Object>, s: seq<Object>, left: seq<Object>, right: seq<Object>, l: Tree, r: Tree)
    requires |objs| >= 3
    requires var dim := MaxExtent(CentroidBoundsOf(objs));
      && SortedPermutation(s, objs, dim)
      && (left, right) == CorrectedSplit(s, PivotOf(s, objs, dim))
    requires IsBuild(l, left) && IsBuild(r, right)
    ensures IsBuild(Node(l, r, Union(l.box, r.box)), objs)
  {
  }

  /** The sorted order and the two halves a build of three or more objects was made from. */
  lemma BuildHalves(t: Tree, objs: seq<Object>) returns (s: seq<Object>, left: seq<Object>, right: seq<Object>)
    requires |objs| >= 3 && IsBuild(t, objs)
    ensures t.Node? && t.box == Union(t.left.box, t.right.box)
    ensures var dim := MaxExtent(CentroidBoundsOf(objs));
      && SortedPermutation(s, objs, dim)
      && (left, right) == CorrectedSplit(s, PivotOf(s, objs, dim))
    ensures left + right == s && |left| < |objs| && |right| < |objs|
    ensures IsBuild(t.left, left) && IsBuild(t.right, right)
  {
    var dim := MaxExtent(CentroidBoundsOf(objs));
    s :| SortedPermutation(s, objs, dim) &&
      var halves := CorrectedSplit(s, PivotOf(s, objs, dim));
      IsBuild(t.left, halves.0) && IsBuild(t.right, halves.1);
    left, right := CorrectedSplit(s, PivotOf(s, objs, dim)).0, CorrectedSplit(s, PivotOf(s, objs, dim)).1;
  }

  /**
   * Every build is well formed, holds each input object in exactly one leaf,
   * and its root box is the union of all the input boxes.
   */
  lemma {:induction false} BuildShape(t: Tree, objs: seq<Object>)
    requires IsBuild(t, objs)
    ensures WellFormed(t)
    ensures multiset(Leaves(t)) == multiset(objs)
    ensures t.box == BoundsOf(objs)
    decreases |objs|
  {
    if |objs| == 1 {
      assert objs == [objs[0]];
      LeafShape(objs[0]);
    } else if |objs| == 2 {
      assert objs == [objs[0], objs[1]];
      PairShape(objs[0], objs[1]);
    } else {
      var s, left, right := BuildHalves(t, objs);
      BuildShape(t.left, left);
      BuildShape(t.right, right);
      NodeShape(t, objs, s, left, right);
    }
  }

  /** BuildShape for the one-object build. */
  lemma LeafShape(o: Object)
    ensures var t := Leaf(o, o.Bounds());
      WellFormed(t) && multiset(Leaves(t)) == multiset([o]) && t.box == BoundsOf([o])
  {
    assert [o][..0] == [];
  }

  /** BuildShape for the two-object build. */
  lemma PairShape(o0: Object, o1: Object)
    ensures var t := Node(Leaf(o0, o0.Bounds()), Leaf(o1, o1.Bounds()), Union(o0.Bounds(), o1.Bounds()));
      WellFormed(t) && multiset(Leaves(t)) == multiset([o0, o1]) && t.box == BoundsOf([o0, o1])
  {
    assert [o0, o1][..1] == [o0] && [o0][..0] == [];
  }

  /** The shape of a node follows from the shapes of its halves. */
  lemma NodeShape(t: Tree, objs: seq<Object>, s: seq<Object>, left: seq<Object>, right: seq<Object>)
    requires t.Node? && t.box == Union(t.left.box, t.right.box)
    requires left + right == s && multiset(s) == multiset(objs)
    requires WellFormed(t.left) && multiset(Leaves(t.left)) == multiset(left) && t.left.box == BoundsOf(left)
    requires WellFormed(t.right) && multiset(Leaves(t.right)) == multiset(right) && t.right.box == BoundsOf(right)
    ensures WellFormed(t)
    ensures multiset(Leaves(t)) == multiset(objs)
    ensures t.box == BoundsOf(objs)
  {
    assert multiset(Leaves(t)) == multiset(Leaves(t.left)) + multiset(Leaves(t.right));
    assert multiset(s) == multiset(left) + multiset(right);
    BoundsOfAppend(left, right);
    BoundsOfPermutation(s, objs);
  }

  /** Cutting a sorted list leaves every object of the first part at or below every object of the second. */
  lemma SortedCutOrdered(left: seq<Object>, right: seq<Object>, dim: int, x: Object, y: Object)
    requires SortedOn(left + right, dim)
    requires x in left && y in right
    ensures Key(x, dim) <= Key(y, dim)
  {
    var p :| 0 <= p < |left| && left[p] == x;
    var q :| 0 <= q < |right| && right[q] == y;
    assert (left + right)[p] == x && (left + right)[|left| + q] == y;
  }

  /**
   * In a build of three or more objects, every object in the left subtree
   * has a centroid no greater than every object in the right subtree, on the
   * split axis.
   */
  lemma BuildSplitOrder(t: Tree, objs: seq<Object>)
    requires |objs| >= 3 && IsBuild(t, objs)
    ensures var dim := MaxExtent(CentroidBoundsOf(objs));
      forall x, y :: x in Leaves(t.left) && y in Leaves(t.right) ==> Key(x, dim) <= Key(y, dim)
  {
    var dim := MaxExtent(CentroidBoundsOf(objs));
    var s, left, right := BuildHalves(t, objs);
    BuildShape(t.left, left);
    BuildShape(t.right, right);
    forall x, y | x in Leaves(t.left) && y in Leaves(t.right)
      ensures Key(x, dim) <= Key(y, dim)
    {
      assert x in multiset(Leaves(t.left)) && y in multiset(Leaves(t.right));
      SortedCutOrdered(left, right, dim, x, y);
    }
  }

  /** Each subtree's box contains the box of every object it holds. */
  lemma {:induction false} LeafBoxesContained(t: Tree)
    requires WellFormed(t)
    ensures forall o :: o in Leaves(t) ==> Contains(t.box, o.Bounds())
  {
    match t
    case Leaf(_, _) =>
    case Node(l, r, b) =>
      LeafBoxesContained(l);
      LeafBoxesContained(r);
      forall o | o in Leaves(t)
        ensures Contains(b, o.Bounds())
      {
        if o in Leaves(l) {
          ContainsTransitive(b, l.box, o.Bounds());
        } else {
          ContainsTransitive(b, r.box, o.Bounds());
        }
      }
  }

  // ---------------------------------------------------------------------------
  // The build

  /**
   * The part of recursiveBuild for three or more objects that chooses the
   * cut: the centroid box, its widest axis, the sort along it, the pivot and
   * the two halves.  `sorted` is the order the sort produced.
   */
  method Partition(objects: seq<Object>) returns (leftshapes: seq<Object>, rightshapes: seq<Object>, ghost sorted: seq<Object>)
    requires |objects| >= 3
    ensures var dim := MaxExtent(CentroidBoundsOf(objects));
      && SortedPermutation(sorted, objects, dim)
      && (leftshapes, rightshapes) == CorrectedSplit(sorted, PivotOf(sorted, objects, dim))
    ensures multiset(leftshapes + rightshapes) == multiset(objects)
    ensures 1 <= |leftshapes| < |objects| && 1 <= |rightshapes| < |objects|
    ensures var dim := MaxExtent(CentroidBoundsOf(objects));
      forall x, y :: x in leftshapes && y in rightshapes ==> Key(x, dim) <= Key(y, dim)
  {
    var n := |objects|;
    var centroidBounds := Empty;
    for i := 0 to n
      invariant centroidBounds == CentroidBoundsOf(objects[..i])
    {
      assert objects[..i + 1][..i] == objects[..i];
      centroidBounds := UnionPoint(centroidBounds, Centroid(objects[i].Bounds()));
    }
    assert objects[..n] == objects;
    assert centroidBounds == CentroidBoundsOf(objects);
    var dim := MaxExtent(centroidBounds);
    var a := new Object[n](k requires 0 <= k < n => objects[k]);
    assert a[..] == objects;
    SortByCentroid(a, dim);
    sorted := a[..];
    var f := AxisFrame(centroidBounds, dim);
    var pviot := ChoosePivot(a, dim, f.pdimMin, f.pdimMax, f.a, f.b);
    assert pviot == PivotOf(sorted, objects, dim);
    var halves := CorrectedSplit(a[..], pviot);
    leftshapes, rightshapes := halves.0, halves.1;
    forall x, y | x in leftshapes && y in rightshapes
      ensures Key(x, dim) <= Key(y, dim)
    {
      SortedCutOrdered(leftshapes, rightshapes, dim, x, y);
    }
  }

  /**
   * recursiveBuild.  The list is taken by value, as in the source; its
   * sorted copy lives in a fresh array.
   */
  method RecursiveBuild(objects: seq<Object>) returns (node: Tree)
    requires |objects| >= 1
    ensures IsBuild(node, objects)
    ensures WellFormed(node) && multiset(Leaves(node)) == multiset(objects)
    ensures node.box == BoundsOf(objects)
    ensures |objects| == 1 ==> node == Leaf(objects[0], objects[0].Bounds())
    ensures |objects| == 2 ==> node == Node(Leaf(objects[0], objects[0].Bounds()),
                                            Leaf(objects[1], objects[1].Bounds()),
                                            Union(objects[0].Bounds(), objects[1].Bounds()))
    decreases |objects|
  {
    var n := |objects|;
    // The box of all the objects; the source computes it and then does not
    // use it.  It is the box the node ends up with (BuildShape).
    var bounds := Empty;
    for i := 0 to n
      invariant bounds == BoundsOf(objects[..i])
    {
      assert objects[..i + 1][..i] == objects[..i];
      bounds := Union(bounds, objects[i].Bounds());
    }
    assert objects[..n] == objects;
    if n == 1 {
      node := Leaf(objects[0], objects[0].Bounds());
    } else if n == 2 {
      var l := RecursiveBuild([objects[0]]);
      var r := RecursiveBuild([objects[1]]);
      node := Node(l, r, Union(l.box, r.box));
    } else {
      var leftshapes, rightshapes;
      ghost var sorted;
      leftshapes, rightshapes, sorted := Partition(objects);
      var l := RecursiveBuild(leftshapes);
      var r := RecursiveBuild(rightshapes);
      node := Node(l, r, Union(l.box, r.box));
      BuildNode(objects, sorted, leftshapes, rightshapes, l, r);
    }
    BuildShape(node, objects);
    assert node.box == bounds;
  }
}
