/**
 KD_TREE: the public operations, with the rebuild thread idle. The tree stands for the sequence of
 its live points; every operation is specified by what it does to that sequence.
 */
module KdTrees {
  import opened Verdicts
  import opened Geometry
  import opened PointSeqs
  import opened KdModel
  import opened KdBuild
  import opened KdBalance
  import opened KdLean
  import opened KdNodes
  import opened KdOps
  import opened KdUpdates
  import opened KdRangeSearch
  import opened Balls
  import opened Voxels
  import opened VoxelMeanings
  import E = KdEdit
  import N = KdNearest
  import B = Nearest

  /** The invariant of every reachable tree. */
  ghost predicate Good(t: Tree, lim: nat) {
    Health(t, lim).Sound?
  }

  ghost function Health(t: Tree, lim: nat): Verdict {
    if WF(t) && Ordered(t) && Balanced(t, lim) && Lean(t, lim) then Sound else Broken
  }

  lemma BuildIsGood(c: Config, s: seq<Point>, t: Tree)
    requires t == Build(c.nth, s)
    ensures Good(t, c.lim) && multiset(Live(t)) == multiset(s)
  {
    BuildIsWellFormed(c.nth, s);
    BuildIsOrdered(c.nth, s);
    BuildIsHalved(c.nth, s);
    HalvedIsBalanced(t, c.lim);
    NothingInvalidIsLean(t, c.lim);
    BuildStoresInput(c.nth, s);
  }

  lemma AddIsGood(c: Config, t: Tree, p: Point, a: Axis, v: Tree)
    requires Good(t, c.lim) && v == E.AddPoint(c, t, p, true, a)
    ensures Good(v, c.lim) && v.Node? && multiset(Live(v)) == multiset(Live(t)) + multiset{p}
  {
    E.AddKeeps(c, t, p, true, a, v);
    AddOrdered(c, t, p, true, a, v);
    AddBalanced(c, t, p, a, v);
    AddLean(c, t, p, a, v);
  }

  lemma DeleteIsGood(c: Config, t: Tree, b: Box, ds: bool, v: E.Deleted)
    requires Good(t, c.lim) && v == E.DeleteRange(c, t, b, true, ds)
    ensures Good(v.tree, c.lim) && v.tree.Nil? == t.Nil?
    ensures multiset(Live(v.tree)) == multiset(Filter(Live(t), Not(In(b))))
    ensures v.count == |Filter(Live(t), In(b))|
  {
    E.DeleteKeeps(c, t, b, true, ds, v);
    DeleteOrdered(c, t, b, true, ds, v.tree);
    DeleteBalanced(c, t, b, ds, v.tree);
    DeleteLean(c, t, b, ds, v.tree);
  }

  /** Searches leave a good tree good. */
  lemma SearchedIsGood(t: Tree, u: Tree, lim: nat)
    requires Good(t, lim) && SameButFlags(t, u)
    ensures Good(u, lim) && Live(u) == Live(t) && u.Nil? == t.Nil?
  {
    SameMeaning(t, u);
    PushAllShape(t, lim);
    PushAllShape(u, lim);
    PushAllLean(t, lim);
    PushAllLean(u, lim);
  }

  /** The order and the balance of a tree do not depend on where its flags sit. */
  lemma {:induction false} PushAllShape(t: Tree, lim: nat)
    ensures Stored(PushAll(t)) == Stored(t) && Size(PushAll(t)) == Size(t) && PushAll(t).Nil? == t.Nil?
    ensures Ordered(PushAll(t)) <==> Ordered(t)
    ensures Balanced(PushAll(t), lim) <==> Balanced(t, lim)
    decreases Count(t)
  {
    if t.Node? {
      var u := PushDown(t);
      PushAllShape(u.left, lim);
      PushAllShape(u.right, lim);
      PushedSonShape(t.d.pushL, t.left, t.d, lim);
      PushedSonShape(t.d.pushR, t.right, t.d, lim);
    }
  }

  lemma PushedSonShape(flag: bool, s: Tree, d: Info, lim: nat)
    ensures var r := PushSon(flag, s, d.tdel, d.tdds);
      && Stored(r) == Stored(s) && Size(r) == Size(s)
      && (Ordered(r) <==> Ordered(s)) && (Balanced(r, lim) <==> Balanced(s, lim))
  {
  }

  // ---------- Specifications of the edits ----------

  /** Points that lie in none of the boxes. */
  function Spared(s: seq<Point>, boxes: seq<Box>): seq<Point> {
    if boxes == [] then s else Filter(Spared(s, boxes[..|boxes| - 1]), Not(In(boxes[|boxes| - 1])))
  }

  predicate DropsPoint(boxes: seq<Box>, p: Point) {
    exists b :: b in boxes && InBox(p, b)
  }

  lemma {:induction false} SparedAt(s: seq<Point>, boxes: seq<Box>, p: Point)
    ensures multiset(Spared(s, boxes))[p] == if DropsPoint(boxes, p) then 0 else multiset(s)[p]
  {
    if boxes != [] {
      var front, last := boxes[..|boxes| - 1], boxes[|boxes| - 1];
      SparedAt(s, front, p);
      FilterCount(Spared(s, front), Not(In(last)), p);
      assert boxes == front + [last] && last in boxes;
    }
  }

  /** What a box search returns, in coordinates. */
  lemma BoxedInNumbers(s: seq<Point>, b: Box, p: Point)
    ensures multiset(Filter(s, In(b)))[p] ==
      if b.lo.x <= p.pos.x < b.hi.x && b.lo.y <= p.pos.y < b.hi.y && b.lo.z <= p.pos.z < b.hi.z
      then multiset(s)[p] else 0
  {
    FilterCount(s, In(b), p);
  }

  /** What a radius search returns, in coordinates. */
  lemma BallInNumbers(s: seq<Point>, q: RVec, radius: real, p: Point)
    ensures var x, y, z := p.pos.x as real - q.x, p.pos.y as real - q.y, p.pos.z as real - q.z;
      multiset(Filter(s, InBall(q, radius)))[p] ==
        if x * x + y * y + z * z <= radius * radius then multiset(s)[p] else 0
  {
    FilterCount(s, InBall(q, radius), p);
  }

  /** What a list of boxes leaves, in coordinates. */
  lemma SparedInNumbers(s: seq<Point>, boxes: seq<Box>, p: Point)
    ensures multiset(Spared(s, boxes))[p] ==
      if exists b :: b in boxes
          && b.lo.x <= p.pos.x < b.hi.x && b.lo.y <= p.pos.y < b.hi.y && b.lo.z <= p.pos.z < b.hi.z
      then 0 else multiset(s)[p]
  {
    SparedAt(s, boxes, p);
  }

  lemma SparedStep(s: seq<Point>, boxes: seq<Box>, i: nat, t: seq<Point>, u: seq<Point>)
    requires i < |boxes|
    requires multiset(t) == multiset(Spared(s, boxes[..i]))
    requires multiset(u) == multiset(Filter(t, Not(In(boxes[i]))))
    ensures multiset(u) == multiset(Spared(s, boxes[..i + 1]))
    ensures |t| - |u| == |Filter(t, In(boxes[i]))|
  {
    assert boxes[..i + 1][..i] == boxes[..i];
    FilterPermutation(t, Spared(s, boxes[..i]), Not(In(boxes[i])));
    FilterSplit(t, In(boxes[i]));
    SameMembers(u, Filter(t, Not(In(boxes[i]))));
  }

  /** same_point: over exact coordinates the tolerance is equality of positions. */
  predicate SamePoint(a: Point, b: Point) {
    a.pos == b.pos
  }

  /** The deleting and re-adding branch of Add_Points makes one offer. */
  lemma OfferedByReplacing(s: seq<Point>, p: Point, d: nat, t: seq<Point>, r: Point)
    requires d > 0
    requires var v := Cell(p, d);
      && Closest(r, v, d, Filter(s, InCell(v, d)), p)
      && multiset(t) == (if Filter(s, InCell(v, d)) == [] then multiset(s)
                         else multiset(Filter(s, Not(InCell(v, d))))) + multiset{r}
    ensures Offered(s, p, d, t, r)
  {
    FilterSplit(s, InCell(Cell(p, d), d));
  }

  /** Leaving the tree alone is an offer too, when the one stored point is closer. */
  lemma OfferedByKeeping(s: seq<Point>, p: Point, d: nat, r: Point)
    requires d > 0
    requires var v := Cell(p, d);
      && Closest(r, v, d, Filter(s, InCell(v, d)), p) && r != p && |Filter(s, InCell(v, d))| <= 1
    ensures Offered(s, p, d, s, r)
  {
    var f := InCell(Cell(p, d), d);
    assert Filter(s, f) == [r];
    FilterSplit(s, f);
  }

  /** Whether one downsampled insertion rewrites the voxel of `p`. */
  predicate Replaces(s: seq<Point>, p: Point, d: nat)
    requires d > 0
  {
    var own := Filter(s, InCell(Cell(p, d), d));
    |own| > 1 || SamePoint(p, FirstClosest(p, own, Cell(p, d), d))
  }

  lemma ReplacesInNumbers(s: seq<Point>, p: Point, d: nat)
    requires d > 0
    ensures Replaces(s, p, d) <==> CountVoxel(s, p, d) > 1 || NoneNearer(s, p, d, p)
  {
    CountsVoxel(s, p, d);
    PlaceIsKept(s, p, d);
  }

  /** One downsampled insertion, ties and the order of the stored points included. */
  ghost predicate Rewritten(s: seq<Point>, p: Point, d: nat, t: seq<Point>)
    requires d > 0
  {
    var f := InCell(Cell(p, d), d);
    if Replaces(s, p, d) then
      multiset(t) == multiset(Filter(s, Not(f))) + multiset{FirstClosest(p, Filter(s, f), Cell(p, d), d)}
    else t == s
  }

  ghost function OfferStep(s: seq<Point>, p: Point, d: nat, t: seq<Point>): Verdict
    requires d > 0
  {
    if Rewritten(s, p, d, t) then Sound else Broken
  }

  /** `trace[i]` is live after the first `i` points were offered. */
  ghost function Offers(trace: seq<seq<Point>>, points: seq<Point>, d: nat): Verdict
    requires d > 0
  {
    if |trace| == |points| + 1 && forall i :: 0 <= i < |points| ==>
      OfferStep(trace[i], points[i], d, trace[i + 1]).Sound?
    then Sound else Broken
  }

  /** How many of the first `n` points rewrote their voxel. */
  ghost function Rewrites(trace: seq<seq<Point>>, points: seq<Point>, d: nat, n: nat): nat
    requires d > 0 && n <= |points| && n <= |trace|
  {
    if n == 0 then 0
    else Rewrites(trace, points, d, n - 1) + if Replaces(trace[n - 1], points[n - 1], d) then 1 else 0
  }

  lemma OffersNext(trace: seq<seq<Point>>, points: seq<Point>, i: nat, d: nat, t: seq<Point>)
    requires d > 0 && i < |points| && Offers(trace, points[..i], d).Sound?
    requires OfferStep(trace[i], points[i], d, t).Sound?
    ensures Offers(trace + [t], points[..i + 1], d).Sound? && (trace + [t])[i + 1] == t
    ensures Rewrites(trace + [t], points, d, i + 1)
         == Rewrites(trace, points, d, i) + if Replaces(trace[i], points[i], d) then 1 else 0
  {
    var longer := trace + [t];
    forall j | 0 <= j < i + 1
      ensures OfferStep(longer[j], points[..i + 1][j], d, longer[j + 1]).Sound?
    {
      if j < i { assert OfferStep(trace[j], points[..i][j], d, trace[j + 1]).Sound?; }
    }
    RewritesPrefix(trace, t, points, d, i);
  }

  lemma {:induction false} RewritesPrefix(trace: seq<seq<Point>>, t: seq<Point>, points: seq<Point>, d: nat, n: nat)
    requires d > 0 && n <= |points| && n <= |trace|
    ensures Rewrites(trace + [t], points, d, n) == Rewrites(trace, points, d, n)
  {
    if n > 0 { RewritesPrefix(trace, t, points, d, n - 1); }
  }

  lemma PrefixStep(points: seq<Point>, i: nat)
    requires i < |points|
    ensures points[..i + 1] == points[..i] + [points[i]]
    ensures multiset(points[..i + 1]) == multiset(points[..i]) + multiset{points[i]}
  {
    assert points[..i + 1] == points[..i] + [points[i]];
  }

  /** `t` holds the points of `s` and those of `ps`. */
  ghost predicate Grown(s: seq<Point>, ps: seq<Point>, t: seq<Point>) {
    multiset(t) == multiset(s) + multiset(ps)
  }

  lemma GrownStep(s: seq<Point>, points: seq<Point>, i: nat, t: seq<Point>, u: seq<Point>)
    requires i < |points| && Grown(s, points[..i], t) && multiset(u) == multiset(t) + multiset{points[i]}
    ensures Grown(s, points[..i + 1], u)
  {
    PrefixStep(points, i);
  }

  // ---------- The three editing operations on a root ----------

  method BuildFrom(c: Config, cloud: seq<Point>) returns (root: KdNode?)
    ensures root != null ==> root.Valid() && fresh(root.Repr)
    ensures Good(TreeOf(root), c.lim) && multiset(Live(TreeOf(root))) == multiset(cloud)
    ensures root == null <==> cloud == []
  {
    var storage := new Point[|cloud|](i requires 0 <= i < |cloud| => cloud[i]);
    assert storage[..][0..storage.Length] == cloud;
    root := BuildTree(c, storage, 0, storage.Length);
    BuildIsGood(c, cloud, TreeOf(root));
  }

  method InsertAt(c: Config, root: KdNode, p: Point) returns (r: KdNode)
    requires root.Valid() && Good(root.tree, c.lim)
    modifies root.Repr
    ensures r.Valid() && fresh(r.Repr - old(root.Repr))
    ensures Good(r.tree, c.lim) && multiset(Live(r.tree)) == multiset(Live(old(root.tree))) + multiset{p}
  {
    ghost var t := root.tree;
    var a := root.d.axis;
    r := AddByPoint(c, root, p, true, a);
    AddIsGood(c, t, p, a, r.tree);
  }

  method RemoveFrom(c: Config, root: KdNode?, b: Box, ds: bool) returns (r: KdNode?, count: int)
    requires root != null ==> root.Valid()
    requires Good(TreeOf(root), c.lim)
    modifies ReprOf(root)
    ensures r != null ==> r.Valid() && fresh(r.Repr - old(ReprOf(root)))
    ensures Good(TreeOf(r), c.lim) && (r == null <==> root == null)
    ensures multiset(Live(TreeOf(r))) == multiset(Filter(Live(old(TreeOf(root))), Not(In(b))))
    ensures count == |Filter(Live(old(TreeOf(root))), In(b))|
  {
    ghost var t := TreeOf(root);
    r, count := DeleteByRange(c, root, b, true, ds);
    DeleteIsGood(c, t, b, ds, E.Deleted(TreeOf(r), count));
  }

  class KdTree {
    const c: Config
    const downsampleSize: nat
    var root: KdNode?

    ghost function State(): Verdict
      reads this, root, ReprOf(root)
    {
      if downsampleSize > 0 && (root != null ==> root.Valid() && Good(root.tree, c.lim)) then Sound else Broken
    }

    ghost predicate Valid()
      reads this, root, ReprOf(root)
    {
      State().Sound?
    }

    /** What the tree stands for. */
    ghost function Points(): seq<Point>
      reads this, root
    {
      Live(TreeOf(root))
    }

    constructor (c: Config, downsampleSize: nat)
      requires downsampleSize > 0
      ensures Valid() && root == null && this.c == c && this.downsampleSize == downsampleSize
    {
      this.c := c;
      this.downsampleSize := downsampleSize;
      root := null;
    }

    /** Build. */
    method Build(cloud: seq<Point>)
      requires Valid()
      modifies this
      ensures Valid() && fresh(ReprOf(root))
      ensures multiset(Points()) == multiset(cloud) && (root == null <==> cloud == [])
    {
      root := BuildFrom(c, cloud);
    }

    /** size: stored points, deleted ones included. */
    method StoredCount() returns (n: int)
      requires Valid()
      ensures n == |Stored(TreeOf(root))|
    {
      CountersAreExact(TreeOf(root));
      n := if root != null then root.d.size else 0;
    }

    /** validnum: live points. */
    method ValidNum() returns (n: int)
      requires Valid()
      ensures n == |Points()|
    {
      CountersAreExact(TreeOf(root));
      n := if root != null then root.d.size - root.d.invalid else 0;
    }

    /** The tree of a map with a live point stores at most twice what is live, up to the thread limit. */
    lemma StaysLean()
      requires Valid() && Points() != []
      ensures 10 < |Stored(TreeOf(root))| < c.lim ==> |Stored(TreeOf(root))| <= 2 * |Points()|
    {
      StoredIsAtMostTwiceLive(TreeOf(root), c.lim);
    }

    /** Nearest_Search. */
    method NearestSearch(q: Vec, k: nat, maxDist: Ext) returns (points: seq<Point>, dists: seq<int>)
      requires Valid() && 1 <= k
      modifies ReprOf(root)
      ensures Valid() && Points() == old(Points()) && ReprOf(root) == old(ReprOf(root))
      ensures |points| == |dists| && N.Ascending(dists)
      ensures |points| == var n := |Filter(Points(), N.Within(q, N.Squared(maxDist)))|; if n < k then n else k
      ensures multiset(points) <= multiset(Points())
      ensures forall i :: 0 <= i < |points| ==>
        dists[i] == Dist(q, points[i].pos) && B.WithinLimit(dists[i], N.Squared(maxDist))
      ensures forall p, i ::
        (p in multiset(Points()) - multiset(points) && B.WithinLimit(Dist(q, p.pos), N.Squared(maxDist))
          && 0 <= i < |points|) ==>
          dists[i] <= Dist(q, p.pos)
      ensures forall i, j :: 0 <= i < j < |dists| ==> dists[i] <= dists[j]
      ensures maxDist.Inf? ==> |points| == if |Points()| < k then |Points()| else k
      ensures maxDist.Inf? ==> forall p, i ::
        p in multiset(Points()) - multiset(points) && 0 <= i < |points| ==> dists[i] <= Dist(q, p.pos)
      ensures maxDist.Fin? ==>
        |points| == var n := N.CountWithin(Points(), q, maxDist.v * maxDist.v); if n < k then n else k
      ensures maxDist.Fin? ==> forall i :: 0 <= i < |points| ==> dists[i] <= maxDist.v * maxDist.v
      ensures maxDist.Fin? ==> forall p, i ::
        p in multiset(Points()) - multiset(points) && 0 <= i < |points| && Dist(q, p.pos) <= maxDist.v * maxDist.v ==>
          dists[i] <= Dist(q, p.pos)
    {
      ghost var t := TreeOf(root);
      points, dists := N.NearestSearch(root, q, k, maxDist);
      SearchedIsGood(t, TreeOf(root), c.lim);
      N.NearestMeaning(k, Points(), q, N.Squared(maxDist), points, dists);
      match maxDist {
        case Inf => N.NearestOfAll(k, Points(), q, points, dists);
        case Fin(v) => N.NearestWithin(k, Points(), q, v, points, dists);
      }
    }

    /** Box_Search. */
    method BoxSearch(b: Box) returns (found: seq<Point>)
      requires Valid()
      modifies ReprOf(root)
      ensures Valid() && Points() == old(Points()) && ReprOf(root) == old(ReprOf(root))
      ensures (root == null) == old(root == null)
      ensures found == Filter(Points(), In(b))
    {
      ghost var t := TreeOf(root);
      found := SearchByRange(root, b, []);
      SearchedIsGood(t, TreeOf(root), c.lim);
    }

    /** Radius_Search. */
    method RadiusSearch(q: RVec, radius: real, sqrt: real -> real) returns (found: seq<Point>)
      requires Valid() && IsSqrt(sqrt)
      modifies ReprOf(root)
      ensures Valid() && Points() == old(Points()) && ReprOf(root) == old(ReprOf(root))
      ensures found == Reached(old(TreeOf(root)), q, radius, sqrt)
      ensures radius >= 0.0 ==> found == Filter(Points(), InBall(q, radius))
      ensures multiset(found) <= multiset(Filter(Points(), InBall(q, radius)))
    {
      ghost var t := TreeOf(root);
      found := SearchByRadius(root, q, radius, sqrt, []);
      ReachedIsLive(t, q, radius, sqrt);
      if radius >= 0.0 { ReachedIsBall(t, q, radius, sqrt); }
      SearchedIsGood(t, TreeOf(root), c.lim);
    }

    /** One Add_by_point from the root. */
    method Insert(p: Point)
      requires Valid() && root != null
      modifies this`root, ReprOf(root)
      ensures Valid() && root != null && fresh(ReprOf(root) - old(ReprOf(root)))
      ensures multiset(Points()) == old(multiset(Points())) + multiset{p}
    {
      var r := InsertAt(c, root, p);
      SetRoot(r);
    }

    /** One Delete_by_range from the root. */
    method Remove(b: Box, ds: bool) returns (count: int)
      requires Valid()
      modifies this`root, ReprOf(root)
      ensures Valid() && (root == null <==> old(root == null)) && fresh(ReprOf(root) - old(ReprOf(root)))
      ensures multiset(Points()) == multiset(Filter(old(Points()), Not(In(b))))
      ensures count == |Filter(old(Points()), In(b))|
    {
      var r, n := RemoveFrom(c, root, b, ds);
      SetRoot(r);
      count := n;
    }

    /** The edited tree takes the place of the old one. */
    method SetRoot(r: KdNode?)
      requires downsampleSize > 0 && (r != null ==> r.Valid()) && Good(TreeOf(r), c.lim)
      modifies `root
      ensures Valid() && root == r && Points() == Live(old(TreeOf(r)))
    {
      root := r;
      assert root != null ==> root.Valid() && root.tree == r.tree;
    }

    /** Add_Points without downsampling. The source reads Root_Node->division_axis for every point. */
    method AddAll(points: seq<Point>)
      requires Valid() && (points != [] ==> root != null)
      modifies this`root, ReprOf(root)
      ensures Valid() && (old(root != null) ==> root != null) && fresh(ReprOf(root) - old(ReprOf(root)))
      ensures multiset(Points()) == old(multiset(Points())) + multiset(points)
    {
      ghost var s := Points();
      var i := 0;
      assert Grown(s, points[..0], s);
      while i < |points|
        invariant i <= |points| && Valid() && (old(root != null) ==> root != null)
        invariant fresh(ReprOf(root) - old(ReprOf(root)))
        invariant Grown(s, points[..i], Points())
      {
        ghost var t := Points();
        Insert(points[i]);
        GrownStep(s, points, i, t, Points());
        i := i + 1;
      }
      assert points[..i] == points;
    }

    /** One round of the downsampling branch of Add_Points; OfferSettles and ReplacesInNumbers say it in coordinates. */
    method Offer(p: Point) returns (added: bool, ghost r: Point)
      requires Valid() && root != null
      modifies this`root, ReprOf(root)
      ensures Valid() && root != null && fresh(ReprOf(root) - old(ReprOf(root)))
      ensures Offered(old(Points()), p, downsampleSize, Points(), r)
      ensures added == Replaces(old(Points()), p, downsampleSize)
      ensures OfferStep(old(Points()), p, downsampleSize, Points()).Sound?
    {
      ghost var s := Points();
      ghost var v := Cell(p, downsampleSize);
      var b := CellBox(Cell(p, downsampleSize), downsampleSize);
      var storage := BoxSearch(b);
      var result := ClosestOf(p, storage, Cell(p, downsampleSize));
      FirstClosestIsFirst(p, storage, v, downsampleSize);
      r := result;
      added := |storage| > 1 || SamePoint(p, result);
      if added {
        if |storage| > 0 {
          var count := Remove(b, true);
        }
        ghost var between := ReprOf(root);
        assert fresh(between - old(ReprOf(root)));
        Insert(result);
        assert fresh(ReprOf(root) - between);
        OfferedByReplacing(s, p, downsampleSize, Points(), result);
      } else {
        OfferedByKeeping(s, p, downsampleSize, result);
      }
    }

    /** The scan for the point closest to the voxel centre; FirstClosestInNumbers says it in coordinates. */
    method ClosestOf(p: Point, storage: seq<Point>, v: Vec) returns (result: Point)
      ensures result == FirstClosest(p, storage, v, downsampleSize)
    {
      result := p;
      var minDist := CenterDist(p, v, downsampleSize);
      var i := 0;
      while i < |storage|
        invariant i <= |storage| && minDist == CenterDist(result, v, downsampleSize)
        invariant result == FirstClosest(p, storage[..i], v, downsampleSize)
      {
        assert storage[..i + 1][..i] == storage[..i];
        var d := CenterDist(storage[i], v, downsampleSize);
        if d < minDist {
          minDist := d;
          result := storage[i];
        }
        i := i + 1;
      }
      assert storage[..i] == storage;
    }

    /** The loop over the points to add. */
    method OfferAll(points: seq<Point>) returns (count: nat, ghost trace: seq<seq<Point>>)
      requires Valid() && (points != [] ==> root != null)
      modifies this`root, ReprOf(root)
      ensures Valid() && (old(root != null) ==> root != null) && fresh(ReprOf(root) - old(ReprOf(root)))
      ensures Thinned(old(Points()), points, downsampleSize, Points())
      ensures Offers(trace, points, downsampleSize).Sound? && |trace| == |points| + 1
      ensures trace[0] == old(Points()) && trace[|points|] == Points()
      ensures count == Rewrites(trace, points, downsampleSize, |points|)
    {
      ghost var s := Points();
      ThinnedNothing(s, downsampleSize);
      count, trace := 0, [s];
      var i := 0;
      assert points[..0] == [];
      while i < |points|
        invariant i <= |points| && Valid() && (old(root != null) ==> root != null)
        invariant fresh(ReprOf(root) - old(ReprOf(root)))
        invariant Thinned(s, points[..i], downsampleSize, Points())
        invariant Offers(trace, points[..i], downsampleSize).Sound? && |trace| == i + 1
        invariant trace[0] == s && trace[i] == Points()
        invariant count == Rewrites(trace, points, downsampleSize, i)
      {
        ghost var t := Points();
        var added, r := Offer(points[i]);
        OffersNext(trace, points, i, downsampleSize, Points());
        trace := trace + [Points()];
        PrefixStep(points, i);
        ThinnedStep(s, points[..i], downsampleSize, t, points[i], Points(), r);
        if added { count := count + 1; }
        i := i + 1;
      }
      assert points[..i] == points;
    }

    /** Add_Points with downsampling. */
    method AddDownsampled(points: seq<Point>) returns (count: nat, ghost trace: seq<seq<Point>>)
      requires Valid() && (points != [] ==> root != null)
      modifies this`root, ReprOf(root)
      ensures Valid() && (old(root != null) ==> root != null) && fresh(ReprOf(root) - old(ReprOf(root)))
      ensures Thinned(old(Points()), points, downsampleSize, Points())
      ensures Downsampling(old(Points()), points, downsampleSize, Points()).Sound?
      ensures Offers(trace, points, downsampleSize).Sound? && |trace| == |points| + 1
      ensures trace[0] == old(Points()) && trace[|points|] == Points()
      ensures count == Rewrites(trace, points, downsampleSize, |points|)
    {
      count, trace := OfferAll(points);
      ThinnedInNumbers(old(Points()), points, downsampleSize, Points());
    }

    /** Delete_Point_Boxes. */
    method DeletePointBoxes(boxes: seq<Box>) returns (count: int)
      requires Valid()
      modifies this`root, ReprOf(root)
      ensures Valid() && (root == null <==> old(root == null)) && fresh(ReprOf(root) - old(ReprOf(root)))
      ensures multiset(Points()) == multiset(Spared(old(Points()), boxes))
      ensures count == |old(Points())| - |Points()|
    {
      ghost var s := Points();
      count := 0;
      var i := 0;
      assert boxes[..0] == [];
      while i < |boxes|
        invariant i <= |boxes| && Valid() && (root == null <==> old(root == null))
        invariant fresh(ReprOf(root) - old(ReprOf(root)))
        invariant multiset(Points()) == multiset(Spared(s, boxes[..i]))
        invariant count == |s| - |Points()|
      {
        ghost var t := Points();
        var n := Remove(boxes[i], false);
        SparedStep(s, boxes, i, t, Points());
        count := count + n;
        i := i + 1;
      }
      assert boxes[..i] == boxes;
    }
  }
}
