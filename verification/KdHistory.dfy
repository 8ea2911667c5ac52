/**
 Whole histories of the operations the mapping node uses. The tree refines a step relation over its
 live points, and the results below hold after every history.
 */
module KdHistories {
  import opened Verdicts
  import opened Geometry
  import opened PointSeqs
  import opened Voxels
  import opened KdNodes
  import opened KdTrees
  import opened Balls

  datatype MapOp =
    | BuildOp(cloud: seq<Point>)    // Build
    | AddOp(points: seq<Point>)     // Add_Points(points, false)
    | ThinOp(points: seq<Point>)    // Add_Points(points, true)
    | DropOp(boxes: seq<Box>)       // Delete_Point_Boxes
    | NearestOp(q: Vec, k: nat, maxDist: Ext)
    | BoxOp(b: Box)
    | RadiusOp(center: RVec, radius: real)

  ghost predicate Step(s: seq<Point>, op: MapOp, d: nat, t: seq<Point>) {
    match op
    case BuildOp(cloud) => multiset(t) == multiset(cloud)
    case AddOp(points) => multiset(t) == multiset(s) + multiset(points)
    case ThinOp(points) => Thinned(s, points, d, t)
    case DropOp(boxes) => multiset(t) == multiset(Spared(s, boxes))
    case NearestOp(_, _, _) => t == s
    case BoxOp(_) => t == s
    case RadiusOp(_, _) => t == s
  }

  /** `trace[i]` is live after the first `i` operations. */
  ghost predicate Explains(trace: seq<seq<Point>>, ops: seq<MapOp>, d: nat) {
    |trace| == |ops| + 1 && trace[0] == [] && Account(trace, ops, d).Sound?
  }

  ghost function Account(trace: seq<seq<Point>>, ops: seq<MapOp>, d: nat): Verdict
    requires |trace| == |ops| + 1
  {
    if forall i :: 0 <= i < |ops| ==> Step(trace[i], ops[i], d, trace[i + 1]) then Sound else Broken
  }

  /** The mapping node adds nothing before it has built a map, and builds from points only. */
  predicate Orderly(ops: seq<MapOp>) {
    && (forall i :: 0 <= i < |ops| && ops[i].BuildOp? ==> ops[i].cloud != [])
    && (forall i :: 0 <= i < |ops| && (ops[i].AddOp? || ops[i].ThinOp?) ==> ops[0].BuildOp?)
    && (forall i :: 0 <= i < |ops| && ops[i].NearestOp? ==> 1 <= ops[i].k)
  }

  /** One operation on the heap; a map that is there stays there. */
  method Perform(tree: KdTree, op: MapOp, sqrt: real -> real)
    requires tree.Valid() && IsSqrt(sqrt) && (op.NearestOp? ==> 1 <= op.k)
    requires (op.AddOp? || op.ThinOp?) && op.points != [] ==> tree.root != null
    requires op.BuildOp? ==> op.cloud != []
    modifies tree, ReprOf(tree.root)
    ensures tree.Valid() && Step(old(tree.Points()), op, tree.downsampleSize, tree.Points())
    ensures op.BuildOp? || old(tree.root != null) ==> tree.root != null
    ensures fresh(ReprOf(tree.root) - old(ReprOf(tree.root)))
  {
    match op
    case BuildOp(cloud) => tree.Build(cloud);
    case AddOp(points) => tree.AddAll(points);
    case ThinOp(points) => var _, _ := tree.AddDownsampled(points);
    case DropOp(boxes) => var _ := tree.DeletePointBoxes(boxes);
    case NearestOp(q, k, maxDist) => var _, _ := tree.NearestSearch(q, k, maxDist);
    case BoxOp(b) => var _ := tree.BoxSearch(b);
    case RadiusOp(center, radius) => var _ := tree.RadiusSearch(center, radius, sqrt);
  }

  /** The next operation of a history, entered into the trace. */
  method PerformNext(tree: KdTree, ops: seq<MapOp>, i: nat, sqrt: real -> real, ghost trace: seq<seq<Point>>)
      returns (ghost longer: seq<seq<Point>>)
    requires IsSqrt(sqrt) && tree.Valid() && Orderly(ops) && i < |ops|
      && (i > 0 && ops[0].BuildOp? ==> tree.root != null)
    requires Explains(trace, ops[..i], tree.downsampleSize) && trace[i] == tree.Points()
    modifies tree, ReprOf(tree.root)
    ensures tree.Valid() && (ops[0].BuildOp? ==> tree.root != null)
    ensures fresh(ReprOf(tree.root) - old(ReprOf(tree.root)))
    ensures Explains(longer, ops[..i + 1], tree.downsampleSize) && longer[i + 1] == tree.Points()
  {
    Perform(tree, ops[i], sqrt);
    TraceStep(trace, ops, i, tree.downsampleSize, tree.Points());
    longer := trace + [tree.Points()];
  }

  /** Every orderly history runs without touching a null root, and its trace explains the tree. */
  method RunHistory(tree: KdTree, ops: seq<MapOp>, sqrt: real -> real) returns (ghost trace: seq<seq<Point>>)
    requires tree.Valid() && tree.root == null && Orderly(ops) && IsSqrt(sqrt)
    modifies tree
    ensures tree.Valid() && (ops != [] && ops[0].BuildOp? ==> tree.root != null)
    ensures Explains(trace, ops, tree.downsampleSize) && trace[|ops|] == tree.Points()
  {
    trace := [[]];
    var i := 0;
    while i < |ops|
      invariant i <= |ops| && tree.Valid() && fresh(ReprOf(tree.root))
      invariant i > 0 && ops[0].BuildOp? ==> tree.root != null
      invariant Explains(trace, ops[..i], tree.downsampleSize) && trace[i] == tree.Points()
    {
      trace := PerformNext(tree, ops, i, sqrt, trace);
      i := i + 1;
    }
    assert ops[..i] == ops;
  }

  lemma TraceStep(trace: seq<seq<Point>>, ops: seq<MapOp>, i: nat, d: nat, t: seq<Point>)
    requires i < |ops| && Explains(trace, ops[..i], d) && Step(trace[i], ops[i], d, t)
    ensures Explains(trace + [t], ops[..i + 1], d)
  {
    var longer := trace + [t];
    forall j | 0 <= j < i + 1
      ensures Step(longer[j], ops[..i + 1][j], d, longer[j + 1])
    {
      if j < i { assert Step(trace[j], ops[..i][j], d, trace[j + 1]); }
    }
  }

  // ---------- Conservation ----------

  /** How often `p` is in the map, counted over the history alone: no tree, no boxes cached. */
  ghost function Multiplicity(ops: seq<MapOp>, p: Point): nat {
    if ops == [] then 0
    else
      var before, last := Multiplicity(ops[..|ops| - 1], p), ops[|ops| - 1];
      match last
      case BuildOp(cloud) => multiset(cloud)[p]
      case AddOp(points) => before + multiset(points)[p]
      case ThinOp(_) => before
      case DropOp(boxes) => if DropsPoint(boxes, p) then 0 else before
      case _ => before
  }

  /** Without downsampling the map is exactly the multiset the history describes. */
  lemma {:induction false} HistoryIsMultiset(trace: seq<seq<Point>>, ops: seq<MapOp>, d: nat, p: Point)
    requires Explains(trace, ops, d)
    requires forall op :: op in ops ==> !op.ThinOp?
    ensures multiset(trace[|ops|])[p] == Multiplicity(ops, p)
  {
    if ops != [] {
      var n := |ops| - 1;
      assert Step(trace[n], ops[n], d, trace[n + 1]);
      HistoryIsMultiset(trace[..n + 1], ops[..n], d, p);
      if ops[n].DropOp? { SparedAt(trace[n], ops[n].boxes, p); }
    }
  }

  function Given(op: MapOp): seq<Point> {
    match op
    case BuildOp(cloud) => cloud
    case AddOp(points) => points
    case ThinOp(points) => points
    case _ => []
  }

  lemma ThinnedInventsNothing(s: seq<Point>, ps: seq<Point>, d: nat, t: seq<Point>, p: Point)
    requires d > 0 && Thinned(s, ps, d, t) && p in t
    ensures p in s || p in ps
  {
    var v := Cell(p, d);
    var f := InCell(v, d);
    BoxIsCell(p, d, v);
    assert CellThinned(s, ps, d, t, v);
    FilterMember(t, f, p);
    FilterMember(s, f, p);
    FilterMember(ps, f, p);
    if Filter(ps, f) == [] {
      SameMembers(Filter(t, f), Filter(s, f));
    }
  }

  lemma StepInventsNothing(s: seq<Point>, op: MapOp, d: nat, t: seq<Point>, p: Point)
    requires d > 0 && Step(s, op, d, t) && p in t && p !in Given(op)
    ensures p in s && (op.DropOp? ==> !DropsPoint(op.boxes, p))
  {
    assert p in multiset(t);
    match op
    case BuildOp(cloud) => SameMembers(t, cloud);
    case AddOp(points) => assert p in multiset(s) || p in multiset(points);
    case ThinOp(points) => ThinnedInventsNothing(s, points, d, t, p);
    case DropOp(boxes) => SparedAt(s, boxes, p); assert p in multiset(s);
    case _ =>
  }

  /** A point is in the map only if some operation put it there after the last box that holds it. */
  lemma {:induction false} NothingInvented(trace: seq<seq<Point>>, ops: seq<MapOp>, d: nat, p: Point) returns (j: nat)
    requires d > 0 && Explains(trace, ops, d) && p in trace[|ops|]
    ensures j < |ops| && p in Given(ops[j])
    ensures forall i :: j < i < |ops| && ops[i].DropOp? ==> !DropsPoint(ops[i].boxes, p)
  {
    var n := |ops| - 1;
    assert Step(trace[n], ops[n], d, trace[n + 1]);
    if p in Given(ops[n]) {
      j := n;
    } else {
      StepInventsNothing(trace[n], ops[n], d, trace[n + 1], p);
      j := NothingInvented(trace[..n + 1], ops[..n], d, p);
      forall i | j < i < n && ops[i].DropOp?
        ensures !DropsPoint(ops[i].boxes, p)
      {
        assert ops[..n][i] == ops[i];
      }
    }
  }

  // ---------- At most one point per voxel ----------

  /** What an operation has to bring so that a thin map stays thin. */
  ghost predicate OpFits(s: seq<Point>, op: MapOp, d: nat)
    requires d > 0
  {
    match op
    case BuildOp(cloud) => AtMostOnePerCell(cloud, d)
    case AddOp(points) => Fits(s, points, d)
    case _ => true
  }

  lemma SamePointsThin(s: seq<Point>, t: seq<Point>, d: nat)
    requires multiset(s) == multiset(t) && AtMostOnePerCell(s, d)
    ensures AtMostOnePerCell(t, d)
  {
    forall v: Vec
      ensures |Filter(t, InCell(v, d))| <= 1
    {
      FilterPermutation(s, t, InCell(v, d));
      SameMembers(Filter(s, InCell(v, d)), Filter(t, InCell(v, d)));
      assert |Filter(s, InCell(v, d))| <= 1;
    }
  }

  lemma {:induction false} SparedIsThin(s: seq<Point>, boxes: seq<Box>, d: nat)
    requires AtMostOnePerCell(s, d)
    ensures AtMostOnePerCell(Spared(s, boxes), d)
  {
    if boxes != [] {
      var front, last := boxes[..|boxes| - 1], boxes[|boxes| - 1];
      SparedIsThin(s, front, d);
      DeletionStaysThin(Spared(s, front), Not(In(last)), d, Spared(s, boxes));
    }
  }

  /** One step from a thin map. */
  lemma StepStaysThinExactly(s: seq<Point>, op: MapOp, d: nat, t: seq<Point>)
    requires d > 0 && Step(s, op, d, t) && AtMostOnePerCell(s, d)
    ensures AtMostOnePerCell(t, d) <==> OpFits(s, op, d)
  {
    match op
    case BuildOp(cloud) =>
      if AtMostOnePerCell(cloud, d) { SamePointsThin(cloud, t, d); }
      if AtMostOnePerCell(t, d) { SamePointsThin(t, cloud, d); }
    case AddOp(points) => AddStaysThinExactly(s, points, d, t);
    case ThinOp(points) => ThinnedStaysThin(s, points, d, t);
    case DropOp(boxes) => SparedIsThin(s, boxes, d); SamePointsThin(Spared(s, boxes), t, d);
    case _ =>
  }

  /** A map to which only fitting operations were applied is thin. */
  lemma {:induction false} HistoryStaysThin(trace: seq<seq<Point>>, ops: seq<MapOp>, d: nat, i: nat)
    requires d > 0 && Explains(trace, ops, d) && i <= |ops|
    requires forall j :: 0 <= j < i ==> OpFits(trace[j], ops[j], d)
    ensures AtMostOnePerCell(trace[i], d)
  {
    if i > 0 {
      HistoryStaysThin(trace, ops, d, i - 1);
      assert Step(trace[i - 1], ops[i - 1], d, trace[i - 1 + 1]) && OpFits(trace[i - 1], ops[i - 1], d);
      StepStaysThinExactly(trace[i - 1], ops[i - 1], d, trace[i]);
    }
  }

  /**
   Over a whole history no voxel ever holds two points if and only if every built cloud was thin and
   every point added without downsampling fitted; downsampled adds, deletions and searches always do.
   */
  lemma HistoryIsThinExactly(trace: seq<seq<Point>>, ops: seq<MapOp>, d: nat)
    requires d > 0 && Explains(trace, ops, d)
    ensures (forall i :: 0 <= i <= |ops| ==> AtMostOnePerCell(trace[i], d))
       <==> (forall i :: 0 <= i < |ops| ==> OpFits(trace[i], ops[i], d))
  {
    if forall i :: 0 <= i <= |ops| ==> AtMostOnePerCell(trace[i], d) {
      forall i | 0 <= i < |ops|
        ensures OpFits(trace[i], ops[i], d)
      {
        assert Step(trace[i], ops[i], d, trace[i + 1]);
        StepStaysThinExactly(trace[i], ops[i], d, trace[i + 1]);
      }
    }
    if forall i :: 0 <= i < |ops| ==> OpFits(trace[i], ops[i], d) {
      forall i | 0 <= i <= |ops|
        ensures AtMostOnePerCell(trace[i], d)
      {
        HistoryStaysThin(trace, ops, d, i);
      }
    }
  }
}
