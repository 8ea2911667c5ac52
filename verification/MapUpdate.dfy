/**
 map_incremental and the map side of timer_callback: which scan points go into the map, and what the
 map holds after one cycle of moving the window, building or adding.
 */
module MapUpdates {
  import opened Geometry
  import opened PointSeqs
  import opened Voxels
  import opened VoxelMeanings
  import opened KdNodes
  import opened KdTrees
  import opened LocalMaps

  const NUM_MATCH_POINTS := 5

  datatype Choice = Raw | Thin | Skip

  /** A scan point, and the map points that the last search found near it. */
  datatype ScanPoint = ScanPoint(world: Point, near: seq<Point>)

  /** More than half a voxel from the centre on one axis, in doubled coordinates. */
  predicate Beyond(c: int, v: int, d: nat) {
    LocalMaps.Abs(2 * c - (2 * v * d + d)) > d
  }

  /** The nearest map point is beyond the voxel on all three axes. */
  predicate AllBeyond(p: Point, v: Vec, d: nat) {
    Beyond(p.pos.x, v.x, d) && Beyond(p.pos.y, v.y, d) && Beyond(p.pos.z, v.z, d)
  }

  /** One of the five nearest map points is closer to the voxel centre than `p`. */
  ghost predicate Beaten(p: Point, near: seq<Point>, d: nat)
    requires d > 0
  {
    |near| >= NUM_MATCH_POINTS
    && exists i :: 0 <= i < NUM_MATCH_POINTS && CenterDist(near[i], Cell(p, d), d) < CenterDist(p, Cell(p, d), d)
  }

  ghost function Choose(s: ScanPoint, inited: bool, d: nat): Choice
    requires d > 0
  {
    if s.near == [] || !inited then Thin
    else if AllBeyond(s.near[0], Cell(s.world, d), d) then Raw
    else if Beaten(s.world, s.near, d) then Skip
    else Thin
  }

  /** The scan points of one kind, in order. */
  ghost function Chosen(scan: seq<ScanPoint>, inited: bool, d: nat, k: Choice): seq<Point>
    requires d > 0
  {
    if scan == [] then []
    else
      var n := |scan| - 1;
      Chosen(scan[..n], inited, d, k) + if Choose(scan[n], inited, d) == k then [scan[n].world] else []
  }

  lemma ChosenStep(scan: seq<ScanPoint>, i: nat, inited: bool, d: nat, k: Choice)
    requires d > 0 && i < |scan|
    ensures Chosen(scan[..i + 1], inited, d, k)
         == Chosen(scan[..i], inited, d, k) + if Choose(scan[i], inited, d) == k then [scan[i].world] else []
  {
    assert scan[..i + 1][..i] == scan[..i];
  }

  /** The groups keep the order of the scan. */
  lemma {:induction false} ChosenAppend(a: seq<ScanPoint>, b: seq<ScanPoint>, inited: bool, d: nat, k: Choice)
    requires d > 0
    ensures Chosen(a + b, inited, d, k) == Chosen(a, inited, d, k) + Chosen(b, inited, d, k)
  {
    if b == [] {
      assert a + b == a;
    } else {
      var n := |b| - 1;
      assert (a + b)[..|a + b| - 1] == a + b[..n];
      ChosenAppend(a, b[..n], inited, d, k);
    }
  }

  lemma BeatenInNumbers(p: Point, near: seq<Point>, d: nat)
    requires d > 0
    ensures Beaten(p, near, d) <==>
      |near| >= 5 && exists i :: 0 <= i < 5 && !NoFarther(p.pos, near[i].pos, LowCorner(p.pos, d), HighCorner(p.pos, d))
  {
    if |near| >= 5 {
      forall i | 0 <= i < 5
        ensures NoFarther(p.pos, near[i].pos, LowCorner(p.pos, d), HighCorner(p.pos, d))
           <==> CenterDist(p, Cell(p, d), d) <= CenterDist(near[i], Cell(p, d), d)
      {
        NoFartherExactly(p, near[i], p, d);
      }
    }
  }

  /** `q` is outside the voxel of `p` and its border on the axis with these coordinates. */
  predicate Outside(q: int, lo: int, hi: int) { q < lo || q > hi }

  /**
   The choice in coordinates: a point is plain when its nearest map point is outside its voxel and the
   border on all three axes, skipped when it is not and one of five is nearer to the centre, and
   downsampled otherwise, in particular when nothing is known near it or the filter is not initialised.
   */
  lemma ChoiceInNumbers(s: ScanPoint, inited: bool, d: nat)
    requires d > 0
    ensures var p, lo, hi := s.world.pos, LowCorner(s.world.pos, d), HighCorner(s.world.pos, d);
      var known := inited && |s.near| > 0;
      var apart := known && Outside(s.near[0].pos.x, lo.x, hi.x) && Outside(s.near[0].pos.y, lo.y, hi.y)
                         && Outside(s.near[0].pos.z, lo.z, hi.z);
      && (Choose(s, inited, d) == Raw <==> apart)
      && (Choose(s, inited, d) == Skip <==>
           known && !apart && |s.near| >= 5 && exists i :: 0 <= i < 5 && !NoFarther(p, s.near[i].pos, lo, hi))
  {
    BeatenInNumbers(s.world, s.near, d);
    if inited && |s.near| > 0 {
      var q, v := s.near[0], Cell(s.world, d);
      BeyondExactly(q.pos.x, v.x, d);
      BeyondExactly(q.pos.y, v.y, d);
      BeyondExactly(q.pos.z, v.z, d);
    }
  }

  lemma BeyondExactly(c: int, v: int, d: nat)
    ensures Beyond(c, v, d) <==> Outside(c, v * d, v * d + d)
  {
    assert 2 * v * d == 2 * (v * d);
  }

  /** The search for a closer neighbour. */
  method IsBeaten(p: Point, near: seq<Point>, d: nat) returns (beaten: bool)
    requires d > 0
    ensures beaten <==> Beaten(p, near, d)
    ensures beaten <==>
      |near| >= 5 && exists i :: 0 <= i < 5 && !NoFarther(p.pos, near[i].pos, LowCorner(p.pos, d), HighCorner(p.pos, d))
  {
    BeatenInNumbers(p, near, d);
    beaten := false;
    var i := 0;
    while i < NUM_MATCH_POINTS
      invariant i <= NUM_MATCH_POINTS && (|near| < NUM_MATCH_POINTS ==> i == 0)
      invariant forall j :: 0 <= j < i ==> CenterDist(near[j], Cell(p, d), d) >= CenterDist(p, Cell(p, d), d)
    {
      if |near| < NUM_MATCH_POINTS { break; }
      if CenterDist(near[i], Cell(p, d), d) < CenterDist(p, Cell(p, d), d) {
        return true;
      }
      i := i + 1;
    }
  }

  /** The selection loop of map_incremental. */
  method Select(scan: seq<ScanPoint>, inited: bool, d: nat) returns (thin: seq<Point>, raw: seq<Point>)
    requires d > 0
    ensures thin == Chosen(scan, inited, d, Thin) && raw == Chosen(scan, inited, d, Raw)
  {
    thin, raw := [], [];
    var i := 0;
    while i < |scan|
      invariant i <= |scan|
      invariant thin == Chosen(scan[..i], inited, d, Thin) && raw == Chosen(scan[..i], inited, d, Raw)
    {
      var p, near := scan[i].world, scan[i].near;
      ChosenStep(scan, i, inited, d, Thin);
      ChosenStep(scan, i, inited, d, Raw);
      i := i + 1;
      if near != [] && inited {
        if AllBeyond(near[0], Cell(p, d), d) {
          raw := raw + [p];
          continue;
        }
        var beaten := IsBeaten(p, near, d);
        if !beaten {
          thin := thin + [p];
        }
      } else {
        thin := thin + [p];
      }
    }
    assert scan[..i] == scan;
  }

  /** map_incremental: first the downsampled points, then the others. */
  method MapIncremental(tree: KdTree, scan: seq<ScanPoint>, inited: bool) returns (ghost mid: seq<Point>)
    requires tree.Valid() && tree.root != null
    modifies tree`root, ReprOf(tree.root)
    ensures tree.Valid() && tree.root != null && fresh(ReprOf(tree.root) - old(ReprOf(tree.root)))
    ensures Thinned(old(tree.Points()), Chosen(scan, inited, tree.downsampleSize, Thin), tree.downsampleSize, mid)
    ensures multiset(tree.Points()) == multiset(mid) + multiset(Chosen(scan, inited, tree.downsampleSize, Raw))
    ensures AtMostOnePerCell(old(tree.Points()), tree.downsampleSize) ==>
      (AtMostOnePerCell(tree.Points(), tree.downsampleSize) <==>
       RawFits(old(tree.Points()), Chosen(scan, inited, tree.downsampleSize, Thin),
               Chosen(scan, inited, tree.downsampleSize, Raw), tree.downsampleSize))
  {
    ghost var s := tree.Points();
    var thin, raw := Select(scan, inited, tree.downsampleSize);
    mid := AddBoth(tree, thin, raw);
    if AtMostOnePerCell(s, tree.downsampleSize) {
      MapStaysThinExactly(s, thin, raw, tree.downsampleSize, mid, tree.Points());
    }
  }

  /** The two calls of Add_Points. */
  method AddBoth(tree: KdTree, thin: seq<Point>, raw: seq<Point>) returns (ghost mid: seq<Point>)
    requires tree.Valid() && tree.root != null
    modifies tree`root, ReprOf(tree.root)
    ensures tree.Valid() && tree.root != null && fresh(ReprOf(tree.root) - old(ReprOf(tree.root)))
    ensures Thinned(old(tree.Points()), thin, tree.downsampleSize, mid)
    ensures multiset(tree.Points()) == multiset(mid) + multiset(raw)
  {
    var _, _ := tree.AddDownsampled(thin);
    mid := tree.Points();
    tree.AddAll(raw);
  }

  /** A first map, or more points for the map that is there. */
  method Grow(tree: KdTree, scan: seq<ScanPoint>, inited: bool) returns (ghost mid: seq<Point>)
    requires tree.Valid()
    modifies tree, ReprOf(tree.root)
    ensures tree.Valid() && fresh(ReprOf(tree.root) - old(ReprOf(tree.root)))
    ensures tree.root != null <==> old(tree.root != null) || |scan| > 5
    ensures old(tree.root == null) && |scan| > 5 ==> multiset(tree.Points()) == multiset(Worlds(scan))
    ensures |scan| < (if old(tree.root == null) then 6 else 5) ==> tree.Points() == old(tree.Points())
    ensures old(tree.root != null) && |scan| >= 5 ==>
      && Thinned(old(tree.Points()), Chosen(scan, inited, tree.downsampleSize, Thin), tree.downsampleSize, mid)
      && multiset(tree.Points()) == multiset(mid) + multiset(Chosen(scan, inited, tree.downsampleSize, Raw))
  {
    mid := tree.Points();
    if tree.root == null {
      if |scan| > 5 {
        tree.Build(Worlds(scan));
      }
      return;
    }
    if |scan| < 5 {
      return;
    }
    mid := MapIncremental(tree, scan, inited);
  }

  /**
   The map side of one timer_callback with a scan: move the window, then build a first map from more
   than five points, or add the points of a scan of at least five.
   */
  method Cycle(local: LocalMap, tree: KdTree, pos: Vec, scan: seq<ScanPoint>, inited: bool)
      returns (ghost dropped: seq<Point>, ghost mid: seq<Point>)
    requires tree.Valid()
    modifies local, tree, ReprOf(tree.root)
    ensures tree.Valid() && fresh(ReprOf(tree.root) - old(ReprOf(tree.root)))
    ensures local.initialized && (tree.root != null <==> old(tree.root != null) || |scan| > 5)
    ensures if old(local.initialized) then Moved(old(local.window), pos, local.cube, local.reach, local.window)
      else Centred(local.window, pos, local.cube)
    ensures old(local.initialized) ==>
      multiset(dropped) == multiset(Spared(old(tree.Points()),
        Slabs(old(local.window), pos, local.cube, local.reach, 3)))
    ensures !old(local.initialized) ==> dropped == old(tree.Points())
    ensures old(tree.root == null) && |scan| > 5 ==> multiset(tree.Points()) == multiset(Worlds(scan))
    ensures |scan| < (if old(tree.root == null) then 6 else 5) ==> tree.Points() == dropped
    ensures old(tree.root != null) && |scan| >= 5 ==>
      && Thinned(dropped, Chosen(scan, inited, tree.downsampleSize, Thin), tree.downsampleSize, mid)
      && multiset(tree.Points()) == multiset(mid) + multiset(Chosen(scan, inited, tree.downsampleSize, Raw))
  {
    var _ := local.FovSegment(pos, tree);
    dropped := tree.Points();
    mid := Grow(tree, scan, inited);
  }

  function Worlds(scan: seq<ScanPoint>): (w: seq<Point>)
    ensures |w| == |scan|
  {
    seq(|scan|, i requires 0 <= i < |scan| => scan[i].world)
  }

  // ---------- What the selection does to a thin map ----------

  /** A point that is added without downsampling has its nearest map point outside its voxel. */
  lemma RawNeighbourIsElsewhere(s: ScanPoint, inited: bool, d: nat)
    requires d > 0 && Choose(s, inited, d) == Raw
    ensures s.near != [] && Cell(s.near[0], d) != Cell(s.world, d)
  {
    var v := Cell(s.world, d);
    BoxIsCell(s.near[0], d, v);
  }

  /** In a thin map an offer changes nothing exactly when the survivor was the voxel's point already. */
  lemma OfferChangesNothing(s: seq<Point>, p: Point, d: nat, t: seq<Point>, r: Point)
    requires d > 0 && AtMostOnePerCell(s, d) && Offered(s, p, d, t, r)
    ensures multiset(t) == multiset(s) <==> Filter(s, InCell(Cell(p, d), d)) == [r]
  {
    var f := InCell(Cell(p, d), d);
    OwnCell(s, p, d, t, r, Cell(p, d));
    FilterSplit(s, f);
    if multiset(t) == multiset(s) {
      FilterPermutation(t, s, f);
      OnePoint(Filter(s, f), r);
    }
  }

  /**
   When offering a scan point would have left a thin map as it is, so that skipping it loses nothing:
   exactly when the point is in the map already or a map point of its own voxel beats it.
   */
  lemma SkipIsLosslessExactly(s: seq<Point>, p: Point, d: nat, t: seq<Point>, r: Point)
    requires d > 0 && AtMostOnePerCell(s, d) && Offered(s, p, d, t, r)
    ensures multiset(t) == multiset(s) <==>
      exists q :: q in s && Cell(q, d) == Cell(p, d)
               && (q == p || CenterDist(q, Cell(p, d), d) < CenterDist(p, Cell(p, d), d))
  {
    var v := Cell(p, d);
    var own := Filter(s, InCell(v, d));
    OfferChangesNothing(s, p, d, t, r);
    assert |own| <= 1;
    if own == [r] {
      FilterMember(s, InCell(v, d), r);
      BoxIsCell(r, d, v);
    }
    if q :| q in s && Cell(q, d) == v && (q == p || CenterDist(q, v, d) < CenterDist(p, v, d)) {
      BoxIsCell(q, d, v);
      FilterMember(s, InCell(v, d), q);
      assert own == [q];
    }
  }

  /** No plain point lands in a voxel that the map or the downsampled points touch, nor two in one. */
  ghost predicate RawFits(s: seq<Point>, thin: seq<Point>, raw: seq<Point>, d: nat)
    requires d > 0
  {
    && Fits(s, raw, d)
    && forall i :: 0 <= i < |raw| ==> Filter(thin, InCell(Cell(raw[i], d), d)) == []
  }

  /** When map_incremental keeps a thin map thin, told from the map and the scan before the call. */
  lemma MapStaysThinExactly(s: seq<Point>, thin: seq<Point>, raw: seq<Point>, d: nat, mid: seq<Point>, t: seq<Point>)
    requires d > 0 && AtMostOnePerCell(s, d)
    requires Thinned(s, thin, d, mid) && multiset(t) == multiset(mid) + multiset(raw)
    ensures AtMostOnePerCell(t, d) <==> RawFits(s, thin, raw, d)
  {
    ThinnedStaysThin(s, thin, d, mid);
    AddStaysThinExactly(mid, raw, d, t);
    forall i | 0 <= i < |raw|
      ensures Filter(mid, InCell(Cell(raw[i], d), d)) == [] <==>
        Filter(s, InCell(Cell(raw[i], d), d)) == [] && Filter(thin, InCell(Cell(raw[i], d), d)) == []
    {
      ThinnedLeavesEmpty(s, thin, d, mid, Cell(raw[i], d));
    }
  }

  /**
   The code does not always keep it: the whole map is two points in two voxels, the search finds both
   in order of distance, and the scan point is added as it is to the voxel of the farther one.
   */
  lemma RawCanCrowdVoxel() returns (s: ScanPoint, stored: seq<Point>, d: nat)
    ensures d > 0 && AtMostOnePerCell(stored, d) && s.near == stored
    ensures forall i, j :: 0 <= i < j < |s.near| ==>
      Dist(s.world.pos, s.near[i].pos) <= Dist(s.world.pos, s.near[j].pos)
    ensures Choose(s, true, d) == Raw && !AtMostOnePerCell(stored + [s.world], d)
  {
    d := 4;
    var p, near, far := Point(Vec(0, 0, 0), 0), Point(Vec(-1, -1, -1), 0), Point(Vec(3, 3, 3), 0);
    stored := [near, far];
    s := ScanPoint(p, stored);
    CornersApart(near, p);
    CornersApart(near, far);
    CellsDiffer(stored, 4);
    AllBeyondByCorner(near);
    Crowded(stored, p, far);
  }

  lemma CornersApart(p: Point, q: Point)
    requires p.pos == Vec(-1, -1, -1) && (q.pos == Vec(0, 0, 0) || q.pos == Vec(3, 3, 3))
    ensures Cell(p, 4) != Cell(q, 4) && Cell(q, 4) == Vec(0, 0, 0)
  {
    FloorInterval(-1, 4, -1);
    FloorInterval(q.pos.x, 4, 0);
  }

  lemma AllBeyondByCorner(p: Point)
    requires p.pos == Vec(-1, -1, -1)
    ensures AllBeyond(p, Vec(0, 0, 0), 4)
  {
  }

  /** A second point in the voxel of a stored one. */
  lemma Crowded(stored: seq<Point>, p: Point, q: Point)
    requires AtMostOnePerCell(stored, 4) && q in stored && Cell(q, 4) == Cell(p, 4)
    ensures !AtMostOnePerCell(stored + [p], 4)
  {
    BoxIsCell(q, 4, Cell(p, 4));
    FilterMember(stored, InCell(Cell(p, 4), 4), q);
    AddStaysThinExactly(stored, [p], 4, stored + [p]);
    assert [p][0] == p;
  }

  /** Points in a row beside the voxel of side 4 at the origin, one in each voxel. */
  function Beside(i: nat): (p: Point)
    ensures Cell(p, 4) == Vec(-1 - i, 0, 0)
  {
    Point(Vec(-1 - 4 * i, 2, 2), 0)
  }

  function Row(): (s: seq<Point>)
    ensures |s| == NUM_MATCH_POINTS && forall i: nat :: i < |s| ==> s[i] == Beside(i)
  {
    [Beside(0), Beside(1), Beside(2), Beside(3), Beside(4)]
  }

  lemma RowIsBeside()
    ensures AtMostOnePerCell(Row(), 4) && Filter(Row(), InCell(Vec(0, 0, 0), 4)) == []
  {
    var row := Row();
    forall i, j | 0 <= i < j < |row|
      ensures Cell(row[i], 4) != Cell(row[j], 4)
    {
      assert row[i] == Beside(i) && row[j] == Beside(j);
    }
    CellsDiffer(Row(), 4);
    forall q | q in Row()
      ensures !InBox(q, CellBox(Vec(0, 0, 0), 4))
    {
      assert q.pos.x < 0;
    }
    FilterNone(Row(), InCell(Vec(0, 0, 0), 4));
  }

  lemma RowBeatsOrigin(p: Point)
    requires p == Point(Vec(0, 0, 0), 0)
    ensures Choose(ScanPoint(p, Row()), true, 4) == Skip
  {
    assert Cell(p, 4) == Vec(0, 0, 0);
    assert Row()[0] == Beside(0) && CenterDist(Beside(0), Vec(0, 0, 0), 4) < CenterDist(p, Vec(0, 0, 0), 4);
    assert !Beyond(Beside(0).pos.y, 0, 4);
  }

  /** The neighbour may lie in another voxel, though: then a voxel without a point stays without. */
  lemma SkipCanLeaveVoxelEmpty() returns (s: ScanPoint, stored: seq<Point>, d: nat)
    ensures d > 0 && AtMostOnePerCell(stored, d) && (forall q :: q in s.near ==> q in stored)
    ensures Choose(s, true, d) == Skip && Filter(stored, InCell(Cell(s.world, d), d)) == []
  {
    d := 4;
    stored := Row();
    s := ScanPoint(Point(Vec(0, 0, 0), 0), stored);
    RowIsBeside();
    RowBeatsOrigin(s.world);
    assert Cell(s.world, 4) == Vec(0, 0, 0);
  }
}
