/** Runs of mapping cycles: what the map and its window keep while scan after scan arrives. */
module MapHistories {
  import opened Verdicts
  import opened Geometry
  import opened PointSeqs
  import opened Voxels
  import opened KdNodes
  import opened KdTrees
  import opened LocalMaps
  import opened MapUpdates
  import H = KdHistories

  /** What one call of timer_callback is given: where the sensor is, the scan, and flg_EKF_inited. */
  datatype Input = Input(pos: Vec, scan: seq<ScanPoint>, inited: bool)

  /** The map between two cycles: its live points, whether there is a tree, and the window. */
  datatype Moment = Moment(points: seq<Point>, built: bool, started: bool, window: Box)

  /** filter_size_map_min, cube_len and DET_RANGE. */
  datatype Params = Params(d: nat, cube: int, reach: int)

  ghost function NowOf(local: LocalMap, tree: KdTree): Moment
    reads local, tree, ReprOf(tree.root)
    requires tree.Valid()
  {
    Moment(tree.Points(), tree.root != null, local.initialized, local.window)
  }

  /** What a cycle deletes before it adds anything. */
  function LeftBehind(a: Moment, x: Input, m: Params): seq<Box> {
    if a.started then Slabs(a.window, x.pos, m.cube, m.reach, 3) else []
  }

  /** What the scan makes of the live points `s`. */
  ghost predicate ScanAdded(s: seq<Point>, built: bool, x: Input, d: nat, t: seq<Point>)
    requires d > 0
  {
    if |x.scan| < (if built then 5 else 6) then t == s
    else if !built then multiset(t) == multiset(Worlds(x.scan))
    else exists mid :: Incremented(s, x, d, mid, t)
  }

  /** map_incremental: first the downsampled points, then the plain ones. */
  ghost predicate Incremented(s: seq<Point>, x: Input, d: nat, mid: seq<Point>, t: seq<Point>)
    requires d > 0
  {
    && Thinned(s, Chosen(x.scan, x.inited, d, Thin), d, mid)
    && multiset(t) == multiset(mid) + multiset(Chosen(x.scan, x.inited, d, Raw))
  }

  ghost predicate WindowStep(a: Moment, x: Input, m: Params, b: Moment) {
    b.started && if a.started then Moved(a.window, x.pos, m.cube, m.reach, b.window)
      else Centred(b.window, x.pos, m.cube)
  }

  ghost predicate PointStep(a: Moment, x: Input, m: Params, kept: seq<Point>, b: Moment)
    requires m.d > 0
  {
    multiset(kept) == multiset(Spared(a.points, LeftBehind(a, x, m))) && ScanAdded(kept, a.built, x, m.d, b.points)
  }

  ghost function CycleStep(a: Moment, x: Input, m: Params, b: Moment): Verdict
    requires m.d > 0
  {
    if WindowStep(a, x, m, b) && (b.built <==> a.built || |x.scan| > 5) && exists kept :: PointStep(a, x, m, kept, b)
    then Sound else Broken
  }

  /** `run[i]` is the map after `i` cycles. */
  ghost predicate IsRun(run: seq<Moment>, xs: seq<Input>, m: Params)
    requires m.d > 0
  {
    |run| == |xs| + 1 && forall i :: 0 <= i < |xs| ==> CycleStep(run[i], xs[i], m, run[i + 1]).Sound?
  }

  // ---------- The code makes such runs ----------

  method OneCycle(local: LocalMap, tree: KdTree, x: Input)
    requires tree.Valid()
    modifies local, tree, ReprOf(tree.root)
    ensures tree.Valid() && fresh(ReprOf(tree.root) - old(ReprOf(tree.root)))
    ensures CycleStep(old(NowOf(local, tree)), x, Params(tree.downsampleSize, local.cube, local.reach),
      NowOf(local, tree)).Sound?
  {
    ghost var a, m := NowOf(local, tree), Params(tree.downsampleSize, local.cube, local.reach);
    ghost var dropped, mid := Cycle(local, tree, x.pos, x.scan, x.inited);
    ghost var b := NowOf(local, tree);
    if a.built && |x.scan| >= 5 {
      assert Incremented(dropped, x, m.d, mid, b.points);
    }
    assert PointStep(a, x, m, dropped, b);
  }

  /** Any number of cycles, from any map. */
  method RunCycles(local: LocalMap, tree: KdTree, xs: seq<Input>) returns (ghost run: seq<Moment>)
    requires tree.Valid()
    modifies local, tree, ReprOf(tree.root)
    ensures tree.Valid() && fresh(ReprOf(tree.root) - old(ReprOf(tree.root)))
    ensures IsRun(run, xs, Params(tree.downsampleSize, local.cube, local.reach))
    ensures run[0] == old(NowOf(local, tree)) && run[|xs|] == NowOf(local, tree)
  {
    ghost var m := Params(tree.downsampleSize, local.cube, local.reach);
    run := [NowOf(local, tree)];
    for i := 0 to |xs|
      invariant tree.Valid() && fresh(ReprOf(tree.root) - old(ReprOf(tree.root)))
      invariant IsRun(run, xs[..i], m) && run[0] == old(NowOf(local, tree)) && run[i] == NowOf(local, tree)
    {
      OneCycle(local, tree, xs[i]);
      RunStep(run, xs, i, m, NowOf(local, tree));
      run := run + [NowOf(local, tree)];
    }
    assert xs[..|xs|] == xs;
  }

  lemma RunStep(run: seq<Moment>, xs: seq<Input>, i: nat, m: Params, b: Moment)
    requires m.d > 0 && i < |xs| && IsRun(run, xs[..i], m) && CycleStep(run[i], xs[i], m, b).Sound?
    ensures IsRun(run + [b], xs[..i + 1], m)
  {
    var longer := run + [b];
    forall j | 0 <= j < i + 1
      ensures CycleStep(longer[j], xs[..i + 1][j], m, longer[j + 1]).Sound?
    {
      if j < i { assert CycleStep(run[j], xs[..i][j], m, run[j + 1]).Sound?; }
    }
  }

  // ---------- A map stays a map ----------

  lemma {:induction false} BuiltExactly(run: seq<Moment>, xs: seq<Input>, m: Params, i: nat)
    requires m.d > 0 && IsRun(run, xs, m) && i <= |xs|
    ensures run[i].built <==> run[0].built || exists j :: 0 <= j < i && |xs[j].scan| > 5
  {
    if i > 0 {
      BuiltExactly(run, xs, m, i - 1);
      assert CycleStep(run[i - 1], xs[i - 1], m, run[i - 1 + 1]).Sound?;
    }
  }

  // ---------- At most one point per voxel ----------

  /** What a scan has to bring so that a thin map stays thin. */
  ghost predicate ScanFits(a: Moment, x: Input, m: Params)
    requires m.d > 0
  {
    if |x.scan| < (if a.built then 5 else 6) then true
    else if !a.built then AtMostOnePerCell(Worlds(x.scan), m.d)
    else RawFits(Spared(a.points, LeftBehind(a, x, m)), Chosen(x.scan, x.inited, m.d, Thin),
                 Chosen(x.scan, x.inited, m.d, Raw), m.d)
  }

  lemma FitsPermutation(s: seq<Point>, t: seq<Point>, ps: seq<Point>, d: nat)
    requires d > 0 && multiset(s) == multiset(t)
    ensures Fits(s, ps, d) <==> Fits(t, ps, d)
  {
    forall i | 0 <= i < |ps|
      ensures Filter(s, InCell(Cell(ps[i], d), d)) == [] <==> Filter(t, InCell(Cell(ps[i], d), d)) == []
    {
      var f := InCell(Cell(ps[i], d), d);
      FilterPermutation(s, t, f);
      SameMembers(Filter(s, f), Filter(t, f));
    }
  }

  lemma CycleStaysThinExactly(a: Moment, x: Input, m: Params, b: Moment)
    requires m.d > 0 && CycleStep(a, x, m, b).Sound? && AtMostOnePerCell(a.points, m.d)
    ensures AtMostOnePerCell(b.points, m.d) <==> ScanFits(a, x, m)
  {
    var spared := Spared(a.points, LeftBehind(a, x, m));
    var kept :| PointStep(a, x, m, kept, b);
    H.SparedIsThin(a.points, LeftBehind(a, x, m), m.d);
    H.SamePointsThin(spared, kept, m.d);
    if |x.scan| >= 5 && a.built {
      var thin, raw := Chosen(x.scan, x.inited, m.d, Thin), Chosen(x.scan, x.inited, m.d, Raw);
      var mid :| Incremented(kept, x, m.d, mid, b.points);
      MapStaysThinExactly(kept, thin, raw, m.d, mid, b.points);
      FitsPermutation(kept, spared, raw, m.d);
    } else if |x.scan| > 5 {
      if AtMostOnePerCell(Worlds(x.scan), m.d) { H.SamePointsThin(Worlds(x.scan), b.points, m.d); }
      if AtMostOnePerCell(b.points, m.d) { H.SamePointsThin(b.points, Worlds(x.scan), m.d); }
    }
  }

  /**
   Over a whole run no voxel ever holds two points if and only if the first map was built from a scan
   with one point per voxel and every later scan's plain points fitted.
   */
  lemma RunIsThinExactly(run: seq<Moment>, xs: seq<Input>, m: Params)
    requires m.d > 0 && IsRun(run, xs, m) && AtMostOnePerCell(run[0].points, m.d)
    ensures (forall i :: 0 <= i <= |xs| ==> AtMostOnePerCell(run[i].points, m.d))
       <==> (forall i :: 0 <= i < |xs| ==> ScanFits(run[i], xs[i], m))
  {
    if forall i :: 0 <= i <= |xs| ==> AtMostOnePerCell(run[i].points, m.d) {
      forall i | 0 <= i < |xs|
        ensures ScanFits(run[i], xs[i], m)
      {
        assert AtMostOnePerCell(run[i].points, m.d) && AtMostOnePerCell(run[i + 1].points, m.d);
        CycleStaysThinExactly(run[i], xs[i], m, run[i + 1]);
      }
    }
    if forall i :: 0 <= i < |xs| ==> ScanFits(run[i], xs[i], m) {
      forall i | 0 <= i <= |xs|
        ensures AtMostOnePerCell(run[i].points, m.d)
      {
        FittingRunIsThin(run, xs, m, i);
      }
    }
  }

  lemma {:induction false} FittingRunIsThin(run: seq<Moment>, xs: seq<Input>, m: Params, i: nat)
    requires m.d > 0 && IsRun(run, xs, m) && AtMostOnePerCell(run[0].points, m.d) && i <= |xs|
    requires forall j :: 0 <= j < i ==> ScanFits(run[j], xs[j], m)
    ensures AtMostOnePerCell(run[i].points, m.d)
  {
    if i > 0 {
      FittingRunIsThin(run, xs, m, i - 1);
      assert CycleStep(run[i - 1], xs[i - 1], m, run[i - 1 + 1]).Sound? && ScanFits(run[i - 1], xs[i - 1], m);
      CycleStaysThinExactly(run[i - 1], xs[i - 1], m, run[i]);
    }
  }

  // ---------- Where the points come from ----------

  lemma {:induction false} ChosenIsScanned(scan: seq<ScanPoint>, inited: bool, d: nat, k: Choice, p: Point)
    requires d > 0 && p in Chosen(scan, inited, d, k)
    ensures p in Worlds(scan)
  {
    var n := |scan| - 1;
    if Choose(scan[n], inited, d) == k && scan[n].world == p {
      assert Worlds(scan)[n] == p;
    } else {
      ChosenIsScanned(scan[..n], inited, d, k, p);
      var i :| 0 <= i < n && Worlds(scan[..n])[i] == p;
      assert Worlds(scan)[i] == p;
    }
  }

  lemma AddingInventsNothing(s: seq<Point>, built: bool, x: Input, d: nat, t: seq<Point>, p: Point)
    requires d > 0 && ScanAdded(s, built, x, d, t) && p in t && p !in Worlds(x.scan)
    ensures p in s
  {
    if |x.scan| >= 5 && built {
      var mid :| Incremented(s, x, d, mid, t);
      var thin, raw := Chosen(x.scan, x.inited, d, Thin), Chosen(x.scan, x.inited, d, Raw);
      assert p in multiset(t);
      if p in raw { ChosenIsScanned(x.scan, x.inited, d, Raw, p); }
      assert p in mid;
      H.ThinnedInventsNothing(s, thin, d, mid, p);
      if p in thin { ChosenIsScanned(x.scan, x.inited, d, Thin, p); }
    } else if |x.scan| > 5 {
      SameMembers(t, Worlds(x.scan));
    }
  }

  lemma CycleInventsNothing(a: Moment, x: Input, m: Params, b: Moment, p: Point)
    requires m.d > 0 && CycleStep(a, x, m, b).Sound? && p in b.points && p !in Worlds(x.scan)
    ensures p in a.points && !DropsPoint(LeftBehind(a, x, m), p)
  {
    var kept :| PointStep(a, x, m, kept, b);
    AddingInventsNothing(kept, a.built, x, m.d, b.points, p);
    SameMembers(kept, Spared(a.points, LeftBehind(a, x, m)));
    SparedAt(a.points, LeftBehind(a, x, m), p);
    assert p in multiset(Spared(a.points, LeftBehind(a, x, m)));
    assert p in multiset(a.points);
  }

  lemma StepInventsNothing(run: seq<Moment>, xs: seq<Input>, m: Params, i: nat, p: Point)
    requires m.d > 0 && IsRun(run, xs, m) && i < |xs| && p in run[i + 1].points && p !in Worlds(xs[i].scan)
    ensures p in run[i].points && Escapes(run, xs, m, i, p)
  {
    CycleInventsNothing(run[i], xs[i], m, run[i + 1], p);
  }

  /** No slab that the window leaves behind in cycle `k` holds `p`. */
  predicate Escapes(run: seq<Moment>, xs: seq<Input>, m: Params, k: nat, p: Point)
    requires k < |xs| < |run|
  {
    !DropsPoint(LeftBehind(run[k], xs[k], m), p)
  }

  /**
   A live point of the map was in the map at the start, or is the world position of a point of scan
   `j - 1`; since then it was in no slab that the window left behind.
   */
  lemma {:induction false} EveryPointWasScanned(run: seq<Moment>, xs: seq<Input>, m: Params, i: nat, p: Point)
      returns (j: nat)
    requires m.d > 0 && IsRun(run, xs, m) && i <= |xs| && p in run[i].points
    ensures j <= i && if j == 0 then p in run[0].points else p in Worlds(xs[j - 1].scan)
    ensures forall k :: j <= k < i ==> Escapes(run, xs, m, k, p)
  {
    j := i;
    if i > 0 && p !in Worlds(xs[i - 1].scan) {
      StepInventsNothing(run, xs, m, i - 1, p);
      j := EveryPointWasScanned(run, xs, m, i - 1, p);
    }
  }

  // ---------- The window ----------

  /** The windows of a run of cycles are a run of windows. */
  lemma CyclesMoveWindow(run: seq<Moment>, xs: seq<Input>, m: Params, ws: seq<Box>, ps: seq<Vec>)
    requires m.d > 0 && IsRun(run, xs, m) && !run[0].started && |xs| > 0
    requires |ws| == |ps| == |xs| && forall i :: 0 <= i < |xs| ==> ws[i] == run[i + 1].window && ps[i] == xs[i].pos
    ensures WindowRun(ws, ps, m.cube, m.reach)
  {
    assert CycleStep(run[0], xs[0], m, run[0 + 1]).Sound?;
    forall i | 0 <= i < |ws| - 1
      ensures Moved(ws[i], ps[i + 1], m.cube, m.reach, ws[i + 1])
    {
      assert CycleStep(run[i], xs[i], m, run[i + 1]).Sound?
        && CycleStep(run[i + 1], xs[i + 1], m, run[i + 1 + 1]).Sound?;
    }
  }
}
