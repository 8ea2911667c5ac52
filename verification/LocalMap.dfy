/**
 lasermap_fov_segment: the local map window follows the sensor, and the map drops the slabs that the
 window leaves behind.

 Lengths are integers in a unit in which cube_len is 20 * cube and DET_RANGE is 20 * reach, so that
 half a cube, 1.5 * DET_RANGE and both alternatives of mov_dist are integers too.
 */
module LocalMaps {
  import opened Verdicts
  import opened Geometry
  import opened PointSeqs
  import opened KdTrees
  import opened KdNodes

  /** cube_len / 2. */
  function HalfCube(cube: int): int { 10 * cube }

  /** MOV_THRESHOLD * DET_RANGE, with MOV_THRESHOLD 1.5. */
  function Threshold(reach: int): int { 30 * reach }

  /** max((cube_len - 2 * MOV_THRESHOLD * DET_RANGE) * 0.5 * 0.9, DET_RANGE * (MOV_THRESHOLD - 1)). */
  function MoveDistance(cube: int, reach: int): int {
    Max(9 * (cube - 3 * reach), 10 * reach)
  }

  function Abs(a: int): int { if a < 0 then -a else a }

  datatype Move = Down | Stay | Up

  /** The direction an axis moves; the lower edge is looked at first. */
  function Direction(w: Box, pos: Vec, a: Axis, reach: int): Move {
    if Abs(At(pos, a) - At(w.lo, a)) <= Threshold(reach) then Down
    else if Abs(At(pos, a) - At(w.hi, a)) <= Threshold(reach) then Up
    else Stay
  }

  predicate NeedMove(w: Box, pos: Vec, reach: int) {
    exists a: Axis :: Direction(w, pos, a, reach) != Stay
  }

  function With(v: Vec, a: Axis, c: int): Vec {
    if a == 0 then v.(x := c) else if a == 1 then v.(y := c) else v.(z := c)
  }

  function Shift(m: Move, dist: int): int {
    match m case Down => -dist case Stay => 0 case Up => dist
  }

  /** The window after a move. */
  ghost predicate Moved(w: Box, pos: Vec, cube: int, reach: int, n: Box) {
    forall a: Axis ::
      var s := Shift(Direction(w, pos, a, reach), MoveDistance(cube, reach));
      At(n.lo, a) == At(w.lo, a) + s && At(n.hi, a) == At(w.hi, a) + s
  }

  /** The slab that axis `a` leaves behind: the old window, cut at the new edge. */
  function Slab(w: Box, a: Axis, m: Move, dist: int): Box {
    match m
    case Down => w.(lo := With(w.lo, a, At(w.hi, a) - dist))
    case Up => w.(hi := With(w.hi, a, At(w.lo, a) + dist))
    case Stay => w
  }

  /** cub_needrm: one slab per axis that moves. */
  function Slabs(w: Box, pos: Vec, cube: int, reach: int, n: nat): seq<Box>
    requires n <= 3
  {
    if n == 0 then [] else Slabs(w, pos, cube, reach, n - 1) + NewSlab(w, pos, cube, reach, n - 1)
  }

  function NewSlab(w: Box, pos: Vec, cube: int, reach: int, a: Axis): seq<Box> {
    var m := Direction(w, pos, a, reach);
    if m == Stay then [] else [Slab(w, a, m, MoveDistance(cube, reach))]
  }

  function ShiftedAxis(b: Box, a: Axis, s: int): Box {
    Box(With(b.lo, a, At(b.lo, a) + s), With(b.hi, a, At(b.hi, a) + s))
  }

  /** The window with its first `n` axes moved. */
  function ShiftedBelow(w: Box, pos: Vec, cube: int, reach: int, n: nat): Box
    requires n <= 3
  {
    if n == 0 then w
    else
      ShiftedAxis(ShiftedBelow(w, pos, cube, reach, n - 1), n - 1,
                  Shift(Direction(w, pos, n - 1, reach), MoveDistance(cube, reach)))
  }

  lemma ShiftedAt(b: Box, a: Axis, s: int, e: Axis)
    ensures At(ShiftedAxis(b, a, s).lo, e) == At(b.lo, e) + if e == a then s else 0
    ensures At(ShiftedAxis(b, a, s).hi, e) == At(b.hi, e) + if e == a then s else 0
  {
  }

  lemma {:induction false} ShiftedBelowAt(w: Box, pos: Vec, cube: int, reach: int, n: nat, a: Axis)
    requires n <= 3
    ensures var b := ShiftedBelow(w, pos, cube, reach, n);
      var s := if a < n then Shift(Direction(w, pos, a, reach), MoveDistance(cube, reach)) else 0;
      At(b.lo, a) == At(w.lo, a) + s && At(b.hi, a) == At(w.hi, a) + s
  {
    if n > 0 {
      ShiftedBelowAt(w, pos, cube, reach, n - 1, a);
      ShiftedAt(ShiftedBelow(w, pos, cube, reach, n - 1), n - 1,
                Shift(Direction(w, pos, n - 1, reach), MoveDistance(cube, reach)), a);
    }
  }

  lemma ShiftedBelowMoves(w: Box, pos: Vec, cube: int, reach: int)
    ensures Moved(w, pos, cube, reach, ShiftedBelow(w, pos, cube, reach, 3))
  {
    forall a: Axis
      ensures var s := Shift(Direction(w, pos, a, reach), MoveDistance(cube, reach));
        var b := ShiftedBelow(w, pos, cube, reach, 3);
        At(b.lo, a) == At(w.lo, a) + s && At(b.hi, a) == At(w.hi, a) + s
    {
      ShiftedBelowAt(w, pos, cube, reach, 3, a);
    }
  }

  lemma InBoxByAxis(p: Point, b: Box)
    ensures InBox(p, b) <==> forall a: Axis :: At(b.lo, a) <= Coord(p, a) < At(b.hi, a)
  {
    assert At(b.lo, 0) == b.lo.x && At(b.lo, 1) == b.lo.y && At(b.lo, 2) == b.lo.z;
    if forall a: Axis :: At(b.lo, a) <= Coord(p, a) < At(b.hi, a) {
      assert At(b.lo, 0) <= Coord(p, 0) < At(b.hi, 0);
      assert At(b.lo, 1) <= Coord(p, 1) < At(b.hi, 1);
      assert At(b.lo, 2) <= Coord(p, 2) < At(b.hi, 2);
    }
  }

  lemma {:induction false} SlabOf(w: Box, pos: Vec, cube: int, reach: int, n: nat, b: Box)
    requires n <= 3
    ensures b in Slabs(w, pos, cube, reach, n) <==>
      exists a: Axis :: a < n && Direction(w, pos, a, reach) != Stay
                     && b == Slab(w, a, Direction(w, pos, a, reach), MoveDistance(cube, reach))
  {
    if n > 0 {
      SlabOf(w, pos, cube, reach, n - 1, b);
      var last: Axis := n - 1;
      var m := Direction(w, pos, last, reach);
      assert m == Stay || Slab(w, last, m, MoveDistance(cube, reach)) in Slabs(w, pos, cube, reach, n);
    }
  }

  /** A move happens only with a range that is not negative, and then it moves by no less than zero. */
  lemma MoveIsForward(w: Box, pos: Vec, a: Axis, cube: int, reach: int)
    requires Direction(w, pos, a, reach) != Stay
    ensures MoveDistance(cube, reach) >= 0
  {
  }

  /** No slab meets the new window. */
  lemma SlabMissesWindow(w: Box, pos: Vec, cube: int, reach: int, n: Box, b: Box, p: Point)
    requires Moved(w, pos, cube, reach, n) && b in Slabs(w, pos, cube, reach, 3) && InBox(p, b)
    ensures !InBox(p, n)
  {
    SlabOf(w, pos, cube, reach, 3, b);
    var a: Axis :| Direction(w, pos, a, reach) != Stay
                 && b == Slab(w, a, Direction(w, pos, a, reach), MoveDistance(cube, reach));
    InBoxByAxis(p, b);
    InBoxByAxis(p, n);
    var s := Shift(Direction(w, pos, a, reach), MoveDistance(cube, reach));
    assert At(n.lo, a) == At(w.lo, a) + s && At(n.hi, a) == At(w.hi, a) + s;
    assert At(b.lo, a) <= Coord(p, a) < At(b.hi, a);
  }

  /** A point of the old window that the move leaves behind on axis `a` lies in the slab of `a`. */
  lemma LeftOnAxis(w: Box, pos: Vec, cube: int, reach: int, n: Box, p: Point, a: Axis)
    requires Moved(w, pos, cube, reach, n) && InBox(p, w) && !(At(n.lo, a) <= Coord(p, a) < At(n.hi, a))
    ensures var m := Direction(w, pos, a, reach);
      m != Stay && InBox(p, Slab(w, a, m, MoveDistance(cube, reach)))
  {
    var m := Direction(w, pos, a, reach);
    var s := Shift(m, MoveDistance(cube, reach));
    assert At(n.lo, a) == At(w.lo, a) + s && At(n.hi, a) == At(w.hi, a) + s;
    InBoxByAxis(p, w);
    assert At(w.lo, a) <= Coord(p, a) < At(w.hi, a);
    MoveIsForward(w, pos, a, cube, reach);
  }

  /** Every point of the old window outside the new one is in some slab. */
  lemma LeftBehindIsInSlab(w: Box, pos: Vec, cube: int, reach: int, n: Box, p: Point) returns (b: Box)
    requires Moved(w, pos, cube, reach, n) && InBox(p, w) && !InBox(p, n)
    ensures b in Slabs(w, pos, cube, reach, 3) && InBox(p, b)
  {
    InBoxByAxis(p, n);
    var a: Axis :| !(At(n.lo, a) <= Coord(p, a) < At(n.hi, a));
    LeftOnAxis(w, pos, cube, reach, n, p, a);
    b := Slab(w, a, Direction(w, pos, a, reach), MoveDistance(cube, reach));
    SlabOf(w, pos, cube, reach, 3, b);
  }

  /**
   After the slabs are deleted no point is left in the old window outside the new one, and every
   point of the new window is there as often as before.
   */
  lemma WindowIsKept(w: Box, pos: Vec, cube: int, reach: int, n: Box, s: seq<Point>, t: seq<Point>, p: Point)
    requires Moved(w, pos, cube, reach, n)
    requires multiset(t) == multiset(Spared(s, Slabs(w, pos, cube, reach, 3)))
    ensures InBox(p, w) && !InBox(p, n) ==> p !in t
    ensures InBox(p, n) ==> multiset(t)[p] == multiset(s)[p]
  {
    var slabs := Slabs(w, pos, cube, reach, 3);
    SparedAt(s, slabs, p);
    assert p in t <==> p in multiset(t);
    if InBox(p, w) && !InBox(p, n) {
      var b := LeftBehindIsInSlab(w, pos, cube, reach, n, p);
    }
    if InBox(p, n) {
      forall b | b in slabs
        ensures !InBox(p, b)
      {
        if InBox(p, b) { SlabMissesWindow(w, pos, cube, reach, n, b, p); }
      }
    }
  }

  // ---------- The same in plain numbers ----------

  /** How far an axis with edges `lo` and `hi` moves when the sensor is at `c`. */
  predicate Drifts(lo: int, hi: int, c: int, cube: int, reach: int, step: int) {
    var stride := if 9 * cube >= 37 * reach then 9 * cube - 27 * reach else 10 * reach;
    step == if -30 * reach <= c - lo <= 30 * reach then -stride
          else if -30 * reach <= c - hi <= 30 * reach then stride
          else 0
  }

  /** Both edges of every axis move by the same distance: down, up, or not at all. */
  ghost predicate WindowDrifts(w: Box, pos: Vec, cube: int, reach: int, n: Box) {
    forall a: Axis ::
      && Drifts(At(w.lo, a), At(w.hi, a), At(pos, a), cube, reach, At(n.lo, a) - At(w.lo, a))
      && At(n.hi, a) - At(w.hi, a) == At(n.lo, a) - At(w.lo, a)
  }

  ghost function Drifting(w: Box, pos: Vec, cube: int, reach: int, n: Box): Verdict {
    if WindowDrifts(w, pos, cube, reach, n) then Sound else Broken
  }

  lemma MovedDrifts(w: Box, pos: Vec, cube: int, reach: int, n: Box)
    ensures Moved(w, pos, cube, reach, n) <==> Drifting(w, pos, cube, reach, n).Sound?
  {
    forall a: Axis
      ensures Drifts(At(w.lo, a), At(w.hi, a), At(pos, a), cube, reach,
                     Shift(Direction(w, pos, a, reach), MoveDistance(cube, reach)))
    {
    }
  }

  /** `c` is in the part of an axis that the window gives up. */
  predicate GivenUp(lo: int, hi: int, pos: int, cube: int, reach: int, c: int) {
    var stride := if 9 * cube >= 37 * reach then 9 * cube - 27 * reach else 10 * reach;
    if -30 * reach <= pos - lo <= 30 * reach then hi - stride <= c < hi
    else -30 * reach <= pos - hi <= 30 * reach && lo <= c < lo + stride
  }

  /** `p` is in that part on axis `a`, and inside the old window on the two others. */
  ghost predicate Leaves(w: Box, pos: Vec, cube: int, reach: int, a: Axis, p: Point) {
    && GivenUp(At(w.lo, a), At(w.hi, a), At(pos, a), cube, reach, Coord(p, a))
    && forall b: Axis :: b != a ==> At(w.lo, b) <= Coord(p, b) < At(w.hi, b)
  }

  lemma NewSlabInNumbers(w: Box, pos: Vec, cube: int, reach: int, a: Axis, p: Point)
    ensures DropsPoint(NewSlab(w, pos, cube, reach, a), p) <==> Leaves(w, pos, cube, reach, a, p)
  {
    var slab := NewSlab(w, pos, cube, reach, a);
    if slab != [] { InBoxByAxis(p, slab[0]); }
  }

  lemma DropsAppend(a: seq<Box>, b: seq<Box>, p: Point)
    ensures DropsPoint(a + b, p) <==> DropsPoint(a, p) || DropsPoint(b, p)
  {
    forall x | x in a || x in b
      ensures x in a + b
    {
    }
  }

  lemma {:induction false} SlabsInNumbers(w: Box, pos: Vec, cube: int, reach: int, n: nat, p: Point)
    requires n <= 3
    ensures DropsPoint(Slabs(w, pos, cube, reach, n), p) <==>
      exists a: Axis :: a < n && Leaves(w, pos, cube, reach, a, p)
  {
    if n > 0 {
      SlabsInNumbers(w, pos, cube, reach, n - 1, p);
      NewSlabInNumbers(w, pos, cube, reach, n - 1, p);
      DropsAppend(Slabs(w, pos, cube, reach, n - 1), NewSlab(w, pos, cube, reach, n - 1), p);
    }
  }

  /** Of the live points `s` all stay that the window does not give up on some axis, and only those. */
  ghost predicate Trimmed(w: Box, pos: Vec, cube: int, reach: int, s: seq<Point>, t: seq<Point>) {
    forall p :: multiset(t)[p] ==
      (if exists a: Axis :: Leaves(w, pos, cube, reach, a, p) then 0 else multiset(s)[p])
  }

  ghost function Trimming(w: Box, pos: Vec, cube: int, reach: int, s: seq<Point>, t: seq<Point>): Verdict {
    if Trimmed(w, pos, cube, reach, s, t) then Sound else Broken
  }

  lemma MoveTrims(w: Box, pos: Vec, cube: int, reach: int, s: seq<Point>, t: seq<Point>)
    requires multiset(t) == multiset(Spared(s, Slabs(w, pos, cube, reach, 3)))
    ensures Trimming(w, pos, cube, reach, s, t).Sound?
  {
    forall p
      ensures multiset(t)[p] ==
        (if exists a: Axis :: Leaves(w, pos, cube, reach, a, p) then 0 else multiset(s)[p])
    {
      SparedAt(s, Slabs(w, pos, cube, reach, 3), p);
      SlabsInNumbers(w, pos, cube, reach, 3, p);
    }
  }

  /** The window with the sensor in its middle. */
  ghost predicate Centred(w: Box, pos: Vec, cube: int) {
    forall a: Axis :: At(w.lo, a) == At(pos, a) - HalfCube(cube) && At(w.hi, a) == At(pos, a) + HalfCube(cube)
  }

  class LocalMap {
    const cube: int
    const reach: int
    var initialized: bool
    var window: Box
    var needRemove: seq<Box>

    constructor (cube: int, reach: int)
      ensures !initialized && this.cube == cube && this.reach == reach
    {
      this.cube, this.reach := cube, reach;
      initialized := false;
      window := Box(Vec(0, 0, 0), Vec(0, 0, 0));
      needRemove := [];
    }

    /** lasermap_fov_segment. */
    method FovSegment(pos: Vec, tree: KdTree) returns (deleted: int)
      requires tree.Valid()
      modifies this, tree`root, ReprOf(tree.root)
      ensures initialized && tree.Valid() && (tree.root == null <==> old(tree.root == null))
      ensures fresh(ReprOf(tree.root) - old(ReprOf(tree.root)))
      ensures !old(initialized) ==>
        tree.Points() == old(tree.Points()) && deleted == 0 && Centred(window, pos, cube)
      ensures !old(initialized) ==>
        window == Box(Vec(pos.x - 10 * cube, pos.y - 10 * cube, pos.z - 10 * cube),
                      Vec(pos.x + 10 * cube, pos.y + 10 * cube, pos.z + 10 * cube))
      ensures old(initialized) ==> Drifting(old(window), pos, cube, reach, window).Sound?
      ensures old(initialized) ==> Trimming(old(window), pos, cube, reach, old(tree.Points()), tree.Points()).Sound?
      ensures old(initialized) ==>
        && Moved(old(window), pos, cube, reach, window)
        && multiset(tree.Points()) == multiset(Spared(old(tree.Points()), Slabs(old(window), pos, cube, reach, 3)))
        && deleted == |old(tree.Points())| - |tree.Points()|
    {
      needRemove := [];
      deleted := 0;
      if !initialized {
        Center(pos);
        return;
      }
      ghost var w, s := window, tree.Points();
      deleted := Move(pos, tree);
      MovedDrifts(w, pos, cube, reach, window);
      MoveTrims(w, pos, cube, reach, s, tree.Points());
    }

    /** Every call but the first: the window follows the sensor, and what it leaves behind is deleted. */
    method Move(pos: Vec, tree: KdTree) returns (deleted: int)
      requires tree.Valid() && initialized && needRemove == []
      modifies this, tree`root, ReprOf(tree.root)
      ensures initialized && tree.Valid() && (tree.root == null <==> old(tree.root == null))
      ensures fresh(ReprOf(tree.root) - old(ReprOf(tree.root)))
      ensures Moved(old(window), pos, cube, reach, window)
      ensures multiset(tree.Points()) == multiset(Spared(old(tree.Points()), Slabs(old(window), pos, cube, reach, 3)))
      ensures deleted == |old(tree.Points())| - |tree.Points()|
    {
      Follow(pos);
      deleted := Drop(tree);
    }

    /** The deletion of what the move has left behind. */
    method Drop(tree: KdTree) returns (deleted: int)
      requires tree.Valid()
      modifies tree`root, ReprOf(tree.root)
      ensures tree.Valid() && (tree.root == null <==> old(tree.root == null))
      ensures fresh(ReprOf(tree.root) - old(ReprOf(tree.root)))
      ensures multiset(tree.Points()) == multiset(Spared(old(tree.Points()), needRemove))
      ensures deleted == |old(tree.Points())| - |tree.Points()|
    {
      deleted := 0;
      if |needRemove| > 0 {
        deleted := tree.DeletePointBoxes(needRemove);
      }
    }

    /** The first call puts the sensor into the centre of the window. */
    method Center(pos: Vec)
      modifies `window, `initialized
      ensures initialized && Centred(window, pos, cube)
      ensures window == Box(Vec(pos.x - 10 * cube, pos.y - 10 * cube, pos.z - 10 * cube),
                            Vec(pos.x + 10 * cube, pos.y + 10 * cube, pos.z + 10 * cube))
    {
      var h := HalfCube(cube);
      window := Box(Vec(pos.x - h, pos.y - h, pos.z - h), Vec(pos.x + h, pos.y + h, pos.z + h));
      initialized := true;
    }

    /** Every later call moves the window if an edge is near, and collects the slabs left behind. */
    method Follow(pos: Vec)
      requires initialized && needRemove == []
      modifies `window, `needRemove
      ensures Moved(old(window), pos, cube, reach, window)
      ensures needRemove == Slabs(old(window), pos, cube, reach, 3)
    {
      var needMove := EdgeIsNear(window, pos);
      if !needMove {
        NothingMoves(window, pos, cube, reach);
        return;
      }
      MoveWindow(pos);
    }

    /** The first loop: is any edge within the threshold? */
    method EdgeIsNear(w: Box, pos: Vec) returns (needMove: bool)
      ensures needMove <==> NeedMove(w, pos, reach)
    {
      needMove := false;
      var i := 0;
      while i < 3
        invariant i <= 3
        invariant needMove <==> exists a: Axis :: a < i && Direction(w, pos, a, reach) != Stay
      {
        var near := Abs(At(pos, i) - At(w.lo, i)) <= Threshold(reach)
          || Abs(At(pos, i) - At(w.hi, i)) <= Threshold(reach);
        assert near <==> Direction(w, pos, i, reach) != Stay;
        if near { needMove := true; }
        i := i + 1;
      }
    }

    /** The second loop: shift the window axis by axis and collect the slabs. */
    method MoveWindow(pos: Vec)
      requires initialized && needRemove == []
      modifies `window, `needRemove
      ensures Moved(old(window), pos, cube, reach, window)
      ensures needRemove == Slabs(old(window), pos, cube, reach, 3)
    {
      var n := window;
      var i := 0;
      while i < 3
        invariant i <= 3 && initialized && window == old(window)
        invariant n == ShiftedBelow(window, pos, cube, reach, i)
        invariant needRemove == Slabs(window, pos, cube, reach, i)
      {
        n := MoveAxis(pos, n, i);
        i := i + 1;
      }
      ShiftedBelowMoves(window, pos, cube, reach);
      window := n;
    }

    /** One round of the second loop. */
    method MoveAxis(pos: Vec, n: Box, a: Axis) returns (r: Box)
      modifies `needRemove
      ensures r == ShiftedAxis(n, a, Shift(Direction(window, pos, a, reach), MoveDistance(cube, reach)))
      ensures needRemove == old(needRemove) + NewSlab(window, pos, cube, reach, a)
    {
      var dist := MoveDistance(cube, reach);
      r := n;
      if Abs(At(pos, a) - At(window.lo, a)) <= Threshold(reach) {
        r := Box(With(n.lo, a, At(n.lo, a) - dist), With(n.hi, a, At(n.hi, a) - dist));
        needRemove := needRemove + [window.(lo := With(window.lo, a, At(window.hi, a) - dist))];
      } else if Abs(At(pos, a) - At(window.hi, a)) <= Threshold(reach) {
        r := Box(With(n.lo, a, At(n.lo, a) + dist), With(n.hi, a, At(n.hi, a) + dist));
        needRemove := needRemove + [window.(hi := With(window.hi, a, At(window.lo, a) + dist))];
      } else {
        assert r == ShiftedAxis(n, a, 0);
      }
    }
  }

  lemma NothingMoves(w: Box, pos: Vec, cube: int, reach: int)
    requires !NeedMove(w, pos, reach)
    ensures Moved(w, pos, cube, reach, w) && Slabs(w, pos, cube, reach, 3) == []
  {
    assert Direction(w, pos, 0, reach) == Stay && Direction(w, pos, 1, reach) == Stay
      && Direction(w, pos, 2, reach) == Stay;
    assert Slabs(w, pos, cube, reach, 0) == [] && Slabs(w, pos, cube, reach, 1) == []
      && Slabs(w, pos, cube, reach, 2) == [];
  }

  // ---------- Does the window keep the sensor? ----------

  /** The window as the first call makes it, and as every move leaves it: a cube of side cube_len. */
  ghost predicate IsWindow(w: Box, cube: int) {
    forall a: Axis :: At(w.hi, a) - At(w.lo, a) == 2 * HalfCube(cube)
  }

  ghost predicate Contains(w: Box, pos: Vec) {
    forall a: Axis :: At(w.lo, a) <= At(pos, a) <= At(w.hi, a)
  }

  /** Every move, from every window and for every sensor position in it, has the sensor inside afterwards. */
  ghost predicate MovesKeepSensor(cube: int, reach: int) {
    forall w, pos, n :: IsWindow(w, cube) && Contains(w, pos) && Moved(w, pos, cube, reach, n) ==> Contains(n, pos)
  }

  lemma MovedIsWindow(w: Box, pos: Vec, cube: int, reach: int, n: Box)
    requires IsWindow(w, cube) && Moved(w, pos, cube, reach, n)
    ensures IsWindow(n, cube)
  {
    forall a: Axis
      ensures At(n.hi, a) - At(n.lo, a) == 2 * HalfCube(cube)
    {
      var s := Shift(Direction(w, pos, a, reach), MoveDistance(cube, reach));
      assert At(n.lo, a) == At(w.lo, a) + s && At(n.hi, a) == At(w.hi, a) + s;
      assert At(w.hi, a) - At(w.lo, a) == 2 * HalfCube(cube);
    }
  }

  lemma WideWindowKeepsSensor(w: Box, pos: Vec, cube: int, reach: int, n: Box)
    requires 0 < reach && 2 * reach <= cube
    requires IsWindow(w, cube) && Contains(w, pos) && Moved(w, pos, cube, reach, n)
    ensures Contains(n, pos)
  {
    forall a: Axis
      ensures At(n.lo, a) <= At(pos, a) <= At(n.hi, a)
    {
      var s := Shift(Direction(w, pos, a, reach), MoveDistance(cube, reach));
      assert At(n.lo, a) == At(w.lo, a) + s && At(n.hi, a) == At(w.hi, a) + s;
      assert At(w.hi, a) - At(w.lo, a) == 2 * HalfCube(cube);
      assert At(w.lo, a) <= At(pos, a) <= At(w.hi, a);
    }
  }

  /** In a narrower one, the highest position that still counts as near the lower edge is left behind. */
  lemma NarrowWindowLosesSensor(cube: int, reach: int) returns (w: Box, pos: Vec, n: Box)
    requires 0 < reach && 0 <= cube < 2 * reach
    ensures IsWindow(w, cube) && Contains(w, pos) && Moved(w, pos, cube, reach, n) && !Contains(n, pos)
    ensures Centred(w, Vec(10 * cube, 10 * cube, 10 * cube), cube)
  {
    var side, c := 20 * cube, Min(20 * cube, 30 * reach);
    w := Box(Vec(0, 0, 0), Vec(side, side, side));
    pos := Vec(c, c, c);
    n := ShiftedBelow(w, pos, cube, reach, 3);
    ShiftedBelowMoves(w, pos, cube, reach);
    assert Direction(w, pos, 0, reach) == Down;
    assert At(n.hi, 0) == side - MoveDistance(cube, reach) < c == At(pos, 0);
  }

  /**
   A moved window still holds the sensor, wherever in the old window it was, if and only if cube_len is
   at least 2 * DET_RANGE. The built-in defaults, 200 and 300, do not meet this.
   */
  lemma SensorIsKeptExactlyWhenWide(cube: int, reach: int)
    requires 0 < reach && 0 <= cube
    ensures MovesKeepSensor(cube, reach) <==> 2 * reach <= cube
  {
    if 2 * reach <= cube {
      forall w, pos, n | IsWindow(w, cube) && Contains(w, pos) && Moved(w, pos, cube, reach, n)
        ensures Contains(n, pos)
      {
        WideWindowKeepsSensor(w, pos, cube, reach, n);
      }
    } else {
      var w, pos, n := NarrowWindowLosesSensor(cube, reach);
    }
  }

  // ---------- Over whole runs ----------

  /** The windows of a run: centred at the first position, then moved at each further one. */
  ghost predicate WindowRun(ws: seq<Box>, ps: seq<Vec>, cube: int, reach: int) {
    && |ws| == |ps| > 0 && Centred(ws[0], ps[0], cube)
    && forall i :: 0 <= i < |ws| - 1 ==> Moved(ws[i], ps[i + 1], cube, reach, ws[i + 1])
  }

  /** Each further position is still in the window as the last call left it. */
  ghost predicate Keeps(ws: seq<Box>, ps: seq<Vec>)
    requires |ws| == |ps|
  {
    forall i :: 0 <= i < |ws| - 1 ==> Contains(ws[i], ps[i + 1])
  }

  /** Whatever the sensor does, as long as no step takes it out of the window, no call leaves it outside. */
  ghost predicate RunsKeepSensor(cube: int, reach: int) {
    forall ws, ps :: WindowRun(ws, ps, cube, reach) && Keeps(ws, ps) ==>
      forall i :: 0 <= i < |ws| ==> Contains(ws[i], ps[i])
  }

  lemma {:induction false} RunIsWindows(ws: seq<Box>, ps: seq<Vec>, cube: int, reach: int, i: nat)
    requires WindowRun(ws, ps, cube, reach) && i < |ws|
    ensures IsWindow(ws[i], cube)
  {
    if i > 0 {
      RunIsWindows(ws, ps, cube, reach, i - 1);
      assert Moved(ws[i - 1], ps[i - 1 + 1], cube, reach, ws[i - 1 + 1]);
      MovedIsWindow(ws[i - 1], ps[i], cube, reach, ws[i]);
    }
  }

  lemma WideRunKeepsSensor(ws: seq<Box>, ps: seq<Vec>, cube: int, reach: int, i: nat)
    requires 0 < reach && 2 * reach <= cube
    requires WindowRun(ws, ps, cube, reach) && Keeps(ws, ps) && i < |ws|
    ensures Contains(ws[i], ps[i])
  {
    if i > 0 {
      RunIsWindows(ws, ps, cube, reach, i - 1);
      assert Moved(ws[i - 1], ps[i - 1 + 1], cube, reach, ws[i - 1 + 1]) && Contains(ws[i - 1], ps[i - 1 + 1]);
      WideWindowKeepsSensor(ws[i - 1], ps[i], cube, reach, ws[i]);
    }
  }

  /** The same condition decides it for all runs from a centred window; the second call can already fail. */
  lemma RunsKeepSensorExactlyWhenWide(cube: int, reach: int)
    requires 0 < reach && 0 <= cube
    ensures RunsKeepSensor(cube, reach) <==> 2 * reach <= cube
  {
    if 2 * reach <= cube {
      forall ws, ps | WindowRun(ws, ps, cube, reach) && Keeps(ws, ps)
        ensures forall i :: 0 <= i < |ws| ==> Contains(ws[i], ps[i])
      {
        forall i | 0 <= i < |ws|
          ensures Contains(ws[i], ps[i])
        {
          WideRunKeepsSensor(ws, ps, cube, reach, i);
        }
      }
    } else {
      var w, pos, n := NarrowWindowLosesSensor(cube, reach);
      var ws, ps := [w, n], [Vec(10 * cube, 10 * cube, 10 * cube), pos];
      assert WindowRun(ws, ps, cube, reach) && Keeps(ws, ps) && !Contains(ws[1], ps[1]);
    }
  }
}
