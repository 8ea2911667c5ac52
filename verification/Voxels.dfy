/**
 Downsampling on insert: each offered point competes with the live points of its voxel, and the one
 closest to the voxel centre stays. Distances to a centre are taken in doubled coordinates, where
 centres are integral.
 */
module Voxels {
  import opened Verdicts
  import opened Geometry
  import opened PointSeqs

  /** The index of the voxel of side `d` that holds `p`: floor of every coordinate over `d`. */
  function Cell(p: Point, d: nat): Vec
    requires d > 0
  {
    Vec(p.pos.x / d, p.pos.y / d, p.pos.z / d)
  }

  /** Box_of_Point of Add_Points. */
  function CellBox(v: Vec, d: nat): Box {
    Box(Vec(v.x * d, v.y * d, v.z * d), Vec(v.x * d + d, v.y * d + d, v.z * d + d))
  }

  function InCell(v: Vec, d: nat): Point -> bool {
    In(CellBox(v, d))
  }

  lemma FloorInterval(x: int, d: nat, v: int)
    requires d > 0
    ensures v * d <= x < v * d + d <==> x / d == v
  {
    assert x == (x / d) * d + x % d;
    if x / d < v {
      TimesMonotone(x / d + 1, v, d);
    } else if x / d > v {
      TimesMonotone(v + 1, x / d, d);
    }
  }

  lemma TimesMonotone(a: int, b: int, d: nat)
    requires a <= b
    ensures a * d <= b * d
  {
  }

  /** The half-open voxel boxes are exactly the classes of points with the same index. */
  lemma BoxIsCell(p: Point, d: nat, v: Vec)
    requires d > 0
    ensures InBox(p, CellBox(v, d)) <==> Cell(p, d) == v
  {
    FloorInterval(p.pos.x, d, v.x);
    FloorInterval(p.pos.y, d, v.y);
    FloorInterval(p.pos.z, d, v.z);
  }

  /** Squared distance to the centre of a voxel, four times the source's value. */
  function CenterDist(p: Point, v: Vec, d: nat): int {
    var b := CellBox(v, d);
    Dist(Vec(2 * p.pos.x, 2 * p.pos.y, 2 * p.pos.z), Vec(b.lo.x + b.hi.x, b.lo.y + b.hi.y, b.lo.z + b.hi.z))
  }

  /** None of the candidates is closer to the centre than `r`; the new point `p` wins ties. */
  ghost predicate Closest(r: Point, v: Vec, d: nat, s: seq<Point>, p: Point) {
    && (r == p || (r in s && CenterDist(r, v, d) < CenterDist(p, v, d)))
    && forall q :: q in s ==> CenterDist(r, v, d) <= CenterDist(q, v, d)
  }

  /** One downsampled insertion takes the live points `s` to `t`. */
  ghost predicate Offered(s: seq<Point>, p: Point, d: nat, t: seq<Point>, r: Point)
    requires d > 0
  {
    var v := Cell(p, d);
    && Closest(r, v, d, Filter(s, InCell(v, d)), p)
    && multiset(t) == multiset(Filter(s, Not(InCell(v, d)))) + multiset{r}
  }

  // ---------- A whole batch ----------

  /** The one survivor of a voxel after the points `ps` were offered to a map that held `s`. */
  ghost predicate Survivor(s: seq<Point>, ps: seq<Point>, v: Vec, d: nat, t: seq<Point>, z: Point) {
    && Filter(t, InCell(v, d)) == [z]
    && (z in Filter(s, InCell(v, d)) || z in Filter(ps, InCell(v, d)))
    && (forall q :: q in Filter(s, InCell(v, d)) ==> CenterDist(z, v, d) <= CenterDist(q, v, d))
    && (forall q :: q in Filter(ps, InCell(v, d)) ==> CenterDist(z, v, d) <= CenterDist(q, v, d))
  }

  ghost predicate CellThinned(s: seq<Point>, ps: seq<Point>, d: nat, t: seq<Point>, v: Vec) {
    if Filter(ps, InCell(v, d)) == [] then
      multiset(Filter(t, InCell(v, d))) == multiset(Filter(s, InCell(v, d)))
    else
      exists z :: Survivor(s, ps, v, d, t, z)
  }

  /** Every touched voxel holds one closest point, every other voxel is as before. */
  ghost predicate Thinned(s: seq<Point>, ps: seq<Point>, d: nat, t: seq<Point>) {
    Thinning(s, ps, d, t).Sound?
  }

  ghost function Thinning(s: seq<Point>, ps: seq<Point>, d: nat, t: seq<Point>): Verdict {
    if forall v: Vec :: CellThinned(s, ps, d, t, v) then Sound else Broken
  }

  lemma ThinnedNothing(s: seq<Point>, d: nat)
    ensures Thinned(s, [], d, s)
  {
  }

  /** The voxel of the offered point afterwards holds the chosen point alone. */
  lemma OwnCell(s: seq<Point>, p: Point, d: nat, t: seq<Point>, r: Point, v: Vec)
    requires d > 0 && v == Cell(p, d) && Offered(s, p, d, t, r)
    ensures Filter(t, InCell(v, d)) == [r]
  {
    var f := InCell(v, d);
    BoxIsCell(p, d, v);
    FilterMember(s, f, r);
    assert f(r);
    var rest := Filter(s, Not(f));
    forall q
      ensures multiset(Filter(t, f))[q] == multiset{r}[q]
    {
      FilterCount(t, f, q);
      FilterCount(s, Not(f), q);
    }
    assert multiset(Filter(t, f)) == multiset{r};
    OnePoint(Filter(t, f), r);
  }

  lemma OnePoint(s: seq<Point>, r: Point)
    requires multiset(s) == multiset{r}
    ensures s == [r]
  {
    assert |s| == |multiset(s)| == 1;
    assert s[0] in multiset(s);
  }

  /** Every other voxel is untouched. */
  lemma OtherCell(s: seq<Point>, p: Point, d: nat, t: seq<Point>, r: Point, v: Vec)
    requires d > 0 && v != Cell(p, d) && Offered(s, p, d, t, r)
    ensures multiset(Filter(t, InCell(v, d))) == multiset(Filter(s, InCell(v, d)))
  {
    var u := Cell(p, d);
    FilterMember(s, InCell(u, d), r);
    BoxIsCell(p, d, u);
    BoxIsCell(r, d, u);
    forall q
      ensures multiset(Filter(t, InCell(v, d)))[q] == multiset(Filter(s, InCell(v, d)))[q]
    {
      FilterCount(t, InCell(v, d), q);
      FilterCount(s, InCell(v, d), q);
      FilterCount(s, Not(InCell(u, d)), q);
      BoxIsCell(q, d, u);
      BoxIsCell(q, d, v);
    }
  }

  /** One more offered point. */
  lemma ThinnedStep(s: seq<Point>, ps: seq<Point>, d: nat, t: seq<Point>, p: Point, u: seq<Point>, r: Point)
    requires d > 0 && Thinned(s, ps, d, t) && Offered(t, p, d, u, r)
    ensures Thinned(s, ps + [p], d, u)
  {
    forall v: Vec
      ensures CellThinned(s, ps + [p], d, u, v)
    {
      CellThinnedStep(s, ps, d, t, p, u, r, v);
    }
  }

  lemma CellThinnedStep(s: seq<Point>, ps: seq<Point>, d: nat, t: seq<Point>, p: Point, u: seq<Point>, r: Point, v: Vec)
    requires d > 0 && CellThinned(s, ps, d, t, v) && Offered(t, p, d, u, r)
    ensures CellThinned(s, ps + [p], d, u, v)
  {
    var f := InCell(v, d);
    BoxIsCell(p, d, v);
    FilterAppend(ps, [p], f);
    assert [p][1..] == [];
    if v != Cell(p, d) {
      OtherCell(t, p, d, u, r, v);
      assert Filter(ps + [p], f) == Filter(ps, f);
      if Filter(ps, f) != [] {
        var z :| Survivor(s, ps, v, d, t, z);
        OnePoint(Filter(u, f), z);
        assert Survivor(s, ps + [p], v, d, u, z);
      }
    } else {
      OwnCell(t, p, d, u, r, v);
      assert Filter(ps + [p], f) == Filter(ps, f) + [p];
      if Filter(ps, f) == [] {
        SameMembers(Filter(t, f), Filter(s, f));
      } else {
        var z :| Survivor(s, ps, v, d, t, z);
        assert z in Filter(t, f);
      }
      assert Survivor(s, ps + [p], v, d, u, r);
    }
  }

  // ---------- At most one point per voxel ----------

  ghost predicate AtMostOnePerCell(s: seq<Point>, d: nat) {
    forall v: Vec :: |Filter(s, InCell(v, d))| <= 1
  }

  lemma ThinnedStaysThin(s: seq<Point>, ps: seq<Point>, d: nat, t: seq<Point>)
    requires Thinned(s, ps, d, t) && AtMostOnePerCell(s, d)
    ensures AtMostOnePerCell(t, d)
  {
    forall v: Vec
      ensures |Filter(t, InCell(v, d))| <= 1
    {
      assert CellThinned(s, ps, d, t, v) && |Filter(s, InCell(v, d))| <= 1;
      if Filter(ps, InCell(v, d)) == [] {
        SameMembers(Filter(t, InCell(v, d)), Filter(s, InCell(v, d)));
      }
    }
  }

  lemma DeletionStaysThin(s: seq<Point>, f: Point -> bool, d: nat, t: seq<Point>)
    requires multiset(t) == multiset(Filter(s, f)) && AtMostOnePerCell(s, d)
    ensures AtMostOnePerCell(t, d)
  {
    forall v: Vec
      ensures |Filter(t, InCell(v, d))| <= 1
    {
      var g := InCell(v, d);
      assert |Filter(s, g)| <= 1;
      FilterPermutation(t, Filter(s, f), g);
      SameMembers(Filter(t, g), Filter(Filter(s, f), g));
      FilterShrinks(s, f, g);
    }
  }

  lemma {:induction false} FilterShrinks(s: seq<Point>, f: Point -> bool, g: Point -> bool)
    ensures |Filter(Filter(s, f), g)| <= |Filter(s, g)|
  {
    if s != [] {
      FilterShrinks(s[1..], f, g);
      if f(s[0]) {
        assert Filter(s, f) == [s[0]] + Filter(s[1..], f);
        assert Filter(s, f)[1..] == Filter(s[1..], f);
      } else {
        assert Filter(s, f) == Filter(s[1..], f);
      }
    }
  }

  /** Points that can join `s` as they are without any voxel getting a second one. */
  ghost predicate Fits(s: seq<Point>, ps: seq<Point>, d: nat)
    requires d > 0
  {
    && (forall i :: 0 <= i < |ps| ==> Filter(s, InCell(Cell(ps[i], d), d)) == [])
    && (forall i, j :: 0 <= i < j < |ps| ==> Cell(ps[i], d) != Cell(ps[j], d))
  }

  lemma JoinedCell(s: seq<Point>, ps: seq<Point>, t: seq<Point>, f: Point -> bool)
    requires multiset(t) == multiset(s) + multiset(ps)
    ensures |Filter(t, f)| == |Filter(s, f)| + |Filter(ps, f)|
  {
    FilterPermutation(t, s + ps, f);
    SameMembers(Filter(t, f), Filter(s + ps, f));
    FilterAppend(s, ps, f);
  }

  lemma TwoInCell(ps: seq<Point>, i: nat, j: nat, f: Point -> bool)
    requires i < j < |ps| && f(ps[i]) && f(ps[j])
    ensures |Filter(ps, f)| >= 2
  {
    assert ps == ps[..j] + ps[j..];
    FilterAppend(ps[..j], ps[j..], f);
    assert ps[..j][i] in ps[..j] && ps[j..][0] in ps[j..];
    FilterMember(ps[..j], f, ps[i]);
    FilterMember(ps[j..], f, ps[j]);
  }

  lemma FittingStaysThin(s: seq<Point>, ps: seq<Point>, d: nat, t: seq<Point>)
    requires d > 0 && AtMostOnePerCell(s, d) && multiset(t) == multiset(s) + multiset(ps) && Fits(s, ps, d)
    ensures AtMostOnePerCell(t, d)
  {
    CellsDiffer(ps, d);
    forall v: Vec
      ensures |Filter(t, InCell(v, d))| <= 1
    {
      var f := InCell(v, d);
      JoinedCell(s, ps, t, f);
      assert |Filter(s, f)| <= 1 && |Filter(ps, f)| <= 1;
      if Filter(ps, f) != [] {
        var p := Filter(ps, f)[0];
        FilterMember(ps, f, p);
        BoxIsCell(p, d, v);
        var i :| 0 <= i < |ps| && ps[i] == p;
      }
    }
  }

  lemma ThinMeansFitting(s: seq<Point>, ps: seq<Point>, d: nat, t: seq<Point>)
    requires d > 0 && multiset(t) == multiset(s) + multiset(ps) && AtMostOnePerCell(t, d)
    ensures Fits(s, ps, d)
  {
    forall i | 0 <= i < |ps|
      ensures Filter(s, InCell(Cell(ps[i], d), d)) == []
      ensures forall j :: i < j < |ps| ==> Cell(ps[i], d) != Cell(ps[j], d)
    {
      var f := InCell(Cell(ps[i], d), d);
      JoinedCell(s, ps, t, f);
      BoxIsCell(ps[i], d, Cell(ps[i], d));
      FilterMember(ps, f, ps[i]);
      assert |Filter(t, f)| <= 1;
      forall j | i < j < |ps|
        ensures Cell(ps[i], d) != Cell(ps[j], d)
      {
        BoxIsCell(ps[j], d, Cell(ps[i], d));
        if f(ps[j]) { TwoInCell(ps, i, j, f); }
      }
    }
  }

  /** Adding points as they are keeps a thin map thin exactly when they fit. */
  lemma AddStaysThinExactly(s: seq<Point>, ps: seq<Point>, d: nat, t: seq<Point>)
    requires d > 0 && AtMostOnePerCell(s, d) && multiset(t) == multiset(s) + multiset(ps)
    ensures AtMostOnePerCell(t, d) <==> Fits(s, ps, d)
  {
    if Fits(s, ps, d) { FittingStaysThin(s, ps, d, t); }
    if AtMostOnePerCell(t, d) { ThinMeansFitting(s, ps, d, t); }
  }

  /** A downsampled batch leaves a voxel empty exactly when it was empty and nothing was offered to it. */
  lemma ThinnedLeavesEmpty(s: seq<Point>, ps: seq<Point>, d: nat, t: seq<Point>, v: Vec)
    requires Thinned(s, ps, d, t)
    ensures Filter(t, InCell(v, d)) == [] <==> Filter(s, InCell(v, d)) == [] && Filter(ps, InCell(v, d)) == []
  {
    assert CellThinned(s, ps, d, t, v);
    if Filter(ps, InCell(v, d)) == [] {
      SameMembers(Filter(t, InCell(v, d)), Filter(s, InCell(v, d)));
    }
  }

  lemma {:induction false} CellsDiffer(s: seq<Point>, d: nat)
    requires d > 0 && forall i, j :: 0 <= i < j < |s| ==> Cell(s[i], d) != Cell(s[j], d)
    ensures AtMostOnePerCell(s, d)
  {
    if s != [] {
      CellsDiffer(s[1..], d);
      forall v: Vec
        ensures |Filter(s, InCell(v, d))| <= 1
      {
        assert |Filter(s[1..], InCell(v, d))| <= 1;
        BoxIsCell(s[0], d, v);
        if Cell(s[0], d) == v {
          forall p | p in s[1..]
            ensures !InBox(p, CellBox(v, d))
          {
            BoxIsCell(p, d, v);
          }
          FilterNone(s[1..], InCell(v, d));
        }
      }
    }
  }

  // ---------- Which point wins ----------

  /** The scan of the stored points: the first of the closest, and the new point unless it is beaten. */
  function FirstClosest(p: Point, s: seq<Point>, v: Vec, d: nat): Point {
    if s == [] then p
    else
      var best, last := FirstClosest(p, s[..|s| - 1], v, d), s[|s| - 1];
      if CenterDist(last, v, d) < CenterDist(best, v, d) then last else best
  }

  /** It is a closest candidate, and every stored point before it is strictly farther. */
  lemma {:induction false} FirstClosestIsFirst(p: Point, s: seq<Point>, v: Vec, d: nat)
    ensures var r := FirstClosest(p, s, v, d);
      && Closest(r, v, d, s, p)
      && (r == p || exists j :: 0 <= j < |s| && s[j] == r && forall i :: 0 <= i < j ==>
        CenterDist(s[i], v, d) > CenterDist(r, v, d))
  {
    if s != [] {
      var n := |s| - 1;
      FirstClosestIsFirst(p, s[..n], v, d);
      var best, r := FirstClosest(p, s[..n], v, d), FirstClosest(p, s, v, d);
      assert s == s[..n] + [s[n]];
      if r == best && r != p {
        var j :| 0 <= j < n && s[..n][j] == r && forall i :: 0 <= i < j ==>
          CenterDist(s[..n][i], v, d) > CenterDist(r, v, d);
        assert forall i :: 0 <= i < j ==> s[..n][i] == s[i];
        assert s[j] == r;
      } else if r != p {
        assert s[n] == r;
        assert forall i :: 0 <= i < n ==> s[i] in s[..n];
      }
    }
  }
}
