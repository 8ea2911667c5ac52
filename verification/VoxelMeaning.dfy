/** What downsampling does, in coordinates: the corners of a voxel come from the floor, its centre from the corners. */
module VoxelMeanings {
  import opened Verdicts
  import opened Geometry
  import opened PointSeqs
  import opened Voxels

  predicate SameVoxel(a: Vec, b: Vec, d: nat)
    requires d > 0
  {
    a.x / d == b.x / d && a.y / d == b.y / d && a.z / d == b.z / d
  }

  /** The lower corner of the voxel of `a`, which belongs to it. */
  function LowCorner(a: Vec, d: nat): Vec
    requires d > 0
  {
    Vec(a.x / d * d, a.y / d * d, a.z / d * d)
  }

  /** The upper corner, which does not. */
  function HighCorner(a: Vec, d: nat): Vec
    requires d > 0
  {
    Vec(a.x / d * d + d, a.y / d * d + d, a.z / d * d + d)
  }

  function Doubled(a: Vec): Vec { Vec(2 * a.x, 2 * a.y, 2 * a.z) }

  /** `m` is twice the point midway between `lo` and `hi`. */
  predicate Midway(m: Vec, lo: Vec, hi: Vec) {
    && m.x - 2 * lo.x == 2 * hi.x - m.x
    && m.y - 2 * lo.y == 2 * hi.y - m.y
    && m.z - 2 * lo.z == 2 * hi.z - m.z
  }

  /** `z` is no farther than `q` from the point midway between `lo` and `hi`. */
  ghost predicate NoFarther(z: Vec, q: Vec, lo: Vec, hi: Vec) {
    forall m {:trigger Midway(m, lo, hi)} :: Midway(m, lo, hi) ==> Dist(Doubled(z), m) <= Dist(Doubled(q), m)
  }

  lemma NoFartherByIndex(z: Point, q: Point, v: Vec, d: nat, lo: Vec, hi: Vec)
    requires lo == Vec(v.x * d, v.y * d, v.z * d) && hi == Vec(v.x * d + d, v.y * d + d, v.z * d + d)
    ensures NoFarther(z.pos, q.pos, lo, hi) <==> CenterDist(z, v, d) <= CenterDist(q, v, d)
  {
    var m := Vec(lo.x + hi.x, lo.y + hi.y, lo.z + hi.z);
    assert Midway(m, lo, hi);
  }

  /** The comparisons of the code are comparisons of distances to the centre. */
  lemma NoFartherExactly(z: Point, q: Point, p: Point, d: nat)
    requires d > 0
    ensures NoFarther(z.pos, q.pos, LowCorner(p.pos, d), HighCorner(p.pos, d))
       <==> CenterDist(z, Cell(p, d), d) <= CenterDist(q, Cell(p, d), d)
  {
    NoFartherByIndex(z, q, Cell(p, d), d, LowCorner(p.pos, d), HighCorner(p.pos, d));
  }

  lemma InOwnCell(q: Point, p: Point, d: nat)
    requires d > 0
    ensures InCell(Cell(p, d), d)(q) <==> SameVoxel(q.pos, p.pos, d)
    ensures LowCorner(p.pos, d).x <= p.pos.x < HighCorner(p.pos, d).x
    ensures LowCorner(p.pos, d).y <= p.pos.y < HighCorner(p.pos, d).y
    ensures LowCorner(p.pos, d).z <= p.pos.z < HighCorner(p.pos, d).z
  {
    BoxIsCell(q, d, Cell(p, d));
    BoxIsCell(p, d, Cell(p, d));
  }

  // ---------- One downsampled insertion ----------

  /** `r` is the offered point, or a stored point of its voxel that is nearer to the centre. */
  ghost predicate Preferred(s: seq<Point>, p: Point, d: nat, r: Point)
    requires d > 0
  {
    r == p || (r in s && SameVoxel(r.pos, p.pos, d)
               && !NoFarther(p.pos, r.pos, LowCorner(p.pos, d), HighCorner(p.pos, d)))
  }

  /** No stored point of the voxel of `p` is nearer to the centre than `r`. */
  ghost predicate NoneNearer(s: seq<Point>, p: Point, d: nat, r: Point)
    requires d > 0
  {
    forall q :: q in s && SameVoxel(q.pos, p.pos, d) ==>
      NoFarther(r.pos, q.pos, LowCorner(p.pos, d), HighCorner(p.pos, d))
  }

  /** The voxel of `p` holds `r` alone, every other one what it held. */
  ghost predicate LeftWith(s: seq<Point>, p: Point, d: nat, t: seq<Point>, r: Point)
    requires d > 0
  {
    forall q :: multiset(t)[q] ==
      if SameVoxel(q.pos, p.pos, d) then (if q == r then 1 else 0) else multiset(s)[q]
  }

  /** `p` is offered to a map that holds `s`, and `r` is what its voxel is left with. */
  ghost function Settling(s: seq<Point>, p: Point, d: nat, t: seq<Point>, r: Point): Verdict
    requires d > 0
  {
    if Preferred(s, p, d, r) && NoneNearer(s, p, d, r) && LeftWith(s, p, d, t, r) then Sound else Broken
  }

  lemma OfferCounts(s: seq<Point>, p: Point, d: nat, t: seq<Point>, r: Point, q: Point)
    requires d > 0 && SameVoxel(r.pos, p.pos, d)
    requires multiset(t) == multiset(Filter(s, Not(InCell(Cell(p, d), d)))) + multiset{r}
    ensures multiset(t)[q] == if SameVoxel(q.pos, p.pos, d) then (if q == r then 1 else 0) else multiset(s)[q]
  {
    InOwnCell(q, p, d);
    FilterCount(s, Not(InCell(Cell(p, d), d)), q);
  }

  lemma StoredIsNoNearer(s: seq<Point>, p: Point, d: nat, r: Point, q: Point)
    requires d > 0 && Closest(r, Cell(p, d), d, Filter(s, InCell(Cell(p, d), d)), p)
    requires q in s && SameVoxel(q.pos, p.pos, d)
    ensures NoFarther(r.pos, q.pos, LowCorner(p.pos, d), HighCorner(p.pos, d))
  {
    InOwnCell(q, p, d);
    FilterMember(s, InCell(Cell(p, d), d), q);
    NoFartherExactly(r, q, p, d);
  }

  lemma ClosestIsPreferred(s: seq<Point>, p: Point, d: nat, r: Point)
    requires d > 0 && Closest(r, Cell(p, d), d, Filter(s, InCell(Cell(p, d), d)), p)
    ensures Preferred(s, p, d, r) && SameVoxel(r.pos, p.pos, d)
  {
    if r != p {
      FilterMember(s, InCell(Cell(p, d), d), r);
      InOwnCell(r, p, d);
      NoFartherExactly(p, r, p, d);
    }
  }

  lemma ClosestIsNearest(s: seq<Point>, p: Point, d: nat, r: Point)
    requires d > 0 && Closest(r, Cell(p, d), d, Filter(s, InCell(Cell(p, d), d)), p)
    ensures NoneNearer(s, p, d, r)
  {
    forall q | q in s && SameVoxel(q.pos, p.pos, d)
      ensures NoFarther(r.pos, q.pos, LowCorner(p.pos, d), HighCorner(p.pos, d))
    {
      StoredIsNoNearer(s, p, d, r, q);
    }
  }

  lemma OfferLeaves(s: seq<Point>, p: Point, d: nat, t: seq<Point>, r: Point)
    requires d > 0 && SameVoxel(r.pos, p.pos, d)
    requires multiset(t) == multiset(Filter(s, Not(InCell(Cell(p, d), d)))) + multiset{r}
    ensures LeftWith(s, p, d, t, r)
  {
    forall q
      ensures multiset(t)[q] == if SameVoxel(q.pos, p.pos, d) then (if q == r then 1 else 0) else multiset(s)[q]
    {
      OfferCounts(s, p, d, t, r, q);
    }
  }

  lemma OfferSettles(s: seq<Point>, p: Point, d: nat, t: seq<Point>, r: Point)
    requires d > 0 && Offered(s, p, d, t, r)
    ensures Settling(s, p, d, t, r).Sound?
  {
    ClosestIsPreferred(s, p, d, r);
    ClosestIsNearest(s, p, d, r);
    OfferLeaves(s, p, d, t, r);
  }

  /** How many stored points share the voxel of `p`. */
  function CountVoxel(s: seq<Point>, p: Point, d: nat): nat
    requires d > 0
  {
    if s == [] then 0 else (if SameVoxel(s[0].pos, p.pos, d) then 1 else 0) + CountVoxel(s[1..], p, d)
  }

  lemma {:induction false} CountsVoxel(s: seq<Point>, p: Point, d: nat)
    requires d > 0
    ensures |Filter(s, InCell(Cell(p, d), d))| == CountVoxel(s, p, d)
  {
    if s != [] {
      CountsVoxel(s[1..], p, d);
      InOwnCell(s[0], p, d);
    }
  }

  /** The scan comes back with the place of `p` exactly when no stored point of the voxel is nearer. */
  lemma PlaceIsKept(s: seq<Point>, p: Point, d: nat)
    requires d > 0
    ensures FirstClosest(p, Filter(s, InCell(Cell(p, d), d)), Cell(p, d), d).pos == p.pos <==> NoneNearer(s, p, d, p)
  {
    var v := Cell(p, d);
    var own := Filter(s, InCell(v, d));
    var r := FirstClosest(p, own, v, d);
    FirstClosestIsFirst(p, own, v, d);
    if r == p {
      ClosestIsNearest(s, p, d, p);
    } else {
      ClosestIsPreferred(s, p, d, r);
    }
  }

  // ---------- The scan with its ties ----------

  /** The first of the stored points nearest to the centre, unless none is nearer than `p`. */
  lemma FirstClosestInNumbers(p: Point, s: seq<Point>, v: Vec, d: nat, lo: Vec, hi: Vec)
    requires lo == Vec(v.x * d, v.y * d, v.z * d) && hi == Vec(v.x * d + d, v.y * d + d, v.z * d + d)
    ensures var r := FirstClosest(p, s, v, d);
      && (forall q :: q in s ==> NoFarther(r.pos, q.pos, lo, hi))
      && (r == p || exists j :: 0 <= j < |s| && IsFirst(p, s, j, r, lo, hi))
  {
    var r := FirstClosest(p, s, v, d);
    FirstClosestIsFirst(p, s, v, d);
    forall q | q in s
      ensures NoFarther(r.pos, q.pos, lo, hi)
    {
      NoFartherByIndex(r, q, v, d, lo, hi);
    }
    if r != p {
      var j :| 0 <= j < |s| && s[j] == r && forall i :: 0 <= i < j ==> CenterDist(s[i], v, d) > CenterDist(r, v, d);
      forall i | 0 <= i < j
        ensures !NoFarther(s[i].pos, r.pos, lo, hi)
      {
        NoFartherByIndex(s[i], r, v, d, lo, hi);
      }
      NoFartherByIndex(p, r, v, d, lo, hi);
      assert IsFirst(p, s, j, r, lo, hi);
    }
  }

  /** `r` is `s[j]`, nearer than `p` and than every stored point before it. */
  ghost predicate IsFirst(p: Point, s: seq<Point>, j: nat, r: Point, lo: Vec, hi: Vec)
    requires j < |s|
  {
    && s[j] == r && !NoFarther(p.pos, r.pos, lo, hi)
    && forall i :: 0 <= i < j ==> !NoFarther(s[i].pos, r.pos, lo, hi)
  }

  // ---------- A whole batch ----------

  predicate Touched(q: Vec, ps: seq<Point>, d: nat)
    requires d > 0
  {
    exists p :: p in ps && SameVoxel(q, p.pos, d)
  }

  /** `z` is alone in its voxel and no stored or offered point of the voxel is nearer to the centre. */
  ghost predicate Central(s: seq<Point>, ps: seq<Point>, d: nat, t: seq<Point>, z: Point)
    requires d > 0
  {
    && (z in s || z in ps)
    && (forall q :: (q in s || q in ps) && SameVoxel(q.pos, z.pos, d) ==>
         NoFarther(z.pos, q.pos, LowCorner(z.pos, d), HighCorner(z.pos, d)))
    && (forall q: Point :: SameVoxel(q.pos, z.pos, d) ==> multiset(t)[q] == if q == z then 1 else 0)
  }

  /** Each touched voxel holds one central point, every other voxel what it held before. */
  ghost predicate Downsampled(s: seq<Point>, ps: seq<Point>, d: nat, t: seq<Point>)
    requires d > 0
  {
    && (forall z :: z in t && Touched(z.pos, ps, d) ==> Central(s, ps, d, t, z))
    && (forall p :: p in ps ==> exists z :: z in t && SameVoxel(z.pos, p.pos, d))
    && (forall q: Point :: !Touched(q.pos, ps, d) ==> multiset(t)[q] == multiset(s)[q])
  }

  ghost function Downsampling(s: seq<Point>, ps: seq<Point>, d: nat, t: seq<Point>): Verdict
    requires d > 0
  {
    if Downsampled(s, ps, d, t) then Sound else Broken
  }

  lemma SameVoxelSameCell(a: Point, b: Point, d: nat)
    requires d > 0 && SameVoxel(a.pos, b.pos, d)
    ensures Cell(a, d) == Cell(b, d)
  {
  }

  lemma TouchedCell(s: seq<Point>, ps: seq<Point>, d: nat, t: seq<Point>, p: Point) returns (z: Point)
    requires d > 0 && Thinned(s, ps, d, t) && p in ps
    ensures Survivor(s, ps, Cell(p, d), d, t, z) && SameVoxel(z.pos, p.pos, d) && z in t
  {
    var v := Cell(p, d);
    InOwnCell(p, p, d);
    FilterMember(ps, InCell(v, d), p);
    assert CellThinned(s, ps, d, t, v);
    z :| Survivor(s, ps, v, d, t, z);
    FilterMember(t, InCell(v, d), z);
    InOwnCell(z, p, d);
  }

  lemma SurvivorIsCentral(s: seq<Point>, ps: seq<Point>, d: nat, t: seq<Point>, z: Point)
    requires d > 0 && Survivor(s, ps, Cell(z, d), d, t, z)
    ensures Central(s, ps, d, t, z)
  {
    var v := Cell(z, d);
    var f := InCell(v, d);
    FilterMember(s, f, z);
    FilterMember(ps, f, z);
    forall q | (q in s || q in ps) && SameVoxel(q.pos, z.pos, d)
      ensures NoFarther(z.pos, q.pos, LowCorner(z.pos, d), HighCorner(z.pos, d))
    {
      InOwnCell(q, z, d);
      FilterMember(s, f, q);
      FilterMember(ps, f, q);
      NoFartherExactly(z, q, z, d);
    }
    forall q: Point | SameVoxel(q.pos, z.pos, d)
      ensures multiset(t)[q] == if q == z then 1 else 0
    {
      InOwnCell(q, z, d);
      FilterCount(t, f, q);
      assert multiset(Filter(t, f)) == multiset{z};
    }
  }

  lemma UntouchedIsKept(s: seq<Point>, ps: seq<Point>, d: nat, t: seq<Point>, q: Point)
    requires d > 0 && Thinned(s, ps, d, t) && !Touched(q.pos, ps, d)
    ensures multiset(t)[q] == multiset(s)[q]
  {
    var v := Cell(q, d);
    var f := InCell(v, d);
    assert CellThinned(s, ps, d, t, v);
    if Filter(ps, f) != [] {
      var p := Filter(ps, f)[0];
      FilterMember(ps, f, p);
      InOwnCell(p, q, d);
    }
    InOwnCell(q, q, d);
    FilterCount(t, f, q);
    FilterCount(s, f, q);
  }

  lemma ThinnedInNumbers(s: seq<Point>, ps: seq<Point>, d: nat, t: seq<Point>)
    requires d > 0 && Thinned(s, ps, d, t)
    ensures Downsampling(s, ps, d, t).Sound?
  {
    forall z | z in t && Touched(z.pos, ps, d)
      ensures Central(s, ps, d, t, z)
    {
      var p :| p in ps && SameVoxel(z.pos, p.pos, d);
      var y := TouchedCell(s, ps, d, t, p);
      SameVoxelSameCell(z, p, d);
      InOwnCell(z, p, d);
      FilterMember(t, InCell(Cell(p, d), d), z);
      SurvivorIsCentral(s, ps, d, t, z);
    }
    forall p | p in ps
      ensures exists z :: z in t && SameVoxel(z.pos, p.pos, d)
    {
      var z := TouchedCell(s, ps, d, t, p);
    }
    forall q: Point | !Touched(q.pos, ps, d)
      ensures multiset(t)[q] == multiset(s)[q]
    {
      UntouchedIsKept(s, ps, d, t, q);
    }
  }
}
