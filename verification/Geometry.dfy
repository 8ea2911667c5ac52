/**
 Points, boxes and distances of the ikd-Tree, over exact integer coordinates.

 A deletion or search box is half open (its minimum belongs to it, its maximum does not);
 the range cached in a tree node is closed on both sides.
 */
module Geometry {

  datatype Vec = Vec(x: int, y: int, z: int)

  datatype Point = Point(pos: Vec, intensity: int)

  type Axis = i: int | 0 <= i < 3

  /** BoxPointType: `lo` is vertex_min, `hi` is vertex_max. */
  datatype Box = Box(lo: Vec, hi: Vec)

  /** The cached node range. `Void` is the (+INFINITY, -INFINITY) start value of Update. */
  datatype Extent = Void | Range(lo: Vec, hi: Vec)

  function At(v: Vec, a: Axis): int {
    if a == 0 then v.x else if a == 1 then v.y else v.z
  }

  function Coord(p: Point, a: Axis): int {
    At(p.pos, a)
  }

  predicate InBox(p: Point, b: Box) {
    && b.lo.x <= p.pos.x < b.hi.x
    && b.lo.y <= p.pos.y < b.hi.y
    && b.lo.z <= p.pos.z < b.hi.z
  }

  /** The early-out test of Delete_by_range and Search_by_range. */
  predicate Misses(b: Box, e: Extent) {
    || e.Void?
    || b.hi.x <= e.lo.x || b.lo.x > e.hi.x
    || b.hi.y <= e.lo.y || b.lo.y > e.hi.y
    || b.hi.z <= e.lo.z || b.lo.z > e.hi.z
  }

  /** The whole-subtree test of Delete_by_range and Search_by_range. */
  predicate Covers(b: Box, e: Extent) {
    || e.Void?
    || (&& b.lo.x <= e.lo.x && b.hi.x > e.hi.x
        && b.lo.y <= e.lo.y && b.hi.y > e.hi.y
        && b.lo.z <= e.lo.z && b.hi.z > e.hi.z)
  }

  function Min(a: int, b: int): int { if b < a then b else a }

  function Max(a: int, b: int): int { if a < b then b else a }

  /** Componentwise hull, the min/max chains of Update. */
  function Hull(e: Extent, f: Extent): Extent {
    if e.Void? then f
    else if f.Void? then e
    else
      Range(Vec(Min(e.lo.x, f.lo.x), Min(e.lo.y, f.lo.y), Min(e.lo.z, f.lo.z)),
            Vec(Max(e.hi.x, f.hi.x), Max(e.hi.y, f.hi.y), Max(e.hi.z, f.hi.z)))
  }

  function Single(p: Point): Extent {
    Range(p.pos, p.pos)
  }

  predicate Inside(p: Point, e: Extent) {
    && e.Range?
    && e.lo.x <= p.pos.x <= e.hi.x
    && e.lo.y <= p.pos.y <= e.hi.y
    && e.lo.z <= p.pos.z <= e.hi.z
  }

  /** Some point of `s` has coordinate `c` on axis `a`. */
  ghost predicate Touches(s: seq<Point>, a: Axis, c: int) {
    s != [] && (Coord(s[0], a) == c || Touches(s[1..], a, c))
  }

  /** `e` is the smallest closed box around the points of `s`, which are not empty. */
  ghost predicate Tight(e: Extent, s: seq<Point>) {
    && e.Range?
    && (forall p {:trigger Inside(p, e)} :: p in s ==> Inside(p, e))
    && Touches(s, 0, e.lo.x) && Touches(s, 0, e.hi.x)
    && Touches(s, 1, e.lo.y) && Touches(s, 1, e.hi.y)
    && Touches(s, 2, e.lo.z) && Touches(s, 2, e.hi.z)
  }

  lemma {:induction false} TouchesAt(s: seq<Point>, a: Axis, c: int, p: Point)
    requires p in s && Coord(p, a) == c
    ensures Touches(s, a, c)
  {
    if s[0] != p {
      TouchesAt(s[1..], a, c, p);
    }
  }

  lemma {:induction false} TouchedPoint(s: seq<Point>, a: Axis, c: int) returns (p: Point)
    requires Touches(s, a, c)
    ensures p in s && Coord(p, a) == c
  {
    if Coord(s[0], a) == c {
      p := s[0];
    } else {
      p := TouchedPoint(s[1..], a, c);
    }
  }

  lemma TouchesWider(s: seq<Point>, t: seq<Point>, a: Axis, c: int)
    requires Touches(s, a, c)
    requires forall p :: p in s ==> p in t
    ensures Touches(t, a, c)
  {
    var p := TouchedPoint(s, a, c);
    TouchesAt(t, a, c, p);
  }

  lemma TightSingle(p: Point)
    ensures Tight(Single(p), [p])
  {
    TouchesAt([p], 0, p.pos.x, p);
    TouchesAt([p], 1, p.pos.y, p);
    TouchesAt([p], 2, p.pos.z, p);
  }

  /** The hull of two tight ranges is tight around both point sequences together. */
  lemma TightHull(e: Extent, s: seq<Point>, f: Extent, t: seq<Point>)
    requires Tight(e, s) && Tight(f, t)
    ensures Tight(Hull(e, f), s + t)
  {
    var st := s + t;
    forall a: Axis, c: int | Touches(s, a, c) || Touches(t, a, c)
      ensures Touches(st, a, c)
    {
      if Touches(s, a, c) { TouchesWider(s, st, a, c); } else { TouchesWider(t, st, a, c); }
    }
    forall p | p in st
      ensures Inside(p, Hull(e, f))
    {
      assert p in s || p in t;
      assert Inside(p, e) || Inside(p, f);
    }
  }

  lemma TightSameElements(e: Extent, s: seq<Point>, t: seq<Point>)
    requires Tight(e, s)
    requires forall p :: p in s <==> p in t
    ensures Tight(e, t)
  {
    forall a: Axis, c: int | Touches(s, a, c)
      ensures Touches(t, a, c)
    {
      TouchesWider(s, t, a, c);
    }
    forall p | p in t
      ensures Inside(p, e)
    {
      assert p in s;
    }
  }

  /** A box that does not cover a tight range leaves one of its points outside. */
  lemma UncoveredSurvivor(b: Box, e: Extent, s: seq<Point>) returns (p: Point)
    requires Tight(e, s)
    requires !Covers(b, e)
    ensures p in s && !InBox(p, b)
  {
    if b.lo.x > e.lo.x {
      p := TouchedPoint(s, 0, e.lo.x);
    } else if b.hi.x <= e.hi.x {
      p := TouchedPoint(s, 0, e.hi.x);
    } else if b.lo.y > e.lo.y {
      p := TouchedPoint(s, 1, e.lo.y);
    } else if b.hi.y <= e.hi.y {
      p := TouchedPoint(s, 1, e.hi.y);
    } else if b.lo.z > e.lo.z {
      p := TouchedPoint(s, 2, e.lo.z);
    } else {
      p := TouchedPoint(s, 2, e.hi.z);
    }
  }

  /** calc_dist: the squared Euclidean distance. */
  function Dist(a: Vec, b: Vec): int {
    (a.x - b.x) * (a.x - b.x) + (a.y - b.y) * (a.y - b.y) + (a.z - b.z) * (a.z - b.z)
  }

  /** Squared distance from a coordinate to a closed interval. */
  function Gap(c: int, lo: int, hi: int): int {
    (if c < lo then (c - lo) * (c - lo) else 0) + (if c > hi then (c - hi) * (c - hi) else 0)
  }

  /** A float that may be INFINITY. */
  datatype Ext = Fin(v: int) | Inf

  predicate ExtLess(a: Ext, b: Ext) {
    a.Fin? && (b.Fin? ==> a.v < b.v)
  }

  /** calc_box_dist on a node that is not null. */
  function BoxDist(e: Extent, q: Vec): Ext {
    if e.Void? then Inf
    else Fin(Gap(q.x, e.lo.x, e.hi.x) + Gap(q.y, e.lo.y, e.hi.y) + Gap(q.z, e.lo.z, e.hi.z))
  }

  lemma SquareMonotone(a: int, b: int)
    requires 0 <= a <= b
    ensures a * a <= b * b
  {
    assert a * a <= a * b <= b * b;
  }

  lemma GapBelow(c: int, lo: int, hi: int, x: int)
    requires lo <= x <= hi
    ensures Gap(c, lo, hi) <= (c - x) * (c - x)
  {
    if c < lo {
      SquareMonotone(lo - c, x - c);
      assert (lo - c) * (lo - c) == (c - lo) * (c - lo);
      assert (x - c) * (x - c) == (c - x) * (c - x);
    } else if c > hi {
      SquareMonotone(c - hi, c - x);
    }
  }

  /** calc_box_dist is a lower bound of the distance to every point in the range. */
  lemma BoxDistIsLowerBound(e: Extent, q: Vec, p: Point)
    requires Inside(p, e)
    ensures BoxDist(e, q).Fin? && BoxDist(e, q).v <= Dist(q, p.pos)
  {
    GapBelow(q.x, e.lo.x, e.hi.x, p.pos.x);
    GapBelow(q.y, e.lo.y, e.hi.y, p.pos.y);
    GapBelow(q.z, e.lo.z, e.hi.z, p.pos.z);
  }

  // ---------- What the distances are ----------

  /** Dist is the square along one axis, and the sum of the squares along all three. */
  lemma DistIsEuclidean(a: Vec, b: Vec)
    ensures Dist(a, Vec(b.x, a.y, a.z)) == (b.x - a.x) * (b.x - a.x)
    ensures Dist(a, Vec(a.x, b.y, a.z)) == (b.y - a.y) * (b.y - a.y)
    ensures Dist(a, Vec(a.x, a.y, b.z)) == (b.z - a.z) * (b.z - a.z)
    ensures Dist(a, b) == Dist(a, Vec(b.x, a.y, a.z)) + Dist(a, Vec(a.x, b.y, a.z)) + Dist(a, Vec(a.x, a.y, b.z))
  {
  }

  /** The coordinate of an interval nearest to `c`. */
  function Clamp(c: int, lo: int, hi: int): (x: int)
    requires lo <= hi
    ensures lo <= x <= hi
  {
    if c < lo then lo else if c > hi then hi else c
  }

  lemma GapAtClamp(c: int, lo: int, hi: int)
    requires lo <= hi
    ensures Gap(c, lo, hi) == (c - Clamp(c, lo, hi)) * (c - Clamp(c, lo, hi))
  {
  }

  /** calc_box_dist is attained: some place in the range is exactly that far away. */
  lemma BoxDistIsAttained(e: Extent, q: Vec) returns (near: Vec)
    requires e.Range? && e.lo.x <= e.hi.x && e.lo.y <= e.hi.y && e.lo.z <= e.hi.z
    ensures forall a: Axis :: At(e.lo, a) <= At(near, a) <= At(e.hi, a)
    ensures BoxDist(e, q) == Fin(Dist(q, near))
  {
    GapAtClamp(q.x, e.lo.x, e.hi.x);
    GapAtClamp(q.y, e.lo.y, e.hi.y);
    GapAtClamp(q.z, e.lo.z, e.hi.z);
    near := Vec(Clamp(q.x, e.lo.x, e.hi.x), Clamp(q.y, e.lo.y, e.hi.y), Clamp(q.z, e.lo.z, e.hi.z));
  }
}
