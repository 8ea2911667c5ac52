/** The geometry behind Search_by_radius, over exact reals. */
module Balls {
  import opened Geometry

  datatype RVec = RVec(x: real, y: real, z: real)

  function Real(v: Vec): RVec {
    RVec(v.x as real, v.y as real, v.z as real)
  }

  function Minus(a: RVec, b: RVec): RVec {
    RVec(a.x - b.x, a.y - b.y, a.z - b.z)
  }

  function Dot(a: RVec, b: RVec): real {
    a.x * b.x + a.y * b.y + a.z * b.z
  }

  /** calc_dist over the reals. */
  function DistR(a: RVec, b: RVec): real {
    Dot(Minus(a, b), Minus(a, b))
  }

  /** Centre of a node range. */
  function Center(e: Extent): RVec
    requires e.Range?
  {
    RVec((e.lo.x as real + e.hi.x as real) * 0.5,
         (e.lo.y as real + e.hi.y as real) * 0.5,
         (e.lo.z as real + e.hi.z as real) * 0.5)
  }

  /** radius_sq: the squared half diagonal that Update caches. */
  function RadiusSq(e: Extent): real
    requires e.Range?
  {
    var h := RVec((e.hi.x as real - e.lo.x as real) * 0.5,
                  (e.hi.y as real - e.lo.y as real) * 0.5,
                  (e.hi.z as real - e.lo.z as real) * 0.5);
    Dot(h, h)
  }

  function InBall(q: RVec, radius: real): Point -> bool {
    (p: Point) => DistR(Real(p.pos), q) <= radius * radius
  }

  ghost predicate IsSqrt(f: real -> real) {
    forall x: real :: x >= 0.0 ==> f(x) >= 0.0 && f(x) * f(x) == x
  }

  lemma SquareNonNegative(a: real)
    ensures a * a >= 0.0
  {
    if a < 0.0 { assert (-a) * (-a) > 0.0; }
  }

  lemma ScaleOrder(x: real, y: real, z: real)
    requires x <= y && z >= 0.0
    ensures x * z <= y * z
  {
    assert (y - x) * z >= 0.0;
  }

  lemma SquareOrder(a: real, b: real)
    requires a >= 0.0 && b >= 0.0
    ensures a <= b <==> a * a <= b * b
  {
    assert b * b - a * a == (b - a) * (b + a);
    if a > b {
      PositiveProduct(a - b, a + b);
      assert a * a - b * b == (a - b) * (a + b);
    } else {
      ScaleOrder(0.0, b - a, b + a);
    }
  }

  lemma PositiveProduct(x: real, y: real)
    requires x > 0.0 && y > 0.0
    ensures x * y > 0.0
  {
  }

  lemma CauchySchwarz(a: RVec, b: RVec)
    ensures Dot(a, b) * Dot(a, b) <= Dot(a, a) * Dot(b, b)
  {
    var u, v, w := a.x * b.y - a.y * b.x, a.y * b.z - a.z * b.y, a.z * b.x - a.x * b.z;
    SquareNonNegative(u);
    SquareNonNegative(v);
    SquareNonNegative(w);
    Lagrange(a.x, a.y, a.z, b.x, b.y, b.z);
  }

  lemma Lagrange(a: real, b: real, c: real, x: real, y: real, z: real)
    ensures (a * a + b * b + c * c) * (x * x + y * y + z * z) - (a * x + b * y + c * z) * (a * x + b * y + c * z)
         == (a * y - b * x) * (a * y - b * x) + (b * z - c * y) * (b * z - c * y) + (c * x - a * z) * (c * x - a * z)
  {
  }

  /** The triangle inequality |a + b| <= r + s for vectors of length at most r and s. */
  lemma Triangle(a: RVec, b: RVec, r: real, s: real)
    requires r >= 0.0 && s >= 0.0
    requires Dot(a, a) <= r * r && Dot(b, b) <= s * s
    ensures var c := RVec(a.x + b.x, a.y + b.y, a.z + b.z); Dot(c, c) <= (r + s) * (r + s)
  {
    CauchySchwarz(a, b);
    LengthNonNegative(b);
    SquareNonNegative(r);
    CrossTerm(Dot(a, a), Dot(b, b), Dot(a, b), r, s);
    var c := RVec(a.x + b.x, a.y + b.y, a.z + b.z);
    assert Dot(c, c) == Dot(a, a) + 2.0 * Dot(a, b) + Dot(b, b);
    assert (r + s) * (r + s) == r * r + 2.0 * (r * s) + s * s;
  }

  lemma LengthNonNegative(a: RVec)
    ensures Dot(a, a) >= 0.0
  {
    SquareNonNegative(a.x);
    SquareNonNegative(a.y);
    SquareNonNegative(a.z);
  }

  lemma CrossTerm(aa: real, bb: real, ab: real, r: real, s: real)
    requires r >= 0.0 && s >= 0.0 && 0.0 <= bb <= s * s && aa <= r * r
    requires ab * ab <= aa * bb
    ensures ab <= r * s
  {
    ScaleOrder(aa, r * r, bb);
    SquareNonNegative(r);
    ScaleOrder(bb, s * s, r * r);
    ScaleOrder(0.0, r, s);
    SquaresMultiply(r, s);
    if ab > r * s {
      SquareOrder(ab, r * s);
    }
  }

  lemma SquaresMultiply(r: real, s: real)
    ensures (s * s) * (r * r) == (r * s) * (r * s)
  {
  }

  lemma HalfSide(lo: real, hi: real, x: real)
    requires lo <= x <= hi
    ensures (x - (lo + hi) * 0.5) * (x - (lo + hi) * 0.5) <= ((hi - lo) * 0.5) * ((hi - lo) * 0.5)
  {
    var d, h := x - (lo + hi) * 0.5, (hi - lo) * 0.5;
    assert -h <= d <= h;
    if d >= 0.0 { SquareOrder(d, h); } else { SquareOrder(-d, h); assert (-d) * (-d) == d * d; }
  }

  /** Every point of a range is within its half diagonal of its centre. */
  lemma InsideHalfDiagonal(e: Extent, p: Point)
    requires Inside(p, e)
    ensures DistR(Real(p.pos), Center(e)) <= RadiusSq(e)
  {
    HalfSide(e.lo.x as real, e.hi.x as real, p.pos.x as real);
    HalfSide(e.lo.y as real, e.hi.y as real, p.pos.y as real);
    HalfSide(e.lo.z as real, e.hi.z as real, p.pos.z as real);
  }

  lemma DistSymmetric(a: RVec, b: RVec)
    ensures DistR(a, b) == DistR(b, a) && DistR(a, b) >= 0.0
  {
    var d, f := Minus(a, b), Minus(b, a);
    assert d.x * d.x == f.x * f.x && d.y * d.y == f.y * f.y && d.z * d.z == f.z * f.z;
    LengthNonNegative(d);
  }

  lemma TriangleDist(a: RVec, b: RVec, c: RVec, r: real, s: real)
    requires r >= 0.0 && s >= 0.0
    requires DistR(a, b) <= r * r && DistR(b, c) <= s * s
    ensures DistR(a, c) <= (r + s) * (r + s)
  {
    Triangle(Minus(a, b), Minus(b, c), r, s);
    var u, v := Minus(a, b), Minus(b, c);
    assert RVec(u.x + v.x, u.y + v.y, u.z + v.z) == Minus(a, c);
  }

  /** `dist > radius + sqrt(radius_sq)`: no point of the range is in the ball. */
  lemma RejectIsSafe(e: Extent, q: RVec, radius: real, d: real, s: real, p: Point)
    requires Inside(p, e) && radius >= 0.0
    requires d >= 0.0 && d * d == DistR(Center(e), q)
    requires s >= 0.0 && s * s == RadiusSq(e)
    requires d > radius + s
    ensures !InBall(q, radius)(p)
  {
    if InBall(q, radius)(p) {
      InsideHalfDiagonal(e, p);
      DistSymmetric(Real(p.pos), Center(e));
      TriangleDist(Center(e), Real(p.pos), q, s, radius);
      SquareOrder(d, s + radius);
      assert false;
    }
  }

  /** `dist <= radius - sqrt(radius_sq)`: every point of the range is in the ball. */
  lemma TakeAllIsSafe(e: Extent, q: RVec, radius: real, d: real, s: real, p: Point)
    requires Inside(p, e) && radius >= 0.0
    requires d >= 0.0 && d * d == DistR(Center(e), q)
    requires s >= 0.0 && s * s == RadiusSq(e)
    requires d <= radius - s
    ensures InBall(q, radius)(p)
  {
    InsideHalfDiagonal(e, p);
    TriangleDist(Real(p.pos), Center(e), q, s, d);
    SquareOrder(s + d, radius);
  }
}
