/** Search_by_range and Search_by_radius on the heap. Both push flags down as they go. */
module KdRangeSearch {
  import opened Geometry
  import opened PointSeqs
  import opened KdModel
  import opened KdNodes
  import opened KdOps
  import opened Balls
  import E = KdEdit

  lemma Pushed(t: Tree)
    requires t.Node? && WF(t)
    ensures var u := PushDown(t);
      && u.Node? && SameButFlags(t, u) && PushDown(u) == u && Live(t) == Live(u)
      && Live(u) == Own(u.d) + Live(u.left) + Live(u.right)
      && WF(u.left) && WF(u.right)
  {
    PushDownKeeps(t);
    PushDownOnce(t);
    E.LiveOfPushed(t, PushDown(t));
  }

  lemma {:induction false} PushAllTwice(t: Tree)
    ensures PushAll(PushAll(t)) == PushAll(t)
    decreases Count(t)
  {
    if t.Node? {
      var u := PushDown(t);
      PushAllTwice(u.left);
      PushAllTwice(u.right);
      assert PushDown(PushAll(t)) == PushAll(t);
    }
  }

  /** The selected points come out in the order node, left son, right son. */
  lemma SearchOrder(u: Tree, f: Point -> bool, storage: seq<Point>, out: seq<Point>)
    requires u.Node? && Live(u) == Own(u.d) + Live(u.left) + Live(u.right)
    requires out == storage + if !u.d.pdel && f(u.d.point) then [u.d.point] else []
    ensures out + Filter(Live(u.left), f) + Filter(Live(u.right), f) == storage + Filter(Live(u), f)
  {
    var own, l, r := Own(u.d), Live(u.left), Live(u.right);
    E.FilterThree(own, l, r, f);
    FilterOwn(u.d, f);
    FlattenOrder(storage, Filter(own, f), Filter(l, f), Filter(r, f));
  }

  lemma FilterOwn(d: Info, f: Point -> bool)
    ensures Filter(Own(d), f) == if !d.pdel && f(d.point) then [d.point] else []
  {
    if !d.pdel {
      assert Own(d)[0] == d.point && Own(d)[1..] == [];
    }
  }

  /** Closes a search of a node whose sons had flags pushed around. */
  ghost method Reflag(root: KdNode, u: Tree)
    requires root.SonsValid() && u.Node? && root.d == u.d && WF(u) && PushDown(u) == u
    requires SameButFlags(u.left, TreeOf(root.left)) && SameButFlags(u.right, TreeOf(root.right))
    modifies root`Repr, root`tree
    ensures root.Valid() && root.Repr == {root} + ReprOf(root.left) + ReprOf(root.right)
    ensures SameButFlags(u, root.tree)
  {
    SameSons(u, TreeOf(root.left), TreeOf(root.right));
    root.Mirror();
  }

  lemma MissedNode(u: Tree, b: Box)
    requires u.Node? && WF(u) && Misses(b, u.d.range)
    ensures Filter(Live(u), In(b)) == []
  {
    if !u.d.tdel { E.MissedRange(u, b); }
  }

  lemma CoveredNode(u: Tree, b: Box)
    requires u.Node? && WF(u) && Covers(b, u.d.range)
    ensures Filter(Live(u), In(b)) == Live(u)
  {
    if !u.d.tdel { E.MarkDeletedKeeps(u, b, false, u.(d := E.MarkDeleted(u.d, false))); }
  }

  /** Search_by_range: appends the live points in the half-open box. */
  method SearchByRange(root: KdNode?, b: Box, storage: seq<Point>) returns (out: seq<Point>)
    requires root != null ==> root.Valid() && WF(root.tree)
    modifies ReprOf(root)
    ensures root != null ==> root.Valid() && root.Repr == old(root.Repr)
    ensures SameButFlags(old(TreeOf(root)), TreeOf(root))
    ensures out == storage + Filter(Live(old(TreeOf(root))), In(b))
    decreases ReprOf(root), 2
  {
    if root == null {
      return storage;
    }
    ghost var t := root.tree;
    Pushed(t);
    root.PushDown();
    ghost var u := root.tree;
    if Misses(b, root.d.range) {
      MissedNode(u, b);
      return storage;
    }
    if Covers(b, root.d.range) {
      CoveredNode(u, b);
      PushAllKeeps(u);
      PushAllTwice(u);
      out := Flatten(root, storage);
      return;
    }
    out := SearchByRangeNode(root, b, storage);
  }

  method SearchByRangeNode(root: KdNode, b: Box, storage: seq<Point>) returns (out: seq<Point>)
    requires root.Valid() && WF(root.tree) && PushDown(root.tree) == root.tree
    modifies root.Repr
    ensures root.Valid() && root.Repr == old(root.Repr)
    ensures SameButFlags(old(root.tree), root.tree)
    ensures out == storage + Filter(Live(old(root.tree)), In(b))
    decreases root.Repr, 1
  {
    ghost var u := root.tree;
    Pushed(u);
    out := storage;
    if InBox(root.d.point, b) && !root.d.pdel {
      out := out + [root.d.point];
    }
    SearchOrder(u, In(b), storage, out);
    out := SearchByRangeSons(root, b, out);
  }

  method SearchByRangeSons(root: KdNode, b: Box, storage: seq<Point>) returns (out: seq<Point>)
    requires root.Valid() && WF(root.tree) && PushDown(root.tree) == root.tree
    modifies root.Repr
    ensures root.Valid() && root.Repr == old(root.Repr)
    ensures SameButFlags(old(root.tree), root.tree)
    ensures out == storage + Filter(Live(old(root.tree.left)), In(b)) + Filter(Live(old(root.tree.right)), In(b))
    decreases root.Repr, 0
  {
    ghost var u := root.tree;
    Pushed(u);
    out := SearchByRangeLeft(root, b, storage);
    out := SearchByRangeRight(root, b, out);
    Reflag(root, u);
  }

  method SearchByRangeLeft(root: KdNode, b: Box, storage: seq<Point>) returns (out: seq<Point>)
    requires root.SonsValid() && WF(TreeOf(root.left))
    modifies ReprOf(root.left)
    ensures root.SonsValid() && ReprOf(root.left) == old(ReprOf(root.left))
      && ReprOf(root.right) == old(ReprOf(root.right))
    ensures SameButFlags(old(TreeOf(root.left)), TreeOf(root.left)) && TreeOf(root.right) == old(TreeOf(root.right))
    ensures out == storage + Filter(Live(old(TreeOf(root.left))), In(b))
    decreases ReprOf(root.left), 3
  {
    out := SearchByRange(root.left, b, storage);
  }

  method SearchByRangeRight(root: KdNode, b: Box, storage: seq<Point>) returns (out: seq<Point>)
    requires root.SonsValid() && WF(TreeOf(root.right))
    modifies ReprOf(root.right)
    ensures root.SonsValid() && ReprOf(root.left) == old(ReprOf(root.left))
      && ReprOf(root.right) == old(ReprOf(root.right))
    ensures SameButFlags(old(TreeOf(root.right)), TreeOf(root.right)) && TreeOf(root.left) == old(TreeOf(root.left))
    ensures out == storage + Filter(Live(old(TreeOf(root.right))), In(b))
    decreases ReprOf(root.right), 3
  {
    out := SearchByRange(root.right, b, storage);
  }

  lemma RangeOfNode(u: Tree, q: RVec)
    requires u.Node? && WF(u)
    ensures u.d.range.Range? && DistR(Center(u.d.range), q) >= 0.0 && RadiusSq(u.d.range) >= 0.0
  {
    LengthNonNegative(Minus(Center(u.d.range), q));
    var e := u.d.range;
    LengthNonNegative(RVec((e.hi.x as real - e.lo.x as real) * 0.5, (e.hi.y as real - e.lo.y as real) * 0.5,
                           (e.hi.z as real - e.lo.z as real) * 0.5));
  }

  lemma RejectedNode(u: Tree, q: RVec, radius: real, d: real, s: real)
    requires u.Node? && WF(u) && radius >= 0.0
    requires u.d.range.Range? && d >= 0.0 && d * d == DistR(Center(u.d.range), q)
    requires s >= 0.0 && s * s == RadiusSq(u.d.range)
    requires d > radius + s
    ensures Filter(Live(u), InBall(q, radius)) == []
  {
    forall p | p in Live(u)
      ensures !InBall(q, radius)(p)
    {
      assert Inside(p, u.d.range);
      RejectIsSafe(u.d.range, q, radius, d, s, p);
    }
    FilterNone(Live(u), InBall(q, radius));
  }

  lemma SwallowedNode(u: Tree, q: RVec, radius: real, d: real, s: real)
    requires u.Node? && WF(u) && radius >= 0.0
    requires u.d.range.Range? && d >= 0.0 && d * d == DistR(Center(u.d.range), q)
    requires s >= 0.0 && s * s == RadiusSq(u.d.range)
    requires d <= radius - s
    ensures Filter(Live(u), InBall(q, radius)) == Live(u)
  {
    forall p | p in Live(u)
      ensures InBall(q, radius)(p)
    {
      assert Inside(p, u.d.range);
      TakeAllIsSafe(u.d.range, q, radius, d, s, p);
    }
    FilterAll(Live(u), InBall(q, radius));
  }

  // ---------- What a radius search returns, whatever the radius ----------

  /** The first range test of Search_by_radius. */
  ghost predicate OutOfReach(e: Extent, q: RVec, radius: real, sqrt: real -> real) {
    e.Range? && sqrt(DistR(Center(e), q)) > radius + sqrt(RadiusSq(e))
  }

  /**
   The live points of the ball below no node that is out of reach. Squaring hides the sign of a
   negative radius from the ball, but not from that test.
   */
  ghost function Reached(t: Tree, q: RVec, radius: real, sqrt: real -> real): seq<Point>
    decreases Count(t)
  {
    if t.Nil? then []
    else
      var u := PushDown(t);
      if OutOfReach(u.d.range, q, radius, sqrt) then []
      else Filter(Own(u.d), InBall(q, radius)) + Reached(u.left, q, radius, sqrt) + Reached(u.right, q, radius, sqrt)
  }

  /** For a radius that is not negative these are all live points of the ball, in order. */
  lemma {:induction false} ReachedIsBall(t: Tree, q: RVec, radius: real, sqrt: real -> real)
    requires WF(t) && IsSqrt(sqrt) && radius >= 0.0
    ensures Reached(t, q, radius, sqrt) == Filter(Live(t), InBall(q, radius))
    decreases Count(t)
  {
    if t.Node? {
      var u := PushDown(t);
      Pushed(t);
      if OutOfReach(u.d.range, q, radius, sqrt) {
        RangeOfNode(u, q);
        RejectedNode(u, q, radius, sqrt(DistR(Center(u.d.range), q)), sqrt(RadiusSq(u.d.range)));
      } else {
        ReachedIsBall(u.left, q, radius, sqrt);
        ReachedIsBall(u.right, q, radius, sqrt);
        E.FilterThree(Own(u.d), Live(u.left), Live(u.right), InBall(q, radius));
      }
    }
  }

  /** For every radius they are live points of the ball, none more often than it is stored. */
  lemma {:induction false} ReachedIsLive(t: Tree, q: RVec, radius: real, sqrt: real -> real)
    requires WF(t)
    ensures multiset(Reached(t, q, radius, sqrt)) <= multiset(Filter(Live(t), InBall(q, radius)))
    decreases Count(t)
  {
    if t.Node? {
      var u := PushDown(t);
      Pushed(t);
      ReachedIsLive(u.left, q, radius, sqrt);
      ReachedIsLive(u.right, q, radius, sqrt);
      E.FilterThree(Own(u.d), Live(u.left), Live(u.right), InBall(q, radius));
    }
  }

  /** The take-all test holds for no negative radius, and otherwise takes just what is reached. */
  lemma SwallowedIsReached(t: Tree, u: Tree, q: RVec, radius: real, sqrt: real -> real, dist: real, half: real)
    requires t.Node? && WF(t) && u == PushDown(t) && IsSqrt(sqrt) && u.d.range.Range?
    requires dist == sqrt(DistR(Center(u.d.range), q)) && half == sqrt(RadiusSq(u.d.range))
    requires dist <= radius - half
    ensures Reached(t, q, radius, sqrt) == Live(u)
  {
    Pushed(t);
    RangeOfNode(u, q);
    assert dist >= 0.0 && half >= 0.0;
    SwallowedNode(u, q, radius, dist, half);
    ReachedIsBall(t, q, radius, sqrt);
  }

  /** Search_by_radius: appends the live points in the closed ball. */
  method SearchByRadius(root: KdNode?, q: RVec, radius: real, sqrt: real -> real, storage: seq<Point>)
      returns (out: seq<Point>)
    requires root != null ==> root.Valid() && WF(root.tree)
    requires IsSqrt(sqrt)
    modifies ReprOf(root)
    ensures root != null ==> root.Valid() && root.Repr == old(root.Repr)
    ensures SameButFlags(old(TreeOf(root)), TreeOf(root))
    ensures out == storage + Reached(old(TreeOf(root)), q, radius, sqrt)
    decreases ReprOf(root), 2
  {
    if root == null {
      return storage;
    }
    ghost var t := root.tree;
    Pushed(t);
    root.PushDown();
    ghost var u := root.tree;
    RangeOfNode(u, q);
    var dist := sqrt(DistR(Center(root.d.range), q));
    var half := sqrt(RadiusSq(root.d.range));
    if dist > radius + half {
      return storage;
    }
    if dist <= radius - half {
      SwallowedIsReached(t, u, q, radius, sqrt, dist, half);
      PushAllKeeps(u);
      PushAllTwice(u);
      out := Flatten(root, storage);
      return;
    }
    out := SearchByRadiusNode(root, q, radius, sqrt, storage);
  }

  /** The node's own point. */
  method WithOwn(d: Info, q: RVec, radius: real, storage: seq<Point>) returns (own: seq<Point>)
    ensures own == storage + Filter(Own(d), InBall(q, radius))
  {
    own := storage;
    if !d.pdel && DistR(Real(d.point.pos), q) <= radius * radius {
      own := own + [d.point];
    }
    FilterOwn(d, InBall(q, radius));
  }

  method SearchByRadiusNode(root: KdNode, q: RVec, radius: real, sqrt: real -> real, storage: seq<Point>)
      returns (out: seq<Point>)
    requires root.Valid() && WF(root.tree) && PushDown(root.tree) == root.tree
    requires IsSqrt(sqrt)
    modifies root.Repr
    ensures root.Valid() && root.Repr == old(root.Repr)
    ensures SameButFlags(old(root.tree), root.tree)
    ensures out == storage + (Filter(Own(old(root.d)), InBall(q, radius))
      + Reached(old(root.tree.left), q, radius, sqrt) + Reached(old(root.tree.right), q, radius, sqrt))
    decreases root.Repr, 1
  {
    ghost var f := Filter(Own(root.d), InBall(q, radius));
    ghost var l, r := Reached(root.tree.left, q, radius, sqrt), Reached(root.tree.right, q, radius, sqrt);
    var own := WithOwn(root.d, q, radius, storage);
    out := SearchByRadiusSons(root, q, radius, sqrt, own);
    FlattenOrder(storage, f, l, r);
  }

  method SearchByRadiusSons(root: KdNode, q: RVec, radius: real, sqrt: real -> real, storage: seq<Point>)
      returns (out: seq<Point>)
    requires root.Valid() && WF(root.tree) && PushDown(root.tree) == root.tree
    requires IsSqrt(sqrt)
    modifies root.Repr
    ensures root.Valid() && root.Repr == old(root.Repr)
    ensures SameButFlags(old(root.tree), root.tree)
    ensures out == storage + Reached(old(root.tree.left), q, radius, sqrt)
      + Reached(old(root.tree.right), q, radius, sqrt)
    decreases root.Repr, 0
  {
    ghost var u := root.tree;
    Pushed(u);
    out := SearchByRadiusLeft(root, q, radius, sqrt, storage);
    out := SearchByRadiusRight(root, q, radius, sqrt, out);
    Reflag(root, u);
  }

  method SearchByRadiusLeft(root: KdNode, q: RVec, radius: real, sqrt: real -> real, storage: seq<Point>)
      returns (out: seq<Point>)
    requires IsSqrt(sqrt)
    requires root.SonsValid() && WF(TreeOf(root.left))
    modifies ReprOf(root.left)
    ensures root.SonsValid() && ReprOf(root.left) == old(ReprOf(root.left))
      && ReprOf(root.right) == old(ReprOf(root.right))
    ensures SameButFlags(old(TreeOf(root.left)), TreeOf(root.left)) && TreeOf(root.right) == old(TreeOf(root.right))
    ensures out == storage + Reached(old(TreeOf(root.left)), q, radius, sqrt)
    decreases ReprOf(root.left), 3
  {
    out := SearchByRadius(root.left, q, radius, sqrt, storage);
  }

  method SearchByRadiusRight(root: KdNode, q: RVec, radius: real, sqrt: real -> real, storage: seq<Point>)
      returns (out: seq<Point>)
    requires IsSqrt(sqrt)
    requires root.SonsValid() && WF(TreeOf(root.right))
    modifies ReprOf(root.right)
    ensures root.SonsValid() && ReprOf(root.left) == old(ReprOf(root.left))
      && ReprOf(root.right) == old(ReprOf(root.right))
    ensures SameButFlags(old(TreeOf(root.right)), TreeOf(root.right)) && TreeOf(root.left) == old(TreeOf(root.left))
    ensures out == storage + Reached(old(TreeOf(root.right)), q, radius, sqrt)
    decreases ReprOf(root.right), 3
  {
    out := SearchByRadius(root.right, q, radius, sqrt, storage);
  }
}
