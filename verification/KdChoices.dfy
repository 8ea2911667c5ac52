/** The choices that shape the tree: the axis of a node, the side of a new point, and when a node is rebuilt. */
module KdChoices {
  import opened Geometry
  import opened PointSeqs
  import opened KdModel
  import opened KdBuild
  import opened KdEdit

  // ---------- BuildTree splits along the widest axis ----------

  /** No two points lie as far apart on any axis as `p` above `q` on `a`, except on the axes after `a`. */
  ghost predicate Extreme(s: seq<Point>, a: Axis, p: Point, q: Point) {
    && p in s && q in s
    && (forall b: Axis, u, v {:trigger Coord(u, b), Coord(v, b)} :: u in s && v in s ==>
         Coord(u, b) - Coord(v, b) <= Coord(p, a) - Coord(q, a))
    && (forall b: Axis, u, v {:trigger Coord(u, b), Coord(v, b)} :: b < a && u in s && v in s ==>
         Coord(u, b) - Coord(v, b) < Coord(p, a) - Coord(q, a))
  }

  /** `a` is the first axis on which the points lie farthest apart. */
  ghost predicate Widest(s: seq<Point>, a: Axis) {
    exists p, q :: Extreme(s, a, p, q)
  }

  lemma {:induction false} LowestAlong(s: seq<Point>, a: Axis) returns (q: Point)
    requires s != []
    ensures q in s && Coord(q, a) == MinAlong(s, a)
    ensures forall u :: u in s ==> MinAlong(s, a) <= Coord(u, a)
  {
    var n := |s| - 1;
    q := s[n];
    if n > 0 {
      var r := LowestAlong(s[..n], a);
      assert s == s[..n] + [s[n]];
      if Coord(r, a) < Coord(q, a) { q := r; }
    }
  }

  lemma {:induction false} HighestAlong(s: seq<Point>, a: Axis) returns (p: Point)
    requires s != []
    ensures p in s && Coord(p, a) == MaxAlong(s, a)
    ensures forall u :: u in s ==> Coord(u, a) <= MaxAlong(s, a)
  {
    var n := |s| - 1;
    p := s[n];
    if n > 0 {
      var r := HighestAlong(s[..n], a);
      assert s == s[..n] + [s[n]];
      if Coord(p, a) < Coord(r, a) { p := r; }
    }
  }

  lemma SideBounds(s: seq<Point>, b: Axis, u: Point, v: Point)
    requires u in s && v in s
    ensures Coord(u, b) - Coord(v, b) <= Side(s, b)
  {
    var p := HighestAlong(s, b);
    var q := LowestAlong(s, b);
  }

  lemma LongestIsWidest(s: seq<Point>)
    requires s != []
    ensures Widest(s, LongestAxis(s))
  {
    var a := LongestAxis(s);
    var p := HighestAlong(s, a);
    var q := LowestAlong(s, a);
    forall b: Axis, u, v | u in s && v in s
      ensures Coord(u, b) - Coord(v, b) <= Coord(p, a) - Coord(q, a)
      ensures b < a ==> Coord(u, b) - Coord(v, b) < Coord(p, a) - Coord(q, a)
    {
      SideBounds(s, b, u, v);
    }
    assert Extreme(s, a, p, q);
  }

  lemma WidestOfMembers(s: seq<Point>, t: seq<Point>, a: Axis)
    requires Widest(s, a) && forall p :: p in s <==> p in t
    ensures Widest(t, a)
  {
    var p, q :| Extreme(s, a, p, q);
    assert Extreme(t, a, p, q);
  }

  /** At every node the division axis is the widest of the points below. */
  ghost predicate SplitsWidest(t: Tree) {
    t.Node? ==> Widest(Stored(t), t.d.axis) && SplitsWidest(t.left) && SplitsWidest(t.right)
  }

  lemma {:induction false} BuildSplitsWidest(nth: Selector, s: seq<Point>)
    ensures SplitsWidest(Build(nth, s))
    decreases |s|
  {
    if s != [] {
      var t := Build(nth, s);
      LongestIsWidest(s);
      BuildStoresInput(nth, s);
      SameMembers(Stored(t), s);
      WidestOfMembers(s, Stored(t), t.d.axis);
      var a, p, ls, rs := BuildStep(nth, s);
      BuildSplitsWidest(nth, ls);
      BuildSplitsWidest(nth, rs);
    }
  }

  // ---------- Add_by_point goes down on one side ----------

  /** A new leaf splits on the axis after its father's: y below x, z below y, x below z. */
  lemma NewLeafSplits(c: Config, p: Point, allow: bool, fatherAxis: Axis)
    ensures var leaf := AddPoint(c, Nil, p, allow, fatherAxis);
      leaf.Node? && leaf.d.point == p && leaf.d.axis == if fatherAxis == 0 then 1 else if fatherAxis == 1 then 2 else 0
  {
  }

  lemma StoredOfPushed(t: Tree)
    ensures Stored(PushDown(t)) == Stored(t)
  {
    if t.Node? {
      StoredOfSon(t.d.pushL, t.left, t.d);
      StoredOfSon(t.d.pushR, t.right, t.d);
    }
  }

  lemma StoredOfSon(flag: bool, s: Tree, d: Info)
    ensures Stored(PushSon(flag, s, d.tdel, d.tdds)) == Stored(s)
  {
  }

  /** Without rebuilding, exactly one point more is stored, and everything else where it was. */
  lemma {:induction false} AddStoresOne(c: Config, t: Tree, p: Point, fatherAxis: Axis)
    ensures multiset(Stored(AddPoint(c, t, p, false, fatherAxis))) == multiset(Stored(t)) + multiset{p}
    decreases Count(t)
  {
    if t.Node? {
      var u := PushDown(t);
      StoredOfPushed(t);
      var son := if GoesLeft(p, u.d) then u.left else u.right;
      AddStoresOne(c, son, p, u.d.axis);
      var grown := AddPoint(c, son, p, false, u.d.axis);
      JoinOneMore([u.d.point], Stored(u.left), Stored(u.right), Stored(grown), p);
    }
  }

  /** A smaller coordinate on the node's axis leads left, an equal or larger one right. */
  lemma AddTakesSide(c: Config, t: Tree, p: Point, fatherAxis: Axis)
    requires t.Node?
    ensures var v := AddPoint(c, t, p, false, fatherAxis);
      && v.Node? && v.d.point == t.d.point && v.d.axis == t.d.axis
      && (if Coord(p, t.d.axis) < Coord(t.d.point, t.d.axis) then
            Stored(v.right) == Stored(t.right)
            && multiset(Stored(v.left)) == multiset(Stored(t.left)) + multiset{p}
          else
            Stored(v.left) == Stored(t.left)
            && multiset(Stored(v.right)) == multiset(Stored(t.right)) + multiset{p})
  {
    var u := PushDown(t);
    StoredOfSon(t.d.pushL, t.left, t.d);
    StoredOfSon(t.d.pushR, t.right, t.d);
    AddStoresOne(c, if GoesLeft(p, u.d) then u.left else u.right, p, u.d.axis);
  }

  // ---------- Rebuilding happens exactly when it should ----------

  /** Of `n` points `live` are live and `l` below the first son: many are deleted, or a son is too big or small. */
  predicate Degenerate(n: int, live: int, l: int) {
    n > 10 && (2 * (n - live) > n || 5 * l > 3 * (n - 1) || 5 * l < 2 * (n - 1))
  }

  /** The son that Criterion_Check looks at. */
  function FirstSon(t: Tree): Tree
    requires t.Node?
  {
    if t.left.Node? then t.left else t.right
  }

  lemma CriterionExactly(u: Tree)
    requires u.Node? && WF(u)
    ensures Criterion(u) <==> Degenerate(|Stored(u)|, |Live(u)|, |Stored(FirstSon(u))|)
  {
    CountersAreExact(u);
    CountersAreExact(FirstSon(u));
  }

  /**
   An edited node is rebuilt on the spot if and only if that is allowed, it is degenerate, and it has
   fewer points than are handed to the rebuild thread; otherwise only its fields are recomputed.
   */
  lemma RebuiltExactly(c: Config, t: Tree, allow: bool, u: Tree, v: Tree)
    requires Settleable(t) && u == Update(t) && v == Settle(c, t, allow)
    ensures var due := allow && |Stored(u)| < c.lim && Degenerate(|Stored(u)|, |Live(u)|, |Stored(FirstSon(u))|);
      if due then v == Build(c.nth, Live(u)) else v == u
  {
    UpdateKeeps(t);
    CriterionExactly(u);
    CountersAreExact(u);
  }
}
