/**
 The shape of the tree: the order on the division axes and the balance that partial rebuilding
 maintains, kept by every edit.
 */
module KdBalance {
  import opened Geometry
  import opened PointSeqs
  import opened KdModel
  import opened KdBuild
  import opened KdEdit

  // ---------- Axis order ----------

  ghost predicate Within(s: seq<Point>, t: seq<Point>) {
    forall q :: q in s ==> q in t
  }

  lemma PushSonShape(flag: bool, s: Tree, tdel: bool, tdds: bool)
    ensures Stored(PushSon(flag, s, tdel, tdds)) == Stored(s)
    ensures Ordered(s) ==> Ordered(PushSon(flag, s, tdel, tdds))
  {
  }

  lemma PushDownShape(t: Tree)
    requires Ordered(t)
    ensures Stored(PushDown(t)) == Stored(t) && Ordered(PushDown(t))
  {
    if t.Node? {
      PushSonShape(t.d.pushL, t.left, t.d.tdel, t.d.tdds);
      PushSonShape(t.d.pushR, t.right, t.d.tdel, t.d.tdds);
    }
  }

  lemma {:induction false} LiveIsStored(t: Tree)
    ensures Within(Live(t), Stored(t))
  {
    if !Dead(t) {
      LiveIsStored(t.left);
      LiveIsStored(t.right);
    }
  }

  lemma RebuildOrdered(c: Config, t: Tree)
    requires t.Node? && Ordered(t)
    ensures Ordered(Rebuild(c, t)) && Within(Stored(Rebuild(c, t)), Stored(t))
  {
    LiveIsStored(t);
    BuildIsOrdered(c.nth, Live(t));
    BuildStoresInput(c.nth, Live(t));
    SameMembers(Stored(Build(c.nth, Live(t))), Live(t));
  }

  lemma SettleOrdered(c: Config, t: Tree, allow: bool)
    requires t.Node? && Ordered(t.left) && Ordered(t.right)
    requires BelowAll(Stored(t.left), t.d.axis, Coord(t.d.point, t.d.axis))
    requires AboveAll(Stored(t.right), t.d.axis, Coord(t.d.point, t.d.axis))
    ensures Ordered(Settle(c, t, allow)) && Within(Stored(Settle(c, t, allow)), Stored(t))
  {
    assert Ordered(Update(t));
    assert Stored(Update(t)) == Stored(t);
    RebuildOrdered(c, Update(t));
  }

  /** Add_by_point keeps the order on every division axis and stores nothing but the new point. */
  lemma {:induction false} AddOrdered(c: Config, t: Tree, p: Point, allow: bool, fatherAxis: Axis, v: Tree)
    requires Ordered(t) && v == AddPoint(c, t, p, allow, fatherAxis)
    ensures Ordered(v) && Within(Stored(v), Stored(t) + [p])
    decreases Count(t)
  {
    if t.Node? {
      var u := PushDown(t);
      PushDownShape(t);
      var son := if GoesLeft(p, u.d) then u.left else u.right;
      var grown := AddPoint(c, son, p, allow, u.d.axis);
      AddOrdered(c, son, p, allow, u.d.axis, grown);
      var w := AddBelow(c, u, p, allow);
      SettleOrdered(c, w, allow);
      assert Within(Stored(w), Stored(t) + [p]);
    }
  }

  /** Delete_by_range keeps the order on every division axis and stores nothing new. */
  lemma {:induction false} DeleteOrdered(c: Config, t: Tree, b: Box, allow: bool, ds: bool, v: Tree)
    requires Ordered(t) && v == DeleteRange(c, t, b, allow, ds).tree
    ensures Ordered(v) && Within(Stored(v), Stored(t))
    decreases Count(t)
  {
    if !Dead(t) {
      var u := PushDown(t);
      PushDownShape(t);
      if !Misses(b, u.d.range) && !Covers(b, u.d.range) {
        var l, r := DeleteRange(c, u.left, b, allow, ds).tree, DeleteRange(c, u.right, b, allow, ds).tree;
        DeleteOrdered(c, u.left, b, allow, ds, l);
        DeleteOrdered(c, u.right, b, allow, ds, r);
        var w := DeleteBelow(c, u, b, allow, ds).tree;
        SettleOrdered(c, w, allow);
        assert Within(Stored(w), Stored(u));
      }
    }
  }

  // ---------- Balance ----------

  /** No son holds more than 3/5 of what is below a node of 11 points or more. */
  predicate NodeBalanced(size: int, l: int, r: int, lim: nat) {
    MINIMAL_UNBALANCED_TREE_SIZE < size < lim ==> 5 * l <= 3 * (size - 1) && 5 * r <= 3 * (size - 1)
  }

  /** Balance of every node that Rebuild would rebuild at once. */
  ghost predicate Balanced(t: Tree, lim: nat) {
    t.Node? ==>
      && NodeBalanced(t.d.size, Size(t.left), Size(t.right), lim)
      && Balanced(t.left, lim) && Balanced(t.right, lim)
  }

  lemma {:induction false} HalvedIsBalanced(t: Tree, lim: nat)
    requires Halved(t)
    ensures Balanced(t, lim)
  {
    if t.Node? {
      HalvedIsBalanced(t.left, lim);
      HalvedIsBalanced(t.right, lim);
    }
  }

  lemma PushDownBalanced(t: Tree, lim: nat)
    requires Balanced(t, lim)
    ensures Balanced(PushDown(t), lim)
  {
  }

  /** A node that passes Criterion_Check is balanced on both sides, though only one side is looked at. */
  lemma CriterionBalances(u: Tree, lim: nat)
    requires u.Node? && u.d.size == 1 + Size(u.left) + Size(u.right) && !Criterion(u)
    ensures NodeBalanced(u.d.size, Size(u.left), Size(u.right), lim)
  {
  }

  lemma SettleBalanced(c: Config, t: Tree)
    requires t.Node? && Balanced(t.left, c.lim) && Balanced(t.right, c.lim)
    ensures Balanced(Settle(c, t, true), c.lim)
  {
    var u := Update(t);
    if !Criterion(u) {
      CriterionBalances(u, c.lim);
    } else if u.d.size < c.lim {
      BuildIsHalved(c.nth, Live(u));
      HalvedIsBalanced(Build(c.nth, Live(u)), c.lim);
    }
  }

  /** Add_by_point with rebuilding allowed keeps the tree balanced. */
  lemma {:induction false} AddBalanced(c: Config, t: Tree, p: Point, fatherAxis: Axis, v: Tree)
    requires Balanced(t, c.lim) && v == AddPoint(c, t, p, true, fatherAxis)
    ensures Balanced(v, c.lim)
    decreases Count(t)
  {
    if t.Node? {
      var u := PushDown(t);
      PushDownBalanced(t, c.lim);
      var son := if GoesLeft(p, u.d) then u.left else u.right;
      var grown := AddPoint(c, son, p, true, u.d.axis);
      AddBalanced(c, son, p, u.d.axis, grown);
      SettleBalanced(c, AddBelow(c, u, p, true));
    }
  }

  /** Delete_by_range with rebuilding allowed keeps the tree balanced. */
  lemma {:induction false} DeleteBalanced(c: Config, t: Tree, b: Box, ds: bool, v: Tree)
    requires Balanced(t, c.lim) && v == DeleteRange(c, t, b, true, ds).tree
    ensures Balanced(v, c.lim)
    decreases Count(t)
  {
    if !Dead(t) {
      var u := PushDown(t);
      PushDownBalanced(t, c.lim);
      if !Misses(b, u.d.range) && !Covers(b, u.d.range) {
        var l, r := DeleteRange(c, u.left, b, true, ds).tree, DeleteRange(c, u.right, b, true, ds).tree;
        DeleteBalanced(c, u.left, b, ds, l);
        DeleteBalanced(c, u.right, b, ds, r);
        SettleBalanced(c, DeleteBelow(c, u, b, true, ds).tree);
      }
    }
  }

  // ---------- Height ----------

  function Pow3(e: nat): nat { if e == 0 then 1 else 3 * Pow3(e - 1) }

  function Pow5(e: nat): nat { if e == 0 then 1 else 5 * Pow5(e - 1) }

  lemma {:induction false} HeightAtMostCount(t: Tree)
    ensures Height(t) <= Count(t)
  {
    if t.Node? {
      HeightAtMostCount(t.left);
      HeightAtMostCount(t.right);
    }
  }

  lemma GrowthStep(k: nat, size: nat, son: nat)
    requires 5 * son <= 3 * (size - 1)
    requires Pow3(k) * son >= Pow5(k)
    ensures Pow3(k + 1) * size >= Pow5(k + 1)
  {
    var a := Pow3(k);
    assert a * (5 * son) <= a * (3 * size);
    assert a * (5 * son) == 5 * (a * son);
    assert Pow3(k + 1) * size == a * (3 * size);
  }

  /**
   TreeSize >= (5/3)^(height - 10), so a descent of Add_by_point, Delete_by_range or Search visits
   logarithmically many levels.
   */
  lemma {:induction false} BalancedIsShallow(t: Tree, lim: nat)
    requires WF(t) && Balanced(t, lim) && Size(t) < lim
    ensures var h := Height(t); h <= 10 || Pow3(h - 10) * Size(t) >= Pow5(h - 10)
    decreases Count(t)
  {
    SizeIsCount(t);
    HeightAtMostCount(t);
    if Height(t) > 10 {
      HeightStep(t);
      var son := if Height(t.left) < Height(t.right) then t.right else t.left;
      SizeIsCount(son);
      BalancedIsShallow(son, lim);
      var k := Height(son) - 10;
      if k == 0 { HeightAtMostCount(son); }
      GrowthStep(k, Size(t), Size(son));
    }
  }
}
