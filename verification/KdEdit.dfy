/**
 Adding a point, deleting a box and rebuilding, as functions on tree values, and what they do to
 the live points.
 */
module KdEdit {
  import opened Geometry
  import opened PointSeqs
  import opened KdModel
  import opened KdBuild

  const MINIMAL_UNBALANCED_TREE_SIZE := 10

  /** Criterion_Check with delete_criterion_param 1/2 and balance_criterion_param 3/5. */
  predicate Criterion(t: Tree)
    requires t.Node?
  {
    var son := if t.left.Node? then t.left else t.right;
    && t.d.size > MINIMAL_UNBALANCED_TREE_SIZE
    && (|| 2 * t.d.invalid > t.d.size
        || 5 * Size(son) > 3 * (t.d.size - 1)
        || 5 * Size(son) < 2 * (t.d.size - 1))
  }

  /** Rebuild: a small subtree at once, a large one is left to the rebuild thread. */
  function Rebuild(c: Config, t: Tree): Tree
    requires t.Node?
  {
    if t.d.size >= c.lim then t else Build(c.nth, Live(t))
  }

  /** The end of every edit: recompute the node, and rebuild it when it has degenerated. */
  function Settle(c: Config, t: Tree, allow: bool): Tree
    requires t.Node?
  {
    var u := Update(t);
    if allow && Criterion(u) then Rebuild(c, u) else u
  }

  predicate GoesLeft(p: Point, d: Info) {
    Coord(p, d.axis) < Coord(d.point, d.axis)
  }

  function NextAxis(a: Axis): Axis {
    (a + 1) % 3
  }

  /** Add_by_point. */
  function AddPoint(c: Config, t: Tree, p: Point, allow: bool, fatherAxis: Axis): Tree
    decreases Count(t), 1
  {
    if t.Nil? then Update(Node(Blank(p, NextAxis(fatherAxis)), Nil, Nil))
    else Settle(c, AddBelow(c, PushDown(t), p, allow), allow)
  }

  /** The descent of Add_by_point: the son on the point's side grows. */
  function AddBelow(c: Config, u: Tree, p: Point, allow: bool): (w: Tree)
    requires u.Node?
    ensures w.Node?
    decreases Count(u), 0
  {
    if GoesLeft(p, u.d) then Node(u.d, AddPoint(c, u.left, p, allow, u.d.axis), u.right)
    else Node(u.d, u.left, AddPoint(c, u.right, p, allow, u.d.axis))
  }

  /** The covered case of Delete_by_range. */
  function MarkDeleted(d: Info, ds: bool): Info {
    d.(tdel := true, pdel := true, pushL := true, pushR := true, invalid := d.size,
       tdds := d.tdds || ds, pdds := d.pdds || ds, downDel := if ds then d.size else d.downDel)
  }

  predicate HitsOwn(d: Info, b: Box) {
    !d.pdel && InBox(d.point, b)
  }

  function MarkOwn(d: Info, b: Box, ds: bool): Info {
    if HitsOwn(d, b) then d.(pdel := true, pdds := d.pdds || ds) else d
  }

  datatype Deleted = Deleted(tree: Tree, count: int)

  /** Delete_by_range: the new subtree and the number of points it deleted. */
  function DeleteRange(c: Config, t: Tree, b: Box, allow: bool, ds: bool): (r: Deleted)
    decreases Count(t), 1
  {
    if Dead(t) then Deleted(t, 0)
    else
      var u := PushDown(t);
      if Misses(b, u.d.range) then Deleted(u, 0)
      else if Covers(b, u.d.range) then Deleted(u.(d := MarkDeleted(u.d, ds)), u.d.size - u.d.invalid)
      else
        var w := DeleteBelow(c, u, b, allow, ds);
        Deleted(Settle(c, w.tree, allow), w.count)
  }

  /** The partially covered case: the node's own point, then both sons. */
  function DeleteBelow(c: Config, u: Tree, b: Box, allow: bool, ds: bool): (w: Deleted)
    requires u.Node?
    ensures w.tree.Node?
    decreases Count(u), 0
  {
    var l := DeleteRange(c, u.left, b, allow, ds);
    var r := DeleteRange(c, u.right, b, allow, ds);
    Deleted(Node(MarkOwn(u.d, b, ds), l.tree, r.tree),
            (if HitsOwn(u.d, b) then 1 else 0) + l.count + r.count)
  }

  // ---------- Live points ----------

  /** Rebuilding keeps the live points, and never flattens to nothing. */
  lemma RebuildKeeps(c: Config, t: Tree)
    requires t.Node? && WF(t) && Live(t) != []
    ensures WF(Rebuild(c, t)) && Rebuild(c, t).Node?
    ensures multiset(Live(Rebuild(c, t))) == multiset(Live(t))
  {
    BuildIsWellFormed(c.nth, Live(t));
    BuildStoresInput(c.nth, Live(t));
  }

  /** What an edited node must satisfy before it is recomputed: sound sons and something to live for. */
  ghost predicate Settleable(t: Tree) {
    && t.Node? && WF(t.left) && WF(t.right)
    && (t.d.pdds ==> t.d.pdel)
    && Harmless(t.d.pushL, t.left) && Harmless(t.d.pushR, t.right)
    && Own(t.d) + Live(t.left) + Live(t.right) != []
  }

  lemma SettleKeeps(c: Config, t: Tree, allow: bool, u: Tree)
    requires Settleable(t) && u == Settle(c, t, allow)
    ensures WF(u) && u.Node?
    ensures multiset(Live(u)) == multiset(Own(t.d) + Live(t.left) + Live(t.right))
  {
    UpdateKeeps(t);
    RebuildKeeps(c, Update(t));
  }

  lemma PushedSonsSound(t: Tree)
    requires t.Node? && WF(t)
    ensures WF(PushDown(t).left) && WF(PushDown(t).right)
  {
    PushDownKeeps(t);
  }

  /** A pushed-down node means its own point and what its sons mean. */
  lemma LiveOfPushed(t: Tree, u: Tree)
    requires t.Node? && WF(t) && u == PushDown(t)
    ensures WF(u) && Live(t) == Own(u.d) + Live(u.left) + Live(u.right)
    ensures u.d.pdds ==> u.d.pdel
    ensures (u.d.pushL ==> u.left.Nil?) && (u.d.pushR ==> u.right.Nil?)
  {
    PushDownKeeps(t);
  }

  lemma JoinOneMore(own: seq<Point>, l: seq<Point>, r: seq<Point>, more: seq<Point>, p: Point)
    ensures multiset(more) == multiset(l) + multiset{p} ==>
      multiset(own + more + r) == multiset(own + l + r) + multiset{p}
    ensures multiset(more) == multiset(r) + multiset{p} ==>
      multiset(own + l + more) == multiset(own + l + r) + multiset{p}
  {
  }

  lemma AddLeaf(c: Config, p: Point, allow: bool, fatherAxis: Axis, v: Tree)
    requires v == AddPoint(c, Nil, p, allow, fatherAxis)
    ensures WF(v) && FreshLeaf(v) && Live(v) == [p]
  {
    UpdateKeeps(Node(Blank(p, NextAxis(fatherAxis)), Nil, Nil));
  }

  lemma MoreThanNothing(s: seq<Point>, t: seq<Point>, p: Point)
    requires multiset(s) == multiset(t) + multiset{p}
    ensures s != []
  {
    assert p in multiset(s);
  }

  /** A node whose sons are sound, with one more live point than before, can be settled. */
  lemma AddSettleable(t: Tree, p: Point, u: Tree, l: Tree, r: Tree)
    requires t.Node? && WF(t) && u == PushDown(t)
    requires WF(l) && (u.d.pushL && l.Node? ==> FreshLeaf(l))
    requires WF(r) && (u.d.pushR && r.Node? ==> FreshLeaf(r))
    requires multiset(Own(u.d) + Live(l) + Live(r)) == multiset(Live(t)) + multiset{p}
    ensures Settleable(Node(u.d, l, r))
  {
    LiveOfPushed(t, u);
    MoreThanNothing(Own(u.d) + Live(l) + Live(r), Live(t), p);
  }

  lemma AddStep(c: Config, t: Tree, p: Point, allow: bool, u: Tree, l: Tree, r: Tree, v: Tree)
    requires t.Node? && WF(t) && u == PushDown(t)
    requires WF(l) && (u.d.pushL && l.Node? ==> FreshLeaf(l))
    requires WF(r) && (u.d.pushR && r.Node? ==> FreshLeaf(r))
    requires multiset(Own(u.d) + Live(l) + Live(r)) == multiset(Live(t)) + multiset{p}
    requires v == Settle(c, Node(u.d, l, r), allow)
    ensures Settleable(Node(u.d, l, r))
    ensures WF(v) && v.Node? && multiset(Live(v)) == multiset(Live(t)) + multiset{p}
  {
    AddSettleable(t, p, u, l, r);
    SettleKeeps(c, Node(u.d, l, r), allow, v);
  }

  /** The node case of AddKeeps, from what is known about the son that grew. */
  lemma AddNode(c: Config, t: Tree, p: Point, allow: bool, u: Tree, grown: Tree, w: Tree, v: Tree)
    requires t.Node? && WF(t) && u == PushDown(t)
    requires var son := if GoesLeft(p, u.d) then u.left else u.right;
      && WF(grown) && multiset(Live(grown)) == multiset(Live(son)) + multiset{p}
      && (son.Nil? ==> FreshLeaf(grown))
    requires w == if GoesLeft(p, u.d) then Node(u.d, grown, u.right) else Node(u.d, u.left, grown)
    requires v == Settle(c, w, allow)
    ensures Settleable(w)
    ensures WF(v) && v.Node? && multiset(Live(v)) == multiset(Live(t)) + multiset{p}
  {
    LiveOfPushed(t, u);
    JoinOneMore(Own(u.d), Live(u.left), Live(u.right), Live(grown), p);
    AddStep(c, t, p, allow, u, w.left, w.right, v);
  }

  /** Add_by_point adds exactly one point, whatever rebuilding happens on the way. */
  lemma {:induction false} AddKeeps(c: Config, t: Tree, p: Point, allow: bool, fatherAxis: Axis, v: Tree)
    requires WF(t) && v == AddPoint(c, t, p, allow, fatherAxis)
    ensures WF(v) && v.Node? && multiset(Live(v)) == multiset(Live(t)) + multiset{p}
    ensures t.Nil? ==> FreshLeaf(v)
    decreases Count(t)
  {
    if t.Nil? {
      AddLeaf(c, p, allow, fatherAxis, v);
    } else {
      var u := PushDown(t);
      LiveOfPushed(t, u);
      var son := if GoesLeft(p, u.d) then u.left else u.right;
      var grown := AddPoint(c, son, p, allow, u.d.axis);
      AddKeeps(c, son, p, allow, u.d.axis, grown);
      AddNode(c, t, p, allow, u, grown, AddBelow(c, u, p, allow), v);
    }
  }

  // ---------- Deleting ----------

  lemma MarkDeletedKeeps(u: Tree, b: Box, ds: bool, v: Tree)
    requires u.Node? && WF(u) && !u.d.tdel && Covers(b, u.d.range)
    requires v == u.(d := MarkDeleted(u.d, ds))
    ensures WF(v) && Live(v) == []
    ensures Filter(Live(u), In(b)) == Live(u) && Filter(Live(u), Not(In(b))) == []
    ensures u.d.size - u.d.invalid == |Live(u)|
  {
    CountersAreExact(u);
    forall p | p in Live(u)
      ensures InBox(p, b)
    {
      assert Inside(p, u.d.range);
    }
    FilterAll(Live(u), In(b));
    FilterNone(Live(u), Not(In(b)));
  }

  lemma MissedRange(u: Tree, b: Box)
    requires u.Node? && WF(u) && !u.d.tdel && Misses(b, u.d.range)
    ensures Filter(Live(u), In(b)) == [] && Filter(Live(u), Not(In(b))) == Live(u)
  {
    forall p | p in Live(u)
      ensures !InBox(p, b)
    {
      assert Inside(p, u.d.range);
    }
    FilterNone(Live(u), In(b));
    FilterAll(Live(u), Not(In(b)));
  }

  lemma FilterThree(a: seq<Point>, l: seq<Point>, r: seq<Point>, f: Point -> bool)
    ensures Filter(a + l + r, f) == Filter(a, f) + Filter(l, f) + Filter(r, f)
  {
    FilterAppend(a + l, r, f);
    FilterAppend(a, l, f);
  }

  lemma MarkOwnFilters(d: Info, b: Box, ds: bool)
    ensures Own(MarkOwn(d, b, ds)) == Filter(Own(d), Not(In(b)))
    ensures (if HitsOwn(d, b) then 1 else 0) == |Filter(Own(d), In(b))|
  {
    assert Own(d) == [] || (Own(d) == [d.point] && Own(d)[1..] == []);
  }

  lemma JoinFiltered(own: seq<Point>, l: seq<Point>, r: seq<Point>, l': seq<Point>, r': seq<Point>, f: Point -> bool)
    requires multiset(l') == multiset(Filter(l, f)) && multiset(r') == multiset(Filter(r, f))
    ensures multiset(Filter(own, f) + l' + r') == multiset(Filter(own + l + r, f))
  {
    FilterThree(own, l, r, f);
  }

  /** A box that does not cover the tight range of a live node spares one of its points. */
  lemma SomethingSurvives(u: Tree, b: Box)
    requires u.Node? && WF(u) && !u.d.tdel && !Covers(b, u.d.range)
    ensures Filter(Live(u), Not(In(b))) != []
  {
    var p := UncoveredSurvivor(b, u.d.range, Live(u));
    FilterMember(Live(u), Not(In(b)), p);
  }

  lemma DeleteJoin(u: Tree, b: Box, ds: bool, l: Tree, r: Tree, rest: seq<Point>)
    requires u.Node? && WF(u) && !u.d.tdel && !Covers(b, u.d.range)
    requires multiset(Live(l)) == multiset(Filter(Live(u.left), Not(In(b))))
    requires multiset(Live(r)) == multiset(Filter(Live(u.right), Not(In(b))))
    requires rest == Own(MarkOwn(u.d, b, ds)) + Live(l) + Live(r)
    ensures multiset(rest) == multiset(Filter(Live(u), Not(In(b)))) && rest != []
  {
    MarkOwnFilters(u.d, b, ds);
    JoinFiltered(Own(u.d), Live(u.left), Live(u.right), Live(l), Live(r), Not(In(b)));
    SomethingSurvives(u, b);
    SameMembers(rest, Filter(Live(u), Not(In(b))));
  }

  lemma DeleteStep(c: Config, u: Tree, b: Box, allow: bool, ds: bool, t: Tree, v: Tree)
    requires u.Node? && WF(u) && !u.d.tdel && !Covers(b, u.d.range)
    requires t.Node? && t.d == MarkOwn(u.d, b, ds) && WF(t.left) && WF(t.right)
    requires (u.d.pushL ==> t.left.Nil?) && (u.d.pushR ==> t.right.Nil?)
    requires multiset(Live(t.left)) == multiset(Filter(Live(u.left), Not(In(b))))
    requires multiset(Live(t.right)) == multiset(Filter(Live(u.right), Not(In(b))))
    requires v == Settle(c, t, allow)
    ensures Settleable(t)
    ensures WF(v) && v.Node? && multiset(Live(v)) == multiset(Filter(Live(u), Not(In(b))))
  {
    DeleteJoin(u, b, ds, t.left, t.right, Own(t.d) + Live(t.left) + Live(t.right));
    SettleKeeps(c, t, allow, v);
  }

  /** The partially covered case, from what is known about the sons. */
  lemma DeleteNode(c: Config, u: Tree, b: Box, allow: bool, ds: bool, l: Deleted, r: Deleted, w: Deleted, v: Tree)
    requires u.Node? && WF(u) && !u.d.tdel && !Covers(b, u.d.range)
    requires (u.d.pushL ==> u.left.Nil?) && (u.d.pushR ==> u.right.Nil?)
    requires WF(l.tree) && l.tree.Nil? == u.left.Nil?
    requires WF(r.tree) && r.tree.Nil? == u.right.Nil?
    requires multiset(Live(l.tree)) == multiset(Filter(Live(u.left), Not(In(b))))
    requires multiset(Live(r.tree)) == multiset(Filter(Live(u.right), Not(In(b))))
    requires l.count == |Filter(Live(u.left), In(b))| && r.count == |Filter(Live(u.right), In(b))|
    requires w.tree == Node(MarkOwn(u.d, b, ds), l.tree, r.tree)
    requires w.count == (if HitsOwn(u.d, b) then 1 else 0) + l.count + r.count
    requires v == Settle(c, w.tree, allow)
    ensures Settleable(w.tree)
    ensures WF(v) && v.Node? && multiset(Live(v)) == multiset(Filter(Live(u), Not(In(b))))
    ensures w.count == |Filter(Live(u), In(b))|
  {
    MarkOwnFilters(u.d, b, ds);
    FilterThree(Own(u.d), Live(u.left), Live(u.right), In(b));
    DeleteStep(c, u, b, allow, ds, w.tree, v);
  }

  /** Delete_by_range deletes exactly the live points in the half-open box and counts them. */
  lemma {:induction false} DeleteKeeps(c: Config, t: Tree, b: Box, allow: bool, ds: bool, v: Deleted)
    requires WF(t) && v == DeleteRange(c, t, b, allow, ds)
    ensures WF(v.tree) && v.tree.Nil? == t.Nil?
    ensures multiset(Live(v.tree)) == multiset(Filter(Live(t), Not(In(b))))
    ensures v.count == |Filter(Live(t), In(b))|
    decreases Count(t)
  {
    if !Dead(t) {
      var u := PushDown(t);
      LiveOfPushed(t, u);
      PushDownKeeps(t);
      if Misses(b, u.d.range) {
        MissedRange(u, b);
      } else if Covers(b, u.d.range) {
        MarkDeletedKeeps(u, b, ds, v.tree);
      } else {
        var l, r := DeleteRange(c, u.left, b, allow, ds), DeleteRange(c, u.right, b, allow, ds);
        DeleteKeeps(c, u.left, b, allow, ds, l);
        DeleteKeeps(c, u.right, b, allow, ds, r);
        DeleteNode(c, u, b, allow, ds, l, r, DeleteBelow(c, u, b, allow, ds), v.tree);
      }
    }
  }
}
