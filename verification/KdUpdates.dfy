/** Add_by_point and Delete_by_range on the heap. */
module KdUpdates {
  import opened Geometry
  import opened PointSeqs
  import opened KdModel
  import opened KdBuild
  import opened KdNodes
  import opened KdOps
  import E = KdEdit

  /** The common end of both: Update, Criterion_Check, Rebuild. */
  method Settle(c: Config, root: KdNode, allow: bool) returns (r: KdNode)
    requires root.SonsValid()
    requires E.Settleable(Node(root.d, TreeOf(root.left), TreeOf(root.right)))
    modifies root, ReprOf(root.left), ReprOf(root.right)
    ensures r.Valid() && fresh(r.Repr - {root} - old(ReprOf(root.left)) - old(ReprOf(root.right)))
    ensures r.tree == E.Settle(c, old(Node(root.d, TreeOf(root.left), TreeOf(root.right))), allow)
  {
    ghost var t := Node(root.d, TreeOf(root.left), TreeOf(root.right));
    UpdateKeeps(t);
    root.Update();
    r := root;
    if allow {
      var degenerate := root.CriterionCheck();
      if degenerate {
        r := Rebuild(c, root);
      }
    }
  }

  /** Add_by_point. */
  method AddByPoint(c: Config, root: KdNode?, p: Point, allow: bool, fatherAxis: Axis) returns (r: KdNode)
    requires root != null ==> root.Valid() && WF(root.tree)
    modifies ReprOf(root)
    ensures r.Valid() && fresh(r.Repr - old(ReprOf(root)))
    ensures r.tree == E.AddPoint(c, old(TreeOf(root)), p, allow, fatherAxis)
    decreases ReprOf(root), 2
  {
    if root == null {
      r := new KdNode(p, E.NextAxis(fatherAxis));
      r.Update();
      return;
    }
    PushDownKeeps(root.tree);
    PushDownOnce(root.tree);
    root.PushDown();
    r := AddPushed(c, root, p, allow);
  }

  /** Add_by_point after Push_Down. */
  method AddPushed(c: Config, root: KdNode, p: Point, allow: bool) returns (r: KdNode)
    requires root.Valid() && WF(root.tree) && PushDown(root.tree) == root.tree
    modifies root.Repr
    ensures r.Valid() && fresh(r.Repr - old(root.Repr))
    ensures r.tree == E.Settle(c, E.AddBelow(c, old(root.tree), p, allow), allow)
    decreases root.Repr, 1
  {
    E.PushedSonsSound(root.tree);
    AddedNode(c, root.tree, p, allow);
    AddToSon(c, root, p, allow);
    r := Settle(c, root, allow);
  }

  /** The descent of Add_by_point into the son on the point's side. */
  method AddToSon(c: Config, root: KdNode, p: Point, allow: bool)
    requires root.SonsValid() && WF(TreeOf(root.left)) && WF(TreeOf(root.right))
    modifies root, ReprOf(root.left), ReprOf(root.right)
    ensures root.SonsValid()
    ensures fresh(ReprOf(root.left) + ReprOf(root.right) - old(ReprOf(root.left)) - old(ReprOf(root.right)))
    ensures Node(root.d, TreeOf(root.left), TreeOf(root.right)) ==
            E.AddBelow(c, old(Node(root.d, TreeOf(root.left), TreeOf(root.right))), p, allow)
    decreases {root} + ReprOf(root.left) + ReprOf(root.right), 0
  {
    if E.GoesLeft(p, root.d) {
      AddToLeft(c, root, p, allow);
    } else {
      AddToRight(c, root, p, allow);
    }
  }

  method AddToLeft(c: Config, root: KdNode, p: Point, allow: bool)
    requires root.SonsValid() && WF(TreeOf(root.left))
    modifies root`left, ReprOf(root.left)
    ensures root.SonsValid() && root.d == old(root.d)
    ensures fresh(ReprOf(root.left) - old(ReprOf(root.left)))
    ensures root.right == old(root.right) && ReprOf(root.right) == old(ReprOf(root.right))
    ensures TreeOf(root.right) == old(TreeOf(root.right))
    ensures TreeOf(root.left) == E.AddPoint(c, old(TreeOf(root.left)), p, allow, root.d.axis)
    decreases ReprOf(root.left), 3
  {
    var son := AddByPoint(c, root.left, p, allow, root.d.axis);
    root.left := son;
  }

  method AddToRight(c: Config, root: KdNode, p: Point, allow: bool)
    requires root.SonsValid() && WF(TreeOf(root.right))
    modifies root`right, ReprOf(root.right)
    ensures root.SonsValid() && root.d == old(root.d)
    ensures fresh(ReprOf(root.right) - old(ReprOf(root.right)))
    ensures root.left == old(root.left) && ReprOf(root.left) == old(ReprOf(root.left))
    ensures TreeOf(root.left) == old(TreeOf(root.left))
    ensures TreeOf(root.right) == E.AddPoint(c, old(TreeOf(root.right)), p, allow, root.d.axis)
    decreases ReprOf(root.right), 3
  {
    var son := AddByPoint(c, root.right, p, allow, root.d.axis);
    root.right := son;
  }

  lemma AddedNode(c: Config, u: Tree, p: Point, allow: bool)
    requires u.Node? && WF(u) && u == PushDown(u)
    ensures E.Settleable(E.AddBelow(c, u, p, allow))
  {
    E.LiveOfPushed(u, u);
    var son := if E.GoesLeft(p, u.d) then u.left else u.right;
    var grown := E.AddPoint(c, son, p, allow, u.d.axis);
    E.AddKeeps(c, son, p, allow, u.d.axis, grown);
    var w := E.AddBelow(c, u, p, allow);
    E.AddNode(c, u, p, allow, u, grown, w, E.Settle(c, w, allow));
  }

  /** Delete_by_range. */
  method DeleteByRange(c: Config, root: KdNode?, b: Box, allow: bool, ds: bool) returns (r: KdNode?, count: int)
    requires root != null ==> root.Valid() && WF(root.tree)
    modifies ReprOf(root)
    ensures r != null ==> r.Valid() && fresh(r.Repr - old(ReprOf(root)))
    ensures E.Deleted(TreeOf(r), count) == E.DeleteRange(c, old(TreeOf(root)), b, allow, ds)
    decreases ReprOf(root), 2
  {
    if root == null || root.d.tdel {
      return root, 0;
    }
    PushDownKeeps(root.tree);
    PushDownOnce(root.tree);
    root.PushDown();
    if Misses(b, root.d.range) {
      return root, 0;
    }
    if Covers(b, root.d.range) {
      count := root.MarkDeleted(ds);
      return root, count;
    }
    r, count := DeletePartly(c, root, b, allow, ds);
  }

  method DeletePartly(c: Config, root: KdNode, b: Box, allow: bool, ds: bool) returns (r: KdNode, count: int)
    requires root.Valid() && WF(root.tree) && !root.tree.d.tdel && !Covers(b, root.tree.d.range)
    requires PushDown(root.tree) == root.tree
    modifies root.Repr
    ensures r.Valid() && fresh(r.Repr - old(root.Repr))
    ensures var w := E.DeleteBelow(c, old(root.tree), b, allow, ds);
      r.tree == E.Settle(c, w.tree, allow) && count == w.count
    decreases root.Repr, 1
  {
    E.PushedSonsSound(root.tree);
    DeletedNode(c, root.tree, b, allow, ds);
    count := DeleteFromParts(c, root, b, allow, ds);
    r := Settle(c, root, allow);
  }

  /** The partially covered case: the node's own point and both sons. */
  method DeleteFromParts(c: Config, root: KdNode, b: Box, allow: bool, ds: bool) returns (count: int)
    requires root.SonsValid() && WF(TreeOf(root.left)) && WF(TreeOf(root.right))
    modifies root, ReprOf(root.left), ReprOf(root.right)
    ensures root.SonsValid()
    ensures fresh(ReprOf(root.left) + ReprOf(root.right) - old(ReprOf(root.left)) - old(ReprOf(root.right)))
    ensures E.Deleted(Node(root.d, TreeOf(root.left), TreeOf(root.right)), count) ==
            E.DeleteBelow(c, old(Node(root.d, TreeOf(root.left), TreeOf(root.right))), b, allow, ds)
    decreases {root} + ReprOf(root.left) + ReprOf(root.right), 0
  {
    ghost var l, r := TreeOf(root.left), TreeOf(root.right);
    count := 0;
    if E.HitsOwn(root.d, b) {
      count := 1;
    }
    root.d := E.MarkOwn(root.d, b, ds);
    var below := DeleteFromSons(c, root, b, allow, ds);
    count := count + below;
  }

  method DeleteFromSons(c: Config, root: KdNode, b: Box, allow: bool, ds: bool) returns (count: int)
    requires root.SonsValid() && WF(TreeOf(root.left)) && WF(TreeOf(root.right))
    modifies root`left, root`right, ReprOf(root.left), ReprOf(root.right)
    ensures root.SonsValid() && root.d == old(root.d)
    ensures fresh(ReprOf(root.left) + ReprOf(root.right) - old(ReprOf(root.left)) - old(ReprOf(root.right)))
    ensures TreeOf(root.left) == E.DeleteRange(c, old(TreeOf(root.left)), b, allow, ds).tree
    ensures TreeOf(root.right) == E.DeleteRange(c, old(TreeOf(root.right)), b, allow, ds).tree
    ensures count == E.DeleteRange(c, old(TreeOf(root.left)), b, allow, ds).count
                   + E.DeleteRange(c, old(TreeOf(root.right)), b, allow, ds).count
    decreases ReprOf(root.left) + ReprOf(root.right), 4
  {
    var nl := DeleteFromLeft(c, root, b, allow, ds);
    var nr := DeleteFromRight(c, root, b, allow, ds);
    count := nl + nr;
  }

  method DeleteFromLeft(c: Config, root: KdNode, b: Box, allow: bool, ds: bool) returns (count: int)
    requires root.SonsValid() && WF(TreeOf(root.left))
    modifies root`left, ReprOf(root.left)
    ensures root.SonsValid() && root.d == old(root.d)
    ensures fresh(ReprOf(root.left) - old(ReprOf(root.left)))
    ensures root.right == old(root.right) && ReprOf(root.right) == old(ReprOf(root.right))
    ensures TreeOf(root.right) == old(TreeOf(root.right))
    ensures E.Deleted(TreeOf(root.left), count) == E.DeleteRange(c, old(TreeOf(root.left)), b, allow, ds)
    decreases ReprOf(root.left), 3
  {
    var son, n := DeleteByRange(c, root.left, b, allow, ds);
    root.left := son;
    count := n;
  }

  method DeleteFromRight(c: Config, root: KdNode, b: Box, allow: bool, ds: bool) returns (count: int)
    requires root.SonsValid() && WF(TreeOf(root.right))
    modifies root`right, ReprOf(root.right)
    ensures root.SonsValid() && root.d == old(root.d)
    ensures fresh(ReprOf(root.right) - old(ReprOf(root.right)))
    ensures root.left == old(root.left) && ReprOf(root.left) == old(ReprOf(root.left))
    ensures TreeOf(root.left) == old(TreeOf(root.left))
    ensures E.Deleted(TreeOf(root.right), count) == E.DeleteRange(c, old(TreeOf(root.right)), b, allow, ds)
    decreases ReprOf(root.right), 3
  {
    var son, n := DeleteByRange(c, root.right, b, allow, ds);
    root.right := son;
    count := n;
  }

  lemma DeletedNode(c: Config, u: Tree, b: Box, allow: bool, ds: bool)
    requires u.Node? && WF(u) && !u.d.tdel && !Covers(b, u.d.range)
    requires (u.d.pushL ==> u.left.Nil?) && (u.d.pushR ==> u.right.Nil?)
    ensures E.Settleable(E.DeleteBelow(c, u, b, allow, ds).tree)
  {
    var l, r := E.DeleteRange(c, u.left, b, allow, ds), E.DeleteRange(c, u.right, b, allow, ds);
    E.DeleteKeeps(c, u.left, b, allow, ds, l);
    E.DeleteKeeps(c, u.right, b, allow, ds, r);
    var w := E.DeleteBelow(c, u, b, allow, ds);
    E.DeleteNode(c, u, b, allow, ds, l, r, w, E.Settle(c, w.tree, allow));
  }
}
