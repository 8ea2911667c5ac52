/**
 The value of an ikd-Tree: what the fields of a subtree say at one moment.

 `Info` holds the fields of one KD_TREE_NODE, `Tree` a whole subtree. Deletion is lazy: a node that
 is `tdel` may have sons whose own fields still say otherwise until `PushDown` tells them.
 `Live` is what the subtree means, `WF` the invariant that every operation keeps.
 */
module KdModel {
  import opened Verdicts
  import opened Geometry

  datatype Info = Info(
    point: Point,
    axis: Axis,
    size: int,      // TreeSize: points below and here, deleted or not
    invalid: int,   // invalid_point_num
    downDel: int,   // down_del_num
    pdel: bool,     // point_deleted
    tdel: bool,     // tree_deleted
    pdds: bool,     // point_downsample_deleted
    tdds: bool,     // tree_downsample_deleted
    pushL: bool,    // need_push_down_to_left
    pushR: bool,    // need_push_down_to_right
    range: Extent)

  datatype Tree = Nil | Node(d: Info, left: Tree, right: Tree)

  /** A node as InitTreeNode leaves it, before Update fills in the counters. */
  function Blank(p: Point, axis: Axis): Info {
    Info(p, axis, 0, 0, 0, false, false, false, false, false, false, Range(Vec(0, 0, 0), Vec(0, 0, 0)))
  }

  function Count(t: Tree): nat {
    if t.Nil? then 0 else 1 + Count(t.left) + Count(t.right)
  }

  function Size(t: Tree): int { if t.Nil? then 0 else t.d.size }

  function Invalid(t: Tree): int { if t.Nil? then 0 else t.d.invalid }

  predicate Dead(t: Tree) { t.Nil? || t.d.tdel }

  function Own(d: Info): seq<Point> { if d.pdel then [] else [d.point] }

  /** The points the subtree stands for, in the order in which flatten meets them. */
  function Live(t: Tree): seq<Point> {
    if Dead(t) then [] else Own(t.d) + Live(t.left) + Live(t.right)
  }

  /** Every point stored in the subtree, deleted or not. */
  function Stored(t: Tree): seq<Point> {
    if t.Nil? then [] else [t.d.point] + Stored(t.left) + Stored(t.right)
  }

  // ---------- Push_Down ----------

  /** What Push_Down writes into the fields of a son (also the PUSH_DOWN case of run_operation). */
  function Received(d: Info, tdel: bool, tdds: bool): Info {
    var treeDs := d.tdds || tdds;
    var pointDs := d.pdds || tdds;
    var treeDel := tdel || treeDs;
    var down := if tdds then d.size else d.downDel;
    d.(tdds := treeDs, pdds := pointDs, tdel := treeDel, pdel := treeDel || pointDs,
       downDel := down, invalid := if tdel then d.size else down,
       pushL := true, pushR := true)
  }

  function Receive(s: Tree, tdel: bool, tdds: bool): (r: Tree)
    requires s.Node?
    ensures r.Node? && Count(r) == Count(s)
  {
    s.(d := Received(s.d, tdel, tdds))
  }

  function PushSon(flag: bool, s: Tree, tdel: bool, tdds: bool): (r: Tree)
    ensures Count(r) == Count(s) && r.Nil? == s.Nil?
  {
    if flag && s.Node? then Receive(s, tdel, tdds) else s
  }

  function PushDown(t: Tree): (r: Tree)
    ensures Count(r) == Count(t) && r.Nil? == t.Nil?
    ensures r.Node? ==> Count(r.left) == Count(t.left) && Count(r.right) == Count(t.right)
  {
    if t.Nil? then t
    else
      Node(t.d.(pushL := t.d.pushL && t.left.Nil?, pushR := t.d.pushR && t.right.Nil?),
           PushSon(t.d.pushL, t.left, t.d.tdel, t.d.tdds),
           PushSon(t.d.pushR, t.right, t.d.tdel, t.d.tdds))
  }

  /** The subtree with every pending flag pushed all the way down, as flatten leaves it. */
  function PushAll(t: Tree): (r: Tree)
    ensures Count(r) == Count(t) && r.Nil? == t.Nil?
    decreases Count(t)
  {
    if t.Nil? then t
    else
      var u := PushDown(t);
      Node(u.d, PushAll(u.left), PushAll(u.right))
  }

  // ---------- Update ----------

  /** The fields Update sees of a son. */
  datatype Son = NoSon | Son(d: Info)

  function Head(t: Tree): Son {
    if t.Nil? then NoSon else Son(t.d)
  }

  function UpdatedRange(p: Point, pdel: bool, tdel: bool, l: Son, r: Son): Extent {
    if l.Son? && r.Son? then
      if tdel || (!l.d.tdel && !r.d.tdel && !pdel) then
        Hull(Hull(l.d.range, r.d.range), Single(p))
      else
        var e := if !l.d.tdel then Hull(Void, l.d.range) else Void;
        var f := if !r.d.tdel then Hull(e, r.d.range) else e;
        if !pdel then Hull(f, Single(p)) else f
    else if l.Son? || r.Son? then
      var son := if l.Son? then l.d else r.d;
      if tdel || (!son.tdel && !pdel) then
        Hull(son.range, Single(p))
      else
        var e := if !son.tdel then Hull(Void, son.range) else Void;
        if !pdel then Hull(e, Single(p)) else e
    else
      Single(p)
  }

  /** The fields that Update recomputes from the two sons and the node's own point. */
  function Updated(d: Info, l: Son, r: Son): Info {
    var treeDel := (l.Son? ==> l.d.tdel) && (r.Son? ==> r.d.tdel) && d.pdel;
    d.(size := (if l.Son? then l.d.size else 0) + (if r.Son? then r.d.size else 0) + 1,
       invalid := (if l.Son? then l.d.invalid else 0) + (if r.Son? then r.d.invalid else 0) + (if d.pdel then 1 else 0),
       downDel := (if l.Son? then l.d.downDel else 0) + (if r.Son? then r.d.downDel else 0) + (if d.pdds then 1 else 0),
       tdds := (l.Son? ==> l.d.tdds) && (r.Son? ==> r.d.tdds) && d.pdds,
       tdel := treeDel,
       range := UpdatedRange(d.point, d.pdel, treeDel, l, r))
  }

  /** Recomputes the cached fields of a node from its sons and its own point. */
  function Update(t: Tree): (r: Tree)
    requires t.Node?
    ensures r.Node? && r.left == t.left && r.right == t.right && r.d.point == t.d.point && r.d.axis == t.d.axis
    ensures r.d.size == 1 + Size(t.left) + Size(t.right)
  {
    t.(d := Updated(t.d, Head(t.left), Head(t.right)))
  }

  // ---------- The invariant ----------

  /** A leaf that Add_by_point has just made, apart from its own pending flags. */
  predicate FreshLeaf(t: Tree) {
    && t.Node? && t.left.Nil? && t.right.Nil?
    && t.d.size == 1 && t.d.invalid == 0 && t.d.downDel == 0
    && !t.d.pdel && !t.d.tdel && !t.d.pdds && !t.d.tdds
  }

  /** A son below a deleted node is gone, is deleted itself or is still to be told. */
  predicate Doomed(flag: bool, son: Tree) {
    flag || Dead(son)
  }

  /** A pending flag of a node that is not deleted meets no son, or one that it cannot harm. */
  predicate Harmless(flag: bool, son: Tree) {
    flag && son.Node? ==> FreshLeaf(son)
  }

  /** Whether the cached fields of every node tell the truth about the points below it. */
  ghost function Inspect(t: Tree): Verdict {
    if t.Nil? || (
      && t.d.size == 1 + Size(t.left) + Size(t.right)
      && (t.d.tdds ==> t.d.tdel) && (t.d.pdds ==> t.d.pdel) && (t.d.tdel ==> t.d.pdel)
      && t.d.range.Range?
      && (if t.d.tdel then
            && t.d.invalid == t.d.size
            && Doomed(t.d.pushL, t.left) && Doomed(t.d.pushR, t.right)
          else
            && t.d.invalid == Invalid(t.left) + Invalid(t.right) + (if t.d.pdel then 1 else 0)
            && Harmless(t.d.pushL, t.left) && Harmless(t.d.pushR, t.right)
            && Tight(t.d.range, Live(t)))
      && Inspect(t.left).Sound? && Inspect(t.right).Sound?)
    then Sound else Broken
  }

  /** The invariant of every subtree. */
  ghost predicate WF(t: Tree) {
    Inspect(t).Sound?
  }

  lemma {:induction false} SizeIsCount(t: Tree)
    requires WF(t)
    ensures Size(t) == Count(t)
  {
    if t.Node? {
      SizeIsCount(t.left);
      SizeIsCount(t.right);
    }
  }

  /** validnum: TreeSize - invalid_point_num is the number of live points, pending flags or not. */
  lemma {:induction false} CountersAreExact(t: Tree)
    requires WF(t)
    ensures Size(t) == |Stored(t)|
    ensures Size(t) - Invalid(t) == |Live(t)|
  {
    if t.Node? {
      CountersAreExact(t.left);
      CountersAreExact(t.right);
    }
  }

  /** tree_deleted says exactly that nothing is left; a live node has a tight range. */
  lemma DeadIffEmpty(t: Tree)
    requires WF(t)
    ensures Dead(t) <==> Live(t) == []
    ensures !Dead(t) ==> Tight(t.d.range, Live(t))
  {
    assert !Dead(t) ==> Touches(Live(t), 0, t.d.range.lo.x);
  }

  lemma ReceiveKeeps(s: Tree, d: Info)
    requires s.Node? && WF(s)
    requires (d.tdds ==> d.tdel) && (d.tdel || FreshLeaf(s))
    ensures WF(Receive(s, d.tdel, d.tdds))
    ensures Live(Receive(s, d.tdel, d.tdds)) == if d.tdel then [] else Live(s)
    ensures !d.tdel ==> FreshLeaf(Receive(s, d.tdel, d.tdds))
  {
    var r := Receive(s, d.tdel, d.tdds);
    if !d.tdel {
      assert Live(r) == Live(s);
    }
  }

  lemma PushSonKeeps(flag: bool, s: Tree, d: Info)
    requires WF(s) && (d.tdds ==> d.tdel)
    requires if d.tdel then Doomed(flag, s) else Harmless(flag, s)
    ensures WF(PushSon(flag, s, d.tdel, d.tdds))
    ensures if d.tdel then Dead(PushSon(flag, s, d.tdel, d.tdds)) else Live(PushSon(flag, s, d.tdel, d.tdds)) == Live(s)
    ensures Size(PushSon(flag, s, d.tdel, d.tdds)) == Size(s)
    ensures !d.tdel ==>
      Invalid(PushSon(flag, s, d.tdel, d.tdds)) == Invalid(s) && Dead(PushSon(flag, s, d.tdel, d.tdds)) == Dead(s)
  {
    if flag && s.Node? { ReceiveKeeps(s, d); }
  }

  /** Moving flags and replacing sons by ones that mean the same keeps a node well formed. */
  lemma Reseat(t: Tree, u: Tree)
    requires t.Node? && WF(t)
    requires u.Node? && u.d == t.d.(pushL := u.d.pushL, pushR := u.d.pushR) && WF(u.left) && WF(u.right)
    requires Size(u.left) == Size(t.left) && Size(u.right) == Size(t.right)
    requires t.d.tdel ==> Doomed(u.d.pushL, u.left) && Doomed(u.d.pushR, u.right)
    requires !t.d.tdel ==>
      && Live(u.left) == Live(t.left) && Live(u.right) == Live(t.right)
      && Invalid(u.left) == Invalid(t.left) && Invalid(u.right) == Invalid(t.right)
      && Harmless(u.d.pushL, u.left) && Harmless(u.d.pushR, u.right)
    ensures WF(u) && Live(u) == Live(t)
  {
  }

  /** Push_Down changes where the flags sit and nothing else. */
  lemma PushDownKeeps(t: Tree)
    requires WF(t)
    ensures WF(PushDown(t)) && Live(PushDown(t)) == Live(t)
    ensures t.Node? && t.d.tdel ==> Dead(PushDown(t).left) && Dead(PushDown(t).right)
  {
    if t.Node? {
      PushSonKeeps(t.d.pushL, t.left, t.d);
      PushSonKeeps(t.d.pushR, t.right, t.d);
      Reseat(t, PushDown(t));
    }
  }

  lemma PushDownOnce(t: Tree)
    ensures PushDown(PushDown(t)) == PushDown(t)
    ensures PushAll(PushDown(t)) == PushAll(t)
  {
  }

  lemma {:induction false} PushAllKeeps(t: Tree)
    requires WF(t)
    ensures WF(PushAll(t)) && Live(PushAll(t)) == Live(t)
    ensures Size(PushAll(t)) == Size(t) && Invalid(PushAll(t)) == Invalid(t) && Dead(PushAll(t)) == Dead(t)
    ensures FreshLeaf(t) ==> FreshLeaf(PushAll(t))
    decreases Count(t)
  {
    if t.Node? {
      var u := PushDown(t);
      PushDownKeeps(t);
      PushAllKeeps(u.left);
      PushAllKeeps(u.right);
      Reseat(u, Node(u.d, PushAll(u.left), PushAll(u.right)));
    }
  }

  /** Same tree up to pending flags, both well formed: what every search leaves behind. */
  ghost predicate SameButFlags(t: Tree, u: Tree) {
    WF(t) && WF(u) && PushAll(t) == PushAll(u)
  }

  lemma SameMeaning(t: Tree, u: Tree)
    requires SameButFlags(t, u)
    ensures Live(t) == Live(u) && Size(t) == Size(u) && Invalid(t) == Invalid(u) && Dead(t) == Dead(u)
  {
    PushAllKeeps(t);
    PushAllKeeps(u);
  }

  /** Replacing the sons of a pushed-down node by ones that differ in flags only. */
  lemma SameSons(t: Tree, l: Tree, r: Tree)
    requires t.Node? && WF(t) && PushDown(t) == t
    requires SameButFlags(t.left, l) && SameButFlags(t.right, r)
    ensures SameButFlags(t, Node(t.d, l, r))
  {
    SameMeaning(t.left, l);
    SameMeaning(t.right, r);
    var u := Node(t.d, l, r);
    Reseat(t, u);
    assert PushDown(u) == u by {
      assert t.d.pushL ==> l.Nil?;
      assert t.d.pushR ==> r.Nil?;
    }
  }

  /** Update restores the invariant of a node whose sons satisfy it. */
  lemma UpdateKeeps(t: Tree)
    requires t.Node? && WF(t.left) && WF(t.right)
    requires t.d.pdds ==> t.d.pdel
    requires Harmless(t.d.pushL, t.left) && Harmless(t.d.pushR, t.right)
    ensures WF(Update(t))
    ensures Live(Update(t)) == Own(t.d) + Live(t.left) + Live(t.right)
    ensures Update(t).d.size == 1 + Size(t.left) + Size(t.right)
  {
    var u := Update(t);
    DeadIffEmpty(t.left);
    DeadIffEmpty(t.right);
    var own, l, r := Own(t.d), Live(t.left), Live(t.right);
    assert Live(u) == own + l + r;
    if !u.d.tdel {
      TightSingle(t.d.point);
      var e := if Dead(t.left) then Void else t.left.d.range;
      var f := if Dead(t.right) then Void else t.right.d.range;
      var g := if t.d.pdel then Void else Single(t.d.point);
      assert u.d.range == Hull(Hull(e, f), g);
      TightTriple(e, l, f, r, g, own);
    }
  }

  /** Hull over the parts that are present, as Update takes it. */
  lemma TightTriple(e: Extent, l: seq<Point>, f: Extent, r: seq<Point>, g: Extent, own: seq<Point>)
    requires if e.Void? then l == [] else Tight(e, l)
    requires if f.Void? then r == [] else Tight(f, r)
    requires if g.Void? then own == [] else Tight(g, own)
    requires e.Range? || f.Range? || g.Range?
    ensures Tight(Hull(Hull(e, f), g), own + l + r)
  {
    var h := Hull(e, f);
    if e.Range? && f.Range? { TightHull(e, l, f, r); }
    else if e.Range? { assert l + r == l; }
    else if f.Range? { assert l + r == r; }
    if h.Range? && g.Range? { TightHull(h, l + r, g, own); }
    else if h.Range? { assert (l + r) + own == l + r; }
    else { assert (l + r) + own == own; }
    assert Tight(Hull(h, g), (l + r) + own);
    TightSameElements(Hull(h, g), (l + r) + own, own + l + r);
  }
}
