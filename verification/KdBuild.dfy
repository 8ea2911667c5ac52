/**
 BuildTree: splitting a point sequence at the median of its longest side.

 std::nth_element is a parameter: any function that rearranges the points so that the middle one
 separates smaller from larger coordinates will do.
 */
module KdBuild {
  import opened Geometry
  import opened PointSeqs
  import opened KdModel

  function Mid(s: seq<Point>): (m: nat)
    requires s != []
    ensures m < |s|
  {
    (|s| - 1) / 2
  }

  /** `s` is split by its middle element along axis `a`. */
  predicate SplitAtMid(s: seq<Point>, a: Axis) {
    s != [] ==>
      && (forall i :: 0 <= i < Mid(s) ==> Coord(s[i], a) <= Coord(s[Mid(s)], a))
      && (forall i :: Mid(s) < i < |s| ==> Coord(s[Mid(s)], a) <= Coord(s[i], a))
  }

  ghost predicate Selects(f: (seq<Point>, Axis) -> seq<Point>) {
    forall s: seq<Point>, a: Axis :: multiset(f(s, a)) == multiset(s) && SplitAtMid(f(s, a), a)
  }

  /** What nth_element may be. Sorting along the axis is one instance. */
  type Selector = f: (seq<Point>, Axis) -> seq<Point> | Selects(f) witness SortAlong

  predicate SortedAlong(s: seq<Point>, a: Axis) {
    forall i, j :: 0 <= i < j < |s| ==> Coord(s[i], a) <= Coord(s[j], a)
  }

  function InsertAlong(p: Point, s: seq<Point>, a: Axis): (r: seq<Point>)
    requires SortedAlong(s, a)
    ensures multiset(r) == multiset(s) + multiset{p}
    ensures SortedAlong(r, a)
    ensures s != [] ==> r != [] && r[0] in [p, s[0]]
  {
    if s == [] || Coord(p, a) <= Coord(s[0], a) then [p] + s
    else
      assert s == [s[0]] + s[1..];
      var r := InsertAlong(p, s[1..], a);
      [s[0]] + r
  }

  function SortAlong(s: seq<Point>, a: Axis): (r: seq<Point>)
    ensures multiset(r) == multiset(s)
    ensures SortedAlong(r, a)
    ensures SplitAtMid(r, a)
  {
    if s == [] then []
    else
      assert s == [s[0]] + s[1..];
      InsertAlong(s[0], SortAlong(s[1..], a), a)
  }

  /** The tree's tuning: nth_element and Multi_Thread_Rebuild_Point_Num. */
  datatype Config = Config(nth: Selector, lim: nat)

  function MinAlong(s: seq<Point>, a: Axis): int
    requires s != []
  {
    if |s| == 1 then Coord(s[0], a) else Min(MinAlong(s[..|s| - 1], a), Coord(s[|s| - 1], a))
  }

  function MaxAlong(s: seq<Point>, a: Axis): int
    requires s != []
  {
    if |s| == 1 then Coord(s[0], a) else Max(MaxAlong(s[..|s| - 1], a), Coord(s[|s| - 1], a))
  }

  function Side(s: seq<Point>, a: Axis): int
    requires s != []
  {
    MaxAlong(s, a) - MinAlong(s, a)
  }

  /** The first of the longest sides. */
  function LongestAxis(s: seq<Point>): (a: Axis)
    requires s != []
  {
    var d: Axis := if Side(s, 1) > Side(s, 0) then 1 else 0;
    if Side(s, 2) > Side(s, d) then 2 else d
  }

  function Build(nth: Selector, s: seq<Point>): (t: Tree)
    ensures t.Nil? <==> s == []
    decreases |s|
  {
    if s == [] then Nil
    else
      var a := LongestAxis(s);
      var r := nth(s, a);
      SameMembers(r, s);
      var m := Mid(r);
      Update(Node(Blank(r[m], a), Build(nth, r[..m]), Build(nth, r[m + 1..])))
  }

  ghost predicate BelowAll(s: seq<Point>, a: Axis, c: int) { forall p :: p in s ==> Coord(p, a) <= c }

  ghost predicate AboveAll(s: seq<Point>, a: Axis, c: int) { forall p :: p in s ==> c <= Coord(p, a) }

  /** On its division axis no point left of a node exceeds it and none right of it is smaller. */
  ghost predicate Ordered(t: Tree) {
    t.Node? ==>
      && BelowAll(Stored(t.left), t.d.axis, Coord(t.d.point, t.d.axis))
      && AboveAll(Stored(t.right), t.d.axis, Coord(t.d.point, t.d.axis))
      && Ordered(t.left) && Ordered(t.right)
  }

  /** The two sons of a node share the other points evenly. */
  ghost predicate Halved(t: Tree) {
    t.Node? ==>
      && Size(t.left) == (t.d.size - 1) / 2 && Size(t.right) == t.d.size - 1 - Size(t.left)
      && Halved(t.left) && Halved(t.right)
  }

  function Height(t: Tree): (h: nat)
    ensures h == 0 <==> t.Nil?
  {
    if t.Nil? then 0 else 1 + if Height(t.left) < Height(t.right) then Height(t.right) else Height(t.left)
  }

  function Pow2(e: nat): nat {
    if e == 0 then 1 else 2 * Pow2(e - 1)
  }

  lemma SplitAround(s: seq<Point>, m: nat)
    requires m < |s|
    ensures multiset(s) == multiset([s[m]]) + multiset(s[..m]) + multiset(s[m + 1..])
  {
    assert s == s[..m] + [s[m]] + s[m + 1..];
  }

  lemma JoinMultisets(p: Point, a: seq<Point>, b: seq<Point>, c: seq<Point>, d: seq<Point>)
    requires multiset(a) == multiset(c) && multiset(b) == multiset(d)
    ensures multiset([p] + a + b) == multiset([p] + c + d)
  {
  }

  /** One unfolding of BuildTree: the chosen axis, the median and the two sides. */
  lemma BuildStep(nth: Selector, s: seq<Point>) returns (a: Axis, p: Point, ls: seq<Point>, rs: seq<Point>)
    requires s != []
    ensures Build(nth, s) == Update(Node(Blank(p, a), Build(nth, ls), Build(nth, rs)))
    ensures |ls| == (|s| - 1) / 2 && |ls| + |rs| == |s| - 1
    ensures multiset([p] + ls + rs) == multiset(s)
    ensures BelowAll(ls, a, Coord(p, a)) && AboveAll(rs, a, Coord(p, a))
  {
    a := LongestAxis(s);
    var r := nth(s, a);
    SameMembers(r, s);
    p, ls, rs := r[Mid(r)], r[..Mid(r)], r[Mid(r) + 1..];
    SplitAround(r, Mid(r));
    assert SplitAtMid(r, a);
  }

  /** BuildTree loses and invents no point. */
  lemma {:induction false} BuildStoresInput(nth: Selector, s: seq<Point>)
    ensures multiset(Stored(Build(nth, s))) == multiset(s)
    decreases |s|
  {
    if s != [] {
      var a, p, ls, rs := BuildStep(nth, s);
      BuildStoresInput(nth, ls);
      BuildStoresInput(nth, rs);
      JoinMultisets(p, Stored(Build(nth, ls)), Stored(Build(nth, rs)), ls, rs);
    }
  }

  /** BuildTree makes a well-formed tree in which every point is live. */
  lemma {:induction false} BuildIsWellFormed(nth: Selector, s: seq<Point>)
    ensures WF(Build(nth, s)) && Size(Build(nth, s)) == |s| && Invalid(Build(nth, s)) == 0
    ensures Live(Build(nth, s)) == Stored(Build(nth, s))
    decreases |s|
  {
    if s != [] {
      var a, p, ls, rs := BuildStep(nth, s);
      BuildIsWellFormed(nth, ls);
      BuildIsWellFormed(nth, rs);
      UpdateKeeps(Node(Blank(p, a), Build(nth, ls), Build(nth, rs)));
    }
  }

  /** BuildTree gives each son half of what its father does not keep. */
  lemma {:induction false} BuildIsHalved(nth: Selector, s: seq<Point>)
    ensures Halved(Build(nth, s)) && Size(Build(nth, s)) == |s|
    decreases |s|
  {
    if s != [] {
      var a, p, ls, rs := BuildStep(nth, s);
      BuildIsHalved(nth, ls);
      BuildIsHalved(nth, rs);
    }
  }

  lemma OrderedNode(u: Tree, ls: seq<Point>, rs: seq<Point>)
    requires u.Node? && Ordered(u.left) && Ordered(u.right)
    requires multiset(Stored(u.left)) == multiset(ls) && multiset(Stored(u.right)) == multiset(rs)
    requires BelowAll(ls, u.d.axis, Coord(u.d.point, u.d.axis))
    requires AboveAll(rs, u.d.axis, Coord(u.d.point, u.d.axis))
    ensures Ordered(u)
  {
    SameMembers(Stored(u.left), ls);
    SameMembers(Stored(u.right), rs);
  }

  /** nth_element makes the division axis separate the two sons. */
  lemma {:induction false} BuildIsOrdered(nth: Selector, s: seq<Point>)
    ensures Ordered(Build(nth, s))
    decreases |s|
  {
    if s != [] {
      var a, p, ls, rs := BuildStep(nth, s);
      BuildIsOrdered(nth, ls);
      BuildIsOrdered(nth, rs);
      BuildStoresInput(nth, ls);
      BuildStoresInput(nth, rs);
      OrderedNode(Build(nth, s), ls, rs);
    }
  }

  lemma HeightStep(t: Tree)
    requires t.Node?
    ensures Height(t) - 1 == (if Height(t.left) < Height(t.right) then Height(t.right) else Height(t.left))
  {
  }

  lemma TwoHalves(l: nat, r: nat, h: nat, n: nat)
    requires h == if l < r then r else l
    requires l > 0 ==> 2 * Pow2(l - 1) <= n
    requires r > 0 ==> 2 * Pow2(r - 1) <= n
    requires 1 <= n
    ensures Pow2(h) <= n
  {
    if h > 0 {
      assert Pow2(h) == 2 * Pow2(h - 1);
    }
  }

  /** A tree whose sons hold at most half of the points is at most floor(log2 n) + 1 high. */
  lemma {:induction false} HalvedIsShallow(t: Tree)
    requires t.Node? && WF(t) && Halved(t)
    ensures Pow2(Height(t) - 1) <= Size(t)
  {
    SizeIsCount(t);
    if t.left.Node? { HalvedIsShallow(t.left); }
    if t.right.Node? { HalvedIsShallow(t.right); }
    HeightStep(t);
    TwoHalves(Height(t.left), Height(t.right), Height(t) - 1, Size(t));
  }

  /** BuildTree has minimal height. */
  lemma BuildIsShallow(nth: Selector, s: seq<Point>, t: Tree)
    requires s != [] && t == Build(nth, s)
    ensures Pow2(Height(t) - 1) <= |s|
  {
    BuildIsWellFormed(nth, s);
    BuildIsHalved(nth, s);
    HalvedIsShallow(t);
  }
}
