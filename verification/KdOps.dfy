/**
 The recursive operations of the ikd-Tree on heap nodes. Where the source takes a pointer to the
 pointer that holds a subtree, these methods return the node that now heads it.
 */
module KdOps {
  import opened Geometry
  import opened PointSeqs
  import opened KdModel
  import opened KdBuild
  import opened KdNodes
  import E = KdEdit

  // ---------- BuildTree ----------

  /** `t` differs from `s` between `l` and `r` only. */
  ghost predicate SameOutside(s: seq<Point>, t: seq<Point>, l: nat, r: nat) {
    |s| == |t| && forall i :: 0 <= i < |s| && !(l <= i < r) ==> t[i] == s[i]
  }

  /** std::nth_element on storage[l..r]. */
  method NthElement(c: Config, storage: array<Point>, l: nat, r: nat, a: Axis)
    requires l <= r <= storage.Length
    modifies storage
    ensures SameOutside(old(storage[..]), storage[..], l, r)
    ensures storage[..][l..r] == c.nth(old(storage[..])[l..r], a)
  {
    var s := c.nth(storage[..][l..r], a);
    SameMembers(s, storage[..][l..r]);
    forall i | 0 <= i < |s| {
      storage[l + i] := s[i];
    }
    assert storage[..][l..r] == s;
  }

  /** The two scans at the head of BuildTree. */
  method DivisionAxis(storage: array<Point>, l: nat, r: nat) returns (a: Axis)
    requires l < r <= storage.Length
    ensures a == LongestAxis(storage[l..r])
  {
    var lo, hi := storage[l].pos, storage[l].pos;
    var i := l + 1;
    while i < r
      invariant l < i <= r
      invariant forall a: Axis :: At(lo, a) == MinAlong(storage[l..i], a) && At(hi, a) == MaxAlong(storage[l..i], a)
    {
      var p := storage[i].pos;
      assert storage[l..i + 1][..i - l] == storage[l..i];
      lo := Vec(Min(lo.x, p.x), Min(lo.y, p.y), Min(lo.z, p.z));
      hi := Vec(Max(hi.x, p.x), Max(hi.y, p.y), Max(hi.z, p.z));
      i := i + 1;
    }
    a := 0;
    if hi.y - lo.y > hi.x - lo.x { a := 1; }
    if hi.z - lo.z > At(hi, a) - At(lo, a) { a := 2; }
    assert At(lo, 0) == lo.x && At(lo, 1) == lo.y && At(lo, 2) == lo.z;
    assert At(hi, 0) == hi.x && At(hi, 1) == hi.y && At(hi, 2) == hi.z;
  }

  /** A new node over two finished sons. */
  method Join(p: Point, a: Axis, left: KdNode?, right: KdNode?) returns (node: KdNode)
    requires left != null ==> left.Valid()
    requires right != null ==> right.Valid()
    requires ReprOf(left) !! ReprOf(right)
    ensures node.Valid() && fresh(node.Repr - ReprOf(left) - ReprOf(right))
    ensures node.tree == Update(Node(Blank(p, a), TreeOf(left), TreeOf(right)))
  {
    node := new KdNode(p, a);
    node.left, node.right := left, right;
    node.Update();
  }

  /** BuildTree over storage[l..r] (the source's inclusive bounds are l and r - 1). */
  method BuildTree(c: Config, storage: array<Point>, l: nat, r: nat) returns (root: KdNode?)
    requires l <= r <= storage.Length
    modifies storage
    ensures SameOutside(old(storage[..]), storage[..], l, r)
    ensures root != null ==> root.Valid() && fresh(root.Repr)
    ensures TreeOf(root) == Build(c.nth, old(storage[..])[l..r])
    decreases r - l, 1
  {
    if l == r {
      return null;
    }
    ghost var s0 := storage[..];
    var mid, a := PlaceMedian(c, storage, l, r);
    ghost var s1 := storage[..];
    var median := storage[mid];
    var left, right := BuildSons(c, storage, l, mid, r);
    OutsideTwice(s0, s1, storage[..], l, r);
    root := Join(median, a, left, right);
  }

  /** The head of BuildTree: the median moves to the middle along the longest axis. */
  method PlaceMedian(c: Config, storage: array<Point>, l: nat, r: nat) returns (mid: nat, a: Axis)
    requires l < r <= storage.Length
    modifies storage
    ensures l <= mid < r && SameOutside(old(storage[..]), storage[..], l, r)
    ensures Build(c.nth, old(storage[..])[l..r]) ==
      Update(Node(Blank(storage[mid], a), Build(c.nth, storage[..][l..mid]), Build(c.nth, storage[..][mid + 1..r])))
  {
    ghost var s := storage[..][l..r];
    mid := (l + r - 1) / 2;
    a := DivisionAxis(storage, l, r);
    assert storage[l..r] == s;
    NthElement(c, storage, l, r, a);
    SelectedParts(c, s, storage[..], l, mid, r, a);
  }

  /** The two recursive calls of BuildTree. */
  method BuildSons(c: Config, storage: array<Point>, l: nat, mid: nat, r: nat) returns (left: KdNode?, right: KdNode?)
    requires l <= mid < r <= storage.Length
    modifies storage
    ensures SameOutside(old(storage[..]), storage[..], l, r)
    ensures left != null ==> left.Valid() && fresh(left.Repr)
    ensures right != null ==> right.Valid() && fresh(right.Repr)
    ensures ReprOf(left) !! ReprOf(right)
    ensures TreeOf(left) == Build(c.nth, old(storage[..])[l..mid])
    ensures TreeOf(right) == Build(c.nth, old(storage[..])[mid + 1..r])
    decreases r - l, 0
  {
    ghost var s1 := storage[..];
    left := BuildTree(c, storage, l, mid);
    ghost var s2 := storage[..];
    UntouchedRight(s1, s2, l, mid, r);
    right := BuildTree(c, storage, mid + 1, r);
    OutsideBoth(s1, s2, storage[..], l, mid, r);
  }

  lemma SelectedParts(c: Config, s: seq<Point>, s1: seq<Point>, l: nat, mid: nat, r: nat, a: Axis)
    requires l < r <= |s1| && |s| == r - l && mid == (l + r - 1) / 2
    requires a == LongestAxis(s) && s1[l..r] == c.nth(s, a)
    ensures Build(c.nth, s) ==
      Update(Node(Blank(s1[mid], a), Build(c.nth, s1[l..mid]), Build(c.nth, s1[mid + 1..r])))
  {
    var t := s1[l..r];
    assert Mid(t) == mid - l;
    PartsOfSlice(s1, l, mid, r);
  }

  lemma PartsOfSlice(s: seq<Point>, l: nat, mid: nat, r: nat)
    requires l <= mid < r <= |s|
    ensures s[l..r][mid - l] == s[mid] && s[l..r][..mid - l] == s[l..mid] && s[l..r][mid - l + 1..] == s[mid + 1..r]
  {
  }

  lemma UntouchedRight(s1: seq<Point>, s2: seq<Point>, l: nat, mid: nat, r: nat)
    requires l <= mid < r <= |s1| && SameOutside(s1, s2, l, mid)
    ensures s2[mid + 1..r] == s1[mid + 1..r]
  {
  }

  /** What the two recursive calls leave alone. */
  lemma OutsideBoth(s1: seq<Point>, s2: seq<Point>, s3: seq<Point>, l: nat, mid: nat, r: nat)
    requires l <= mid < r && SameOutside(s1, s2, l, mid) && SameOutside(s2, s3, mid + 1, r)
    ensures SameOutside(s1, s3, l, r)
  {
  }

  lemma OutsideTwice(s1: seq<Point>, s2: seq<Point>, s3: seq<Point>, l: nat, r: nat)
    requires SameOutside(s1, s2, l, r) && SameOutside(s2, s3, l, r)
    ensures SameOutside(s1, s3, l, r)
  {
  }

  // ---------- flatten and Rebuild ----------

  /** flatten: appends the live points and leaves every flag pushed down. */
  method Flatten(root: KdNode?, storage: seq<Point>) returns (out: seq<Point>)
    requires root != null ==> root.Valid() && WF(root.tree)
    modifies ReprOf(root)
    ensures root != null ==> root.Valid() && root.Repr == old(root.Repr)
    ensures TreeOf(root) == PushAll(old(TreeOf(root)))
    ensures out == storage + Live(old(TreeOf(root)))
    decreases ReprOf(root), 1
  {
    if root == null {
      return storage;
    }
    E.PushedSonsSound(root.tree);
    ghost var t := root.tree;
    root.PushDown();
    E.LiveOfPushed(t, root.tree);
    out := storage;
    if !root.d.pdel {
      out := out + [root.d.point];
    }
    FlattenOrder(storage, Own(root.tree.d), Live(root.tree.left), Live(root.tree.right));
    assert out == storage + Own(root.tree.d);
    out := FlattenSons(root, out);
  }

  method FlattenSons(root: KdNode, storage: seq<Point>) returns (out: seq<Point>)
    requires root.Valid() && WF(root.tree.left) && WF(root.tree.right)
    modifies root.Repr
    ensures root.Valid() && root.Repr == old(root.Repr)
    ensures root.tree == Node(old(root.tree.d), PushAll(old(root.tree.left)), PushAll(old(root.tree.right)))
    ensures out == storage + Live(old(root.tree.left)) + Live(old(root.tree.right))
    decreases root.Repr, 0
  {
    out := Flatten(root.left, storage);
    out := Flatten(root.right, out);
    root.Mirror();
  }

  lemma FlattenOrder(storage: seq<Point>, own: seq<Point>, l: seq<Point>, r: seq<Point>)
    ensures storage + own + l + r == storage + (own + l + r)
  {
  }

  /** Rebuild: at once below the threshold, otherwise the subtree is left to the rebuild thread. */
  method Rebuild(c: Config, root: KdNode) returns (r: KdNode)
    requires root.Valid() && WF(root.tree) && Live(root.tree) != []
    modifies root.Repr
    ensures r.Valid() && fresh(r.Repr - old(root.Repr))
    ensures r.tree == E.Rebuild(c, old(root.tree))
  {
    if root.d.size >= c.lim {
      return root;
    }
    var points := Flatten(root, []);
    var storage := new Point[|points|](i requires 0 <= i < |points| => points[i]);
    assert storage[..][0..storage.Length] == points;
    var rebuilt := BuildTree(c, storage, 0, storage.Length);
    r := rebuilt;
  }
}
