/** Search and Nearest_Search on the heap. */
module KdNearest {
  import opened Verdicts
  import opened Geometry
  import opened ManualHeaps
  import opened Nearest
  import opened PointSeqs
  import opened KdModel
  import opened KdNodes
  import R = KdRangeSearch

  /** The candidates a subtree contributes. */
  ghost function Found(t: Tree, q: Vec, limit: Ext): multiset<Entry> {
    multiset(Candidates(Live(t), q, limit))
  }

  lemma FoundParts(t: Tree, u: Tree, q: Vec, limit: Ext)
    requires u.Node? && Live(t) == Own(u.d) + Live(u.left) + Live(u.right)
    ensures Found(t, q, limit) ==
      multiset(Candidates(Own(u.d), q, limit)) + Found(u.left, q, limit) + Found(u.right, q, limit)
  {
    CandidatesAppend(Own(u.d) + Live(u.left), Live(u.right), q, limit);
    CandidatesAppend(Own(u.d), Live(u.left), q, limit);
  }

  lemma FoundOwn(d: Info, q: Vec, limit: Ext)
    ensures multiset(Candidates(Own(d), q, limit)) ==
      var dist := Dist(q, d.point.pos);
      if !d.pdel && WithinLimit(dist, limit) then multiset{Entry(d.point, dist)} else multiset{}
  {
    assert d.pdel || (Own(d)[0] == d.point && Own(d)[1..] == []);
  }

  /** Every candidate of a subtree is at least as far as its box. */
  lemma FoundBeyondBox(t: Tree, q: Vec, limit: Ext, e: Entry)
    requires WF(t) && t.Node? && e in Found(t, q, limit)
    ensures BoxDist(t.d.range, q).Fin? && BoxDist(t.d.range, q).v <= e.dist && WithinLimit(e.dist, limit)
  {
    CandidateIs(Live(t), q, limit, e);
    assert Inside(e.point, t.d.range);
    BoxDistIsLowerBound(t.d.range, q, e.point);
  }

  lemma NothingBeyondLimit(t: Tree, q: Vec, limit: Ext)
    requires WF(t) && t.Node? && ExtLess(limit, BoxDist(t.d.range, q))
    ensures Found(t, q, limit) == multiset{}
  {
    if e :| e in Found(t, q, limit) {
      FoundBeyondBox(t, q, limit, e);
    }
  }

  /** A son whose box is no closer than anything kept can be skipped. */
  lemma SkipSon(t: Tree, k: nat, q: Vec, limit: Ext, kept: multiset<Entry>, d: Ext)
    requires WF(t) && (t.Node? ==> d == BoxDist(t.d.range, q))
    requires |kept| == k && forall f :: f in kept ==> !ExtLess(d, Fin(f.dist))
    ensures Best(k, kept + Found(t, q, limit), kept)
  {
    forall a, b | a in kept && b in Found(t, q, limit)
      ensures a.dist <= b.dist
    {
      if t.Node? { FoundBeyondBox(t, q, limit, b); }
    }
    SkipFarther(k, kept, Found(t, q, limit));
  }

  /** The test the source repeats before each descent: room left, or closer than the farthest kept. */
  method Worthwhile(k: nat, h: ManualHeap, d: Ext) returns (closer: bool)
    requires h.Valid() && h.size <= k && 1 <= k
    ensures !closer ==> h.size == k && forall f :: f in h.Contents() ==> !ExtLess(d, Fin(f.dist))
    ensures closer <==> h.size < k || ExtLess(d, Fin(h.heap[0].dist))
  {
    if h.size < k {
      return true;
    }
    var top := h.Top();
    TopIsFarthest(h.Contents(), top);
    closer := ExtLess(d, Fin(top.dist));
  }

  /** What Search does with the node's own point. */
  method OfferOwn(d: Info, k: nat, q: Vec, limit: Ext, h: ManualHeap)
    requires h.Valid() && h.size <= k <= h.cap && 1 <= k
    modifies h`size, h.heap
    ensures h.Valid() && h.heap == old(h.heap)
    ensures Best(k, old(h.Contents()) + multiset(Candidates(Own(d), q, limit)), h.Contents())
  {
    FoundOwn(d, q, limit);
    ghost var kept := h.Contents();
    SkipNothing(k, kept);
    if !d.pdel {
      var dist := Dist(q, d.point.pos);
      var e := Entry(d.point, dist);
      if WithinLimit(dist, limit) {
        var closer := Worthwhile(k, h, Fin(dist));
        if closer {
          if h.size >= k {
            var top := h.Top();
            TopIsFarthest(kept, top);
            ReplaceFarthest(k, kept, top, e);
            h.Pop();
          } else {
            KeepOne(k, kept, e);
          }
          h.Push(e);
        } else {
          SkipFarther(k, kept, multiset{e});
        }
      }
    }
  }

  method DistanceTo(n: KdNode?, q: Vec) returns (d: Ext)
    ensures n == null ==> d == Inf
    ensures n != null ==> d == BoxDist(n.d.range, q)
  {
    if n == null { d := Inf; } else { d := BoxDist(n.d.range, q); }
  }

  predicate ExtAtMost(a: Ext, b: Ext) {
    !ExtLess(b, a)
  }

  /** Search: afterwards the heap holds k nearest of what it held and of the live points below `root`. */
  method Search(root: KdNode?, k: nat, q: Vec, limit: Ext, h: ManualHeap)
    requires root != null ==> root.Valid() && WF(root.tree)
    requires h.Valid() && h.size <= k <= h.cap && 1 <= k
    modifies ReprOf(root), h`size, h.heap
    ensures root != null ==> root.Valid() && root.Repr == old(root.Repr)
    ensures SameButFlags(old(TreeOf(root)), TreeOf(root))
    ensures h.Valid() && h.heap == old(h.heap)
    ensures Best(k, old(h.Contents()) + Found(old(TreeOf(root)), q, limit), h.Contents())
    decreases ReprOf(root), 2
  {
    SkipNothing(k, h.Contents());
    if root == null || root.d.tdel {
      return;
    }
    if ExtLess(limit, BoxDist(root.d.range, q)) {
      NothingBeyondLimit(root.tree, q, limit);
      return;
    }
    R.Pushed(root.tree);
    root.PushDown();
    SearchPushed(root, k, q, limit, h);
  }

  /** The node's own point and then both sons account for the whole subtree. */
  lemma AllAccounted(k: nat, u: Tree, q: Vec, limit: Ext, c0: multiset<Entry>, c1: multiset<Entry>, c2: multiset<Entry>)
    requires u.Node? && Live(u) == Own(u.d) + Live(u.left) + Live(u.right)
    requires Best(k, c0 + multiset(Candidates(Own(u.d), q, limit)), c1)
    requires Best(k, c1 + (Found(u.left, q, limit) + Found(u.right, q, limit)), c2)
    ensures Best(k, c0 + Found(u, q, limit), c2)
  {
    FoundParts(u, u, q, limit);
    var own, sons := multiset(Candidates(Own(u.d), q, limit)), Found(u.left, q, limit) + Found(u.right, q, limit);
    BestTransitive(k, c0 + own, c1, sons, c2);
    assert c0 + own + sons == c0 + Found(u, q, limit);
  }

  /** Search after Push_Down. */
  method SearchPushed(root: KdNode, k: nat, q: Vec, limit: Ext, h: ManualHeap)
    requires root.Valid() && WF(root.tree) && PushDown(root.tree) == root.tree
    requires h.Valid() && h.size <= k <= h.cap && 1 <= k
    modifies root.Repr, h`size, h.heap
    ensures root.Valid() && root.Repr == old(root.Repr)
    ensures SameButFlags(old(root.tree), root.tree)
    ensures h.Valid() && h.heap == old(h.heap)
    ensures Best(k, old(h.Contents()) + Found(old(root.tree), q, limit), h.Contents())
    decreases root.Repr, 1
  {
    ghost var u := root.tree;
    R.Pushed(u);
    ghost var c0 := h.Contents();
    OfferOwn(root.d, k, q, limit, h);
    ghost var c1 := h.Contents();
    SearchBelow(root, k, q, limit, h);
    AllAccounted(k, u, q, limit, c0, c1, h.Contents());
  }

  method SearchBelow(root: KdNode, k: nat, q: Vec, limit: Ext, h: ManualHeap)
    requires root.Valid() && WF(root.tree) && PushDown(root.tree) == root.tree
    requires h.Valid() && h.size <= k <= h.cap && 1 <= k
    modifies root.Repr, h`size, h.heap
    ensures root.Valid() && root.Repr == old(root.Repr)
    ensures SameButFlags(old(root.tree), root.tree)
    ensures h.Valid() && h.heap == old(h.heap)
    ensures Best(k, old(h.Contents()) + (Found(old(root.tree.left), q, limit) + Found(old(root.tree.right), q, limit)),
                 h.Contents())
    decreases root.Repr, 0
  {
    ghost var u := root.tree;
    R.Pushed(u);
    SearchSons(root, k, q, limit, h);
    R.Reflag(root, u);
  }

  /** The descents: closer son first, and a second descent only if it can still improve the heap. */
  method SearchSons(root: KdNode, k: nat, q: Vec, limit: Ext, h: ManualHeap)
    requires root.SonsValid() && WF(TreeOf(root.left)) && WF(TreeOf(root.right))
    requires h.Valid() && h.size <= k <= h.cap && 1 <= k
    modifies ReprOf(root.left), ReprOf(root.right), h`size, h.heap
    ensures root.SonsValid() && ReprOf(root.left) == old(ReprOf(root.left))
      && ReprOf(root.right) == old(ReprOf(root.right))
    ensures SameButFlags(old(TreeOf(root.left)), TreeOf(root.left))
      && SameButFlags(old(TreeOf(root.right)), TreeOf(root.right))
    ensures h.Valid() && h.heap == old(h.heap)
    ensures Best(k, old(h.Contents())
                    + (Found(old(TreeOf(root.left)), q, limit) + Found(old(TreeOf(root.right)), q, limit)),
                 h.Contents())
    decreases ReprOf(root.left) + ReprOf(root.right), 6
  {
    var dl := DistanceTo(root.left, q);
    var dr := DistanceTo(root.right, q);
    var leftCloser := Worthwhile(k, h, dl);
    var rightCloser := Worthwhile(k, h, dr);
    if leftCloser && rightCloser && !ExtAtMost(dl, dr) {
      RightFirst(root, k, q, limit, h, dl, dr);
    } else {
      LeftFirst(root, k, q, limit, h, dl, dr);
    }
  }

  lemma BothVisited(k: nat, c0: multiset<Entry>, a: multiset<Entry>, c1: multiset<Entry>, b: multiset<Entry>,
                    c2: multiset<Entry>)
    requires Best(k, c0 + a, c1) && Best(k, c1 + b, c2)
    ensures Best(k, c0 + (a + b), c2) && Best(k, c0 + (b + a), c2)
  {
    BestTransitive(k, c0 + a, c1, b, c2);
    assert c0 + a + b == c0 + (a + b) == c0 + (b + a);
  }

  method LeftFirst(root: KdNode, k: nat, q: Vec, limit: Ext, h: ManualHeap, dl: Ext, dr: Ext)
    requires root.SonsValid() && WF(TreeOf(root.left)) && WF(TreeOf(root.right))
    requires root.left == null || dl == BoxDist(root.left.d.range, q)
    requires root.right == null || dr == BoxDist(root.right.d.range, q)
    requires h.Valid() && h.size <= k <= h.cap && 1 <= k
    modifies ReprOf(root.left), ReprOf(root.right), h`size, h.heap
    ensures root.SonsValid() && ReprOf(root.left) == old(ReprOf(root.left))
      && ReprOf(root.right) == old(ReprOf(root.right))
    ensures SameButFlags(old(TreeOf(root.left)), TreeOf(root.left))
      && SameButFlags(old(TreeOf(root.right)), TreeOf(root.right))
    ensures h.Valid() && h.heap == old(h.heap)
    ensures Best(k, old(h.Contents())
                    + (Found(old(TreeOf(root.left)), q, limit) + Found(old(TreeOf(root.right)), q, limit)),
                 h.Contents())
    decreases ReprOf(root.left) + ReprOf(root.right), 5
  {
    ghost var c0 := h.Contents();
    ghost var fl, fr := Found(TreeOf(root.left), q, limit), Found(TreeOf(root.right), q, limit);
    MaybeVisitLeft(root, k, q, limit, h, dl);
    ghost var c1 := h.Contents();
    MaybeVisitRight(root, k, q, limit, h, dr);
    BothVisited(k, c0, fl, c1, fr, h.Contents());
  }

  method RightFirst(root: KdNode, k: nat, q: Vec, limit: Ext, h: ManualHeap, dl: Ext, dr: Ext)
    requires root.SonsValid() && WF(TreeOf(root.left)) && WF(TreeOf(root.right))
    requires root.left == null || dl == BoxDist(root.left.d.range, q)
    requires root.right == null || dr == BoxDist(root.right.d.range, q)
    requires h.Valid() && h.size <= k <= h.cap && 1 <= k
    modifies ReprOf(root.left), ReprOf(root.right), h`size, h.heap
    ensures root.SonsValid() && ReprOf(root.left) == old(ReprOf(root.left))
      && ReprOf(root.right) == old(ReprOf(root.right))
    ensures SameButFlags(old(TreeOf(root.left)), TreeOf(root.left))
      && SameButFlags(old(TreeOf(root.right)), TreeOf(root.right))
    ensures h.Valid() && h.heap == old(h.heap)
    ensures Best(k, old(h.Contents())
                    + (Found(old(TreeOf(root.left)), q, limit) + Found(old(TreeOf(root.right)), q, limit)),
                 h.Contents())
    decreases ReprOf(root.left) + ReprOf(root.right), 5
  {
    ghost var c0 := h.Contents();
    ghost var fl, fr := Found(TreeOf(root.left), q, limit), Found(TreeOf(root.right), q, limit);
    MaybeVisitRight(root, k, q, limit, h, dr);
    ghost var c1 := h.Contents();
    MaybeVisitLeft(root, k, q, limit, h, dl);
    BothVisited(k, c0, fr, c1, fl, h.Contents());
  }

  method VisitLeft(root: KdNode, k: nat, q: Vec, limit: Ext, h: ManualHeap)
    requires root.SonsValid() && WF(TreeOf(root.left))
    requires h.Valid() && h.size <= k <= h.cap && 1 <= k
    modifies ReprOf(root.left), h`size, h.heap
    ensures root.SonsValid() && ReprOf(root.left) == old(ReprOf(root.left))
      && ReprOf(root.right) == old(ReprOf(root.right))
    ensures SameButFlags(old(TreeOf(root.left)), TreeOf(root.left)) && TreeOf(root.right) == old(TreeOf(root.right))
    ensures h.Valid() && h.heap == old(h.heap)
    ensures Best(k, old(h.Contents()) + Found(old(TreeOf(root.left)), q, limit), h.Contents())
    decreases ReprOf(root.left), 3
  {
    Search(root.left, k, q, limit, h);
  }

  method MaybeVisitLeft(root: KdNode, k: nat, q: Vec, limit: Ext, h: ManualHeap, d: Ext)
    requires root.left == null || d == BoxDist(root.left.d.range, q)
    requires root.SonsValid() && WF(TreeOf(root.left))
    requires h.Valid() && h.size <= k <= h.cap && 1 <= k
    modifies ReprOf(root.left), h`size, h.heap
    ensures root.SonsValid() && ReprOf(root.left) == old(ReprOf(root.left))
      && ReprOf(root.right) == old(ReprOf(root.right))
    ensures SameButFlags(old(TreeOf(root.left)), TreeOf(root.left)) && TreeOf(root.right) == old(TreeOf(root.right))
    ensures h.Valid() && h.heap == old(h.heap)
    ensures Best(k, old(h.Contents()) + Found(old(TreeOf(root.left)), q, limit), h.Contents())
    decreases ReprOf(root.left), 4
  {
    var closer := Worthwhile(k, h, d);
    if closer {
      VisitLeft(root, k, q, limit, h);
    } else {
      SkipSon(TreeOf(root.left), k, q, limit, h.Contents(), d);
    }
  }

  method VisitRight(root: KdNode, k: nat, q: Vec, limit: Ext, h: ManualHeap)
    requires root.SonsValid() && WF(TreeOf(root.right))
    requires h.Valid() && h.size <= k <= h.cap && 1 <= k
    modifies ReprOf(root.right), h`size, h.heap
    ensures root.SonsValid() && ReprOf(root.left) == old(ReprOf(root.left))
      && ReprOf(root.right) == old(ReprOf(root.right))
    ensures SameButFlags(old(TreeOf(root.right)), TreeOf(root.right)) && TreeOf(root.left) == old(TreeOf(root.left))
    ensures h.Valid() && h.heap == old(h.heap)
    ensures Best(k, old(h.Contents()) + Found(old(TreeOf(root.right)), q, limit), h.Contents())
    decreases ReprOf(root.right), 3
  {
    Search(root.right, k, q, limit, h);
  }

  method MaybeVisitRight(root: KdNode, k: nat, q: Vec, limit: Ext, h: ManualHeap, d: Ext)
    requires root.right == null || d == BoxDist(root.right.d.range, q)
    requires root.SonsValid() && WF(TreeOf(root.right))
    requires h.Valid() && h.size <= k <= h.cap && 1 <= k
    modifies ReprOf(root.right), h`size, h.heap
    ensures root.SonsValid() && ReprOf(root.left) == old(ReprOf(root.left))
      && ReprOf(root.right) == old(ReprOf(root.right))
    ensures SameButFlags(old(TreeOf(root.right)), TreeOf(root.right)) && TreeOf(root.left) == old(TreeOf(root.left))
    ensures h.Valid() && h.heap == old(h.heap)
    ensures Best(k, old(h.Contents()) + Found(old(TreeOf(root.right)), q, limit), h.Contents())
    decreases ReprOf(root.right), 4
  {
    var closer := Worthwhile(k, h, d);
    if closer {
      VisitRight(root, k, q, limit, h);
    } else {
      SkipSon(TreeOf(root.right), k, q, limit, h.Contents(), d);
    }
  }

  function Zip(points: seq<Point>, dists: seq<int>): (s: seq<Entry>)
    requires |points| == |dists|
    ensures |s| == |points| && forall i :: 0 <= i < |s| ==> s[i] == Entry(points[i], dists[i])
  {
    seq(|points|, i requires 0 <= i < |points| == |dists| => Entry(points[i], dists[i]))
  }

  ghost predicate Ascending(dists: seq<int>) {
    forall i, j :: 0 <= i < j < |dists| ==> dists[i] <= dists[j]
  }

  /** Squaring max_dist, where INFINITY stays INFINITY. */
  function Squared(maxDist: Ext): Ext {
    if maxDist.Fin? then Fin(maxDist.v * maxDist.v) else Inf
  }

  /**
   Nearest_Search: min(k, candidates) live points within max_dist, in ascending order of distance,
   none of the others being strictly closer than a returned one.
   */
  method NearestSearch(root: KdNode?, q: Vec, k: nat, maxDist: Ext) returns (points: seq<Point>, dists: seq<int>)
    requires root != null ==> root.Valid() && WF(root.tree)
    requires 1 <= k
    modifies ReprOf(root)
    ensures root != null ==> root.Valid() && root.Repr == old(root.Repr)
    ensures SameButFlags(old(TreeOf(root)), TreeOf(root))
    ensures |points| == |dists| && Ascending(dists)
    ensures Best(k, Found(old(TreeOf(root)), q, Squared(maxDist)), multiset(Zip(points, dists)))
  {
    ghost var all := Found(TreeOf(root), q, Squared(maxDist));
    var h := new ManualHeap(2 * k);
    Search(root, k, q, Squared(maxDist), h);
    var found := if k < h.size then k else h.size;
    FromEmpty(all);
    points, dists := Drain(h, found);
  }

  lemma FromEmpty(m: multiset<Entry>)
    ensures multiset{} + m == m
  {
  }

  /** The pop-and-prepend loop: popping a max-heap and prepending sorts ascending. */
  method Drain(h: ManualHeap, found: nat) returns (points: seq<Point>, dists: seq<int>)
    requires h.Valid() && found == h.size
    modifies h`size, h.heap
    ensures |points| == |dists| && Ascending(dists)
    ensures multiset(Zip(points, dists)) == old(h.Contents())
  {
    ghost var best := h.Contents();
    points, dists := [], [];
    FromEmpty(best);
    var i := 0;
    while i < found
      invariant i <= found && h.Valid() && h.size == found - i && h.heap == old(h.heap)
      invariant Drained(h.Contents(), points, dists, best).Sound?
    {
      var top := h.Top();
      TopIsFarthest(h.Contents(), top);
      DrainStep(h.Contents(), points, dists, best, top);
      points := [top.point] + points;
      dists := [top.dist] + dists;
      h.Pop();
      i := i + 1;
    }
    assert h.Contents() == multiset{};
    FromEmpty(multiset(Zip(points, dists)));
  }

  /** `m` is still in the heap, and no farther than what has been taken out. */
  ghost function Drained(m: multiset<Entry>, points: seq<Point>, dists: seq<int>, best: multiset<Entry>): Verdict {
    if |points| == |dists| && Ascending(dists) && m + multiset(Zip(points, dists)) == best
      && (dists != [] ==> forall e :: e in m ==> e.dist <= dists[0])
    then Sound else Broken
  }

  lemma DrainStep(m: multiset<Entry>, points: seq<Point>, dists: seq<int>, best: multiset<Entry>, top: Entry)
    requires Drained(m, points, dists, best).Sound?
    requires top in m && forall e :: e in m ==> e.dist <= top.dist
    ensures Drained(m - multiset{top}, [top.point] + points, [top.dist] + dists, best).Sound?
  {
    Prepended(top, points, dists);
    MoveOne(m, top, multiset(Zip(points, dists)));
    assert Ascending([top.dist] + dists);
  }

  lemma MoveOne(m: multiset<Entry>, e: Entry, z: multiset<Entry>)
    requires e in m
    ensures m - multiset{e} + (multiset{e} + z) == m + z
  {
  }

  lemma Prepended(e: Entry, points: seq<Point>, dists: seq<int>)
    requires |points| == |dists|
    ensures multiset(Zip([e.point] + points, [e.dist] + dists)) == multiset{e} + multiset(Zip(points, dists))
  {
    assert Zip([e.point] + points, [e.dist] + dists) == [e] + Zip(points, dists);
  }

  // ---------- What the answer means ----------

  lemma {:induction false} CandidateCount(s: seq<Point>, q: Vec, limit: Ext, e: Entry)
    ensures multiset(Candidates(s, q, limit))[e] ==
      if e.dist == Dist(q, e.point.pos) && WithinLimit(e.dist, limit) then multiset(s)[e.point] else 0
  {
    if s != [] {
      CandidateCount(s[1..], q, limit, e);
      assert s == [s[0]] + s[1..];
    }
  }

  lemma {:induction false} CandidatesAreWithin(s: seq<Point>, q: Vec, limit: Ext)
    ensures |Candidates(s, q, limit)| == |Filter(s, Within(q, limit))|
  {
    if s != [] { CandidatesAreWithin(s[1..], q, limit); }
  }

  function Within(q: Vec, limit: Ext): Point -> bool {
    (p: Point) => WithinLimit(Dist(q, p.pos), limit)
  }

  lemma {:induction false} ZipCount(points: seq<Point>, dists: seq<int>, q: Vec, p: Point)
    requires |points| == |dists| && forall i :: 0 <= i < |points| ==> dists[i] == Dist(q, points[i].pos)
    ensures multiset(Zip(points, dists))[Entry(p, Dist(q, p.pos))] == multiset(points)[p]
  {
    if points != [] {
      assert points == [points[0]] + points[1..] && dists == [dists[0]] + dists[1..];
      Prepended(Entry(points[0], dists[0]), points[1..], dists[1..]);
      ZipCount(points[1..], dists[1..], q, p);
    }
  }

  lemma ZipDistances(s: seq<Point>, q: Vec, limit: Ext, points: seq<Point>, dists: seq<int>)
    requires |points| == |dists| && multiset(Zip(points, dists)) <= multiset(Candidates(s, q, limit))
    ensures forall i :: 0 <= i < |points| ==> dists[i] == Dist(q, points[i].pos) && WithinLimit(dists[i], limit)
  {
    var z := Zip(points, dists);
    forall i | 0 <= i < |points|
      ensures dists[i] == Dist(q, points[i].pos) && WithinLimit(dists[i], limit)
    {
      assert z[i] in multiset(z);
      CandidateIs(s, q, limit, z[i]);
      assert z[i] in multiset(Candidates(s, q, limit));
    }
  }

  /**
   The answer of Nearest_Search in terms of points: min(k, points within the limit) of the stored
   points, none more often than it is stored, each with its own squared distance; and every point
   within the limit that was left out is at least as far as every point returned.
   */
  lemma NearestMeaning(k: nat, s: seq<Point>, q: Vec, limit: Ext, points: seq<Point>, dists: seq<int>)
    requires |points| == |dists|
    requires Best(k, multiset(Candidates(s, q, limit)), multiset(Zip(points, dists)))
    ensures |points| == var n := |Filter(s, Within(q, limit))|; if n < k then n else k
    ensures multiset(points) <= multiset(s)
    ensures forall i :: 0 <= i < |points| ==> dists[i] == Dist(q, points[i].pos) && WithinLimit(dists[i], limit)
    ensures forall p, i ::
      (p in multiset(s) - multiset(points) && WithinLimit(Dist(q, p.pos), limit) && 0 <= i < |points|) ==>
        dists[i] <= Dist(q, p.pos)
  {
    var all, kept := multiset(Candidates(s, q, limit)), multiset(Zip(points, dists));
    BestCount(k, all, kept);
    CandidatesAreWithin(s, q, limit);
    ZipDistances(s, q, limit, points, dists);
    forall p
      ensures multiset(points)[p] <= multiset(s)[p]
    {
      ZipCount(points, dists, q, p);
      CandidateCount(s, q, limit, Entry(p, Dist(q, p.pos)));
    }
    forall p, i | p in multiset(s) - multiset(points) && WithinLimit(Dist(q, p.pos), limit) && 0 <= i < |points|
      ensures dists[i] <= Dist(q, p.pos)
    {
      OmittedIsFarther(k, s, q, limit, points, dists, p, i);
    }
  }

  lemma OmittedIsFarther(k: nat, s: seq<Point>, q: Vec, limit: Ext, points: seq<Point>, dists: seq<int>,
                         p: Point, i: nat)
    requires |points| == |dists| && i < |points|
    requires Best(k, multiset(Candidates(s, q, limit)), multiset(Zip(points, dists)))
    requires multiset(s)[p] > multiset(points)[p] && WithinLimit(Dist(q, p.pos), limit)
    ensures dists[i] <= Dist(q, p.pos)
  {
    ZipDistances(s, q, limit, points, dists);
    ZipCount(points, dists, q, p);
    var e := Entry(p, Dist(q, p.pos));
    CandidateCount(s, q, limit, e);
    assert e in multiset(Candidates(s, q, limit)) - multiset(Zip(points, dists));
    assert Zip(points, dists)[i] in multiset(Zip(points, dists));
  }

  // ---------- The same in plain numbers ----------

  /** How many points of `s` are within the squared distance `square`. */
  function CountWithin(s: seq<Point>, q: Vec, square: int): nat {
    if s == [] then 0 else (if Dist(q, s[0].pos) <= square then 1 else 0) + CountWithin(s[1..], q, square)
  }

  lemma {:induction false} CountsWithin(s: seq<Point>, q: Vec, v: int)
    ensures |Filter(s, Within(q, Squared(Fin(v))))| == CountWithin(s, q, v * v)
  {
    if s != [] { CountsWithin(s[1..], q, v); }
  }

  lemma {:induction false} AllWithin(s: seq<Point>, q: Vec)
    ensures |Filter(s, Within(q, Squared(Inf)))| == |s|
  {
    if s != [] { AllWithin(s[1..], q); }
  }

  /** Without a limit: min(k, all) points, and nothing left out is closer than anything returned. */
  lemma NearestOfAll(k: nat, s: seq<Point>, q: Vec, points: seq<Point>, dists: seq<int>)
    requires |points| == |dists|
    requires Best(k, multiset(Candidates(s, q, Squared(Inf))), multiset(Zip(points, dists)))
    ensures |points| == if |s| < k then |s| else k
    ensures forall p, i :: p in multiset(s) - multiset(points) && 0 <= i < |points| ==> dists[i] <= Dist(q, p.pos)
  {
    NearestMeaning(k, s, q, Squared(Inf), points, dists);
    AllWithin(s, q);
  }

  /** Within the distance `v`: the same of the points that near. */
  lemma NearestWithin(k: nat, s: seq<Point>, q: Vec, v: int, points: seq<Point>, dists: seq<int>)
    requires |points| == |dists|
    requires Best(k, multiset(Candidates(s, q, Squared(Fin(v)))), multiset(Zip(points, dists)))
    ensures |points| == var n := CountWithin(s, q, v * v); if n < k then n else k
    ensures forall i :: 0 <= i < |points| ==> dists[i] <= v * v
    ensures forall p, i :: p in multiset(s) - multiset(points) && 0 <= i < |points| && Dist(q, p.pos) <= v * v ==>
      dists[i] <= Dist(q, p.pos)
  {
    NearestMeaning(k, s, q, Squared(Fin(v)), points, dists);
    CountsWithin(s, q, v);
  }
}
