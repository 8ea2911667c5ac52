/** What a k-nearest search must keep, and why pruning keeps it. */
module Nearest {
  import opened Geometry
  import opened ManualHeaps

  predicate WithinLimit(d: int, limit: Ext) {
    limit.Fin? ==> d <= limit.v
  }

  /** The points of `s` within the distance limit, each with its squared distance from `q`. */
  function Candidates(s: seq<Point>, q: Vec, limit: Ext): seq<Entry> {
    if s == [] then []
    else
      var d := Dist(q, s[0].pos);
      (if WithinLimit(d, limit) then [Entry(s[0], d)] else []) + Candidates(s[1..], q, limit)
  }

  /**
   `kept` are `k` nearest entries of `all`: everything when there are no more than `k`, otherwise
   exactly `k` entries such that no entry left out is strictly closer than one kept.
   */
  ghost predicate Best(k: nat, all: multiset<Entry>, kept: multiset<Entry>) {
    && kept <= all && |kept| <= k
    && (kept == all || (|kept| == k && NoneCloser(all - kept, kept)))
  }

  ghost predicate NoneCloser(omitted: multiset<Entry>, kept: multiset<Entry>) {
    forall a, b :: a in kept && b in omitted ==> a.dist <= b.dist
  }

  lemma {:induction false} CandidatesAppend(s: seq<Point>, t: seq<Point>, q: Vec, limit: Ext)
    ensures Candidates(s + t, q, limit) == Candidates(s, q, limit) + Candidates(t, q, limit)
  {
    if s == [] {
      assert s + t == t;
    } else {
      assert (s + t)[1..] == s[1..] + t;
      CandidatesAppend(s[1..], t, q, limit);
    }
  }

  lemma {:induction false} CandidateIs(s: seq<Point>, q: Vec, limit: Ext, e: Entry)
    ensures e in Candidates(s, q, limit) <==>
      e.point in s && e.dist == Dist(q, e.point.pos) && WithinLimit(e.dist, limit)
  {
    if s != [] {
      CandidateIs(s[1..], q, limit, e);
    }
  }

  lemma {:induction false} NoCandidates(s: seq<Point>, q: Vec, limit: Ext)
    requires forall p :: p in s ==> !WithinLimit(Dist(q, p.pos), limit)
    ensures Candidates(s, q, limit) == []
  {
    if s != [] {
      NoCandidates(s[1..], q, limit);
    }
  }

  /** How many: min(k, all). */
  lemma BestCount(k: nat, all: multiset<Entry>, kept: multiset<Entry>)
    requires Best(k, all, kept)
    ensures |kept| == if |all| < k then |all| else k
  {
    if kept != all {
      SubmultisetSize(kept, all);
    }
  }

  lemma SubmultisetSize(a: multiset<Entry>, b: multiset<Entry>)
    requires a <= b
    ensures |b| == |a| + |b - a|
  {
    assert b == a + (b - a);
  }

  lemma SmallerIsEqual(a: multiset<Entry>, b: multiset<Entry>)
    requires a <= b && |a| == |b|
    ensures a == b
  {
    SubmultisetSize(a, b);
    assert b == a + (b - a);
  }

  /** Two full selections of the same size: what one has more of, it lacks elsewhere. */
  lemma Displaced(k1: multiset<Entry>, k2: multiset<Entry>, a: Entry) returns (c: Entry)
    requires |k1| == |k2| && k2[a] > k1[a]
    ensures k1[c] > k2[c]
  {
    if k1 <= k2 {
      SmallerIsEqual(k1, k2);
      assert false;
    }
    c :| k1[c] > k2[c];
  }

  /** Selecting from what an earlier selection kept is as good as selecting from everything. */
  lemma BestTransitive(k: nat, a: multiset<Entry>, k1: multiset<Entry>, b: multiset<Entry>, k2: multiset<Entry>)
    requires Best(k, a, k1) && Best(k, k1 + b, k2)
    ensures Best(k, a + b, k2)
  {
    if k1 != a || k2 != k1 + b {
      if k1 != a && k2 == k1 + b {
        assert |b| == 0 && b == multiset{};
        assert k2 == k1 && a + b == a;
      } else {
        forall x, y | x in k2 && y in a + b - k2
          ensures x.dist <= y.dist
        {
          OmittedFartherThanKept(k, a, k1, b, k2, x, y);
        }
      }
    }
  }

  lemma OmittedFartherThanKept(k: nat, a: multiset<Entry>, k1: multiset<Entry>, b: multiset<Entry>,
                               k2: multiset<Entry>, x: Entry, y: Entry)
    requires Best(k, a, k1) && Best(k, k1 + b, k2) && k2 != k1 + b
    requires x in k2 && y in a + b - k2
    ensures x.dist <= y.dist
  {
    if (k1 + b)[y] > k2[y] {
      assert y in k1 + b - k2;
    } else {
      assert a[y] > k1[y];
      assert y in a - k1;
      if x !in k1 {
        var c := Displaced(k1, k2, x);
        assert c in k1 && c in k1 + b - k2;
      }
    }
  }

  /** Nothing in a full selection is farther than anything in `b`, so `b` can be skipped. */
  lemma SkipFarther(k: nat, kept: multiset<Entry>, b: multiset<Entry>)
    requires |kept| == k && NoneCloser(b, kept)
    ensures Best(k, kept + b, kept)
  {
    assert kept + b - kept == b;
  }

  lemma SkipNothing(k: nat, kept: multiset<Entry>)
    requires |kept| <= k
    ensures Best(k, kept + multiset{}, kept)
  {
    assert kept + multiset{} == kept;
  }

  lemma KeepOne(k: nat, kept: multiset<Entry>, e: Entry)
    requires |kept| < k
    ensures Best(k, kept + multiset{e}, kept + multiset{e})
  {
  }

  /** Replacing the farthest entry by a closer one. */
  lemma ReplaceFarthest(k: nat, kept: multiset<Entry>, top: Entry, e: Entry)
    requires |kept| == k && top in kept && e.dist < top.dist
    requires forall f :: f in kept ==> f.dist <= top.dist
    ensures Best(k, kept + multiset{e}, kept - multiset{top} + multiset{e})
  {
    var next := kept - multiset{top} + multiset{e};
    assert kept + multiset{e} - next == multiset{top};
  }

  /** `top` is a maximum of the heap order, so nothing kept is farther. */
  lemma TopIsFarthest(kept: multiset<Entry>, top: Entry)
    requires forall f :: f in kept ==> !Less(top, f)
    ensures forall f :: f in kept ==> f.dist <= top.dist
  {
  }
}
