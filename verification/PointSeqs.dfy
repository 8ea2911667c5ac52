/** Selecting points from a sequence, and what that does to the multiset of its points. */
module PointSeqs {
  import opened Geometry

  /** The points of `s` that satisfy `f`, in order. */
  function Filter(s: seq<Point>, f: Point -> bool): seq<Point> {
    if s == [] then [] else (if f(s[0]) then [s[0]] else []) + Filter(s[1..], f)
  }

  function In(b: Box): Point -> bool {
    p => InBox(p, b)
  }

  function Not(f: Point -> bool): Point -> bool {
    p => !f(p)
  }

  lemma {:induction false} FilterAppend(s: seq<Point>, t: seq<Point>, f: Point -> bool)
    ensures Filter(s + t, f) == Filter(s, f) + Filter(t, f)
  {
    if s == [] {
      assert s + t == t;
    } else {
      var u, head := s + t, if f(s[0]) then [s[0]] else [];
      assert u[0] == s[0] && u[1..] == s[1..] + t;
      FilterAppend(s[1..], t, f);
      assert head + (Filter(s[1..], f) + Filter(t, f)) == head + Filter(s[1..], f) + Filter(t, f);
    }
  }

  lemma {:induction false} FilterAll(s: seq<Point>, f: Point -> bool)
    requires forall p :: p in s ==> f(p)
    ensures Filter(s, f) == s
  {
    if s != [] {
      FilterAll(s[1..], f);
    }
  }

  lemma {:induction false} FilterNone(s: seq<Point>, f: Point -> bool)
    requires forall p :: p in s ==> !f(p)
    ensures Filter(s, f) == []
  {
    if s != [] {
      FilterNone(s[1..], f);
    }
  }

  /** Filtering keeps the multiplicity of the selected points and drops the others. */
  lemma {:induction false} FilterCount(s: seq<Point>, f: Point -> bool, p: Point)
    ensures multiset(Filter(s, f))[p] == if f(p) then multiset(s)[p] else 0
  {
    if s != [] {
      assert s == [s[0]] + s[1..];
      FilterCount(s[1..], f, p);
    }
  }

  lemma FilterMember(s: seq<Point>, f: Point -> bool, p: Point)
    ensures p in Filter(s, f) <==> p in s && f(p)
  {
    FilterCount(s, f, p);
    assert p in Filter(s, f) <==> p in multiset(Filter(s, f));
    assert p in s <==> p in multiset(s);
  }

  /** Filtering respects rearrangement. */
  lemma FilterPermutation(s: seq<Point>, t: seq<Point>, f: Point -> bool)
    requires multiset(s) == multiset(t)
    ensures multiset(Filter(s, f)) == multiset(Filter(t, f))
  {
    forall p
      ensures multiset(Filter(s, f))[p] == multiset(Filter(t, f))[p]
    {
      FilterCount(s, f, p);
      FilterCount(t, f, p);
    }
  }

  /** A filter and its complement split a sequence. */
  lemma {:induction false} FilterSplit(s: seq<Point>, f: Point -> bool)
    ensures multiset(s) == multiset(Filter(s, f)) + multiset(Filter(s, Not(f)))
    ensures |s| == |Filter(s, f)| + |Filter(s, Not(f))|
  {
    if s != [] {
      FilterSplit(s[1..], f);
      assert s == [s[0]] + s[1..];
    }
  }

  lemma SameMembers(s: seq<Point>, t: seq<Point>)
    requires multiset(s) == multiset(t)
    ensures |s| == |t|
    ensures forall p :: p in s <==> p in t
  {
    assert |multiset(s)| == |multiset(t)|;
    forall p
      ensures p in s <==> p in t
    {
      assert p in s <==> p in multiset(s);
      assert p in t <==> p in multiset(t);
    }
  }
}
