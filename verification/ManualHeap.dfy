/** MANUAL_HEAP: the bounded binary max-heap of search results, shifting entries in an array. */
module ManualHeaps {
  import opened Verdicts
  import opened Geometry

  /** PointType_CMP. */
  datatype Entry = Entry(point: Point, dist: int)

  /** operator<: by distance, ties by x (over exact coordinates the tolerance is equality). */
  predicate Less(a: Entry, b: Entry) {
    if a.dist == b.dist then a.point.pos.x < b.point.pos.x else a.dist < b.dist
  }

  function Parent(i: nat): nat
    requires i > 0
  {
    (i - 1) / 2
  }

  ghost predicate HeapOrder(s: seq<Entry>) {
    forall i {:trigger s[i]} :: 0 < i < |s| ==> !Less(s[Parent(i)], s[i])
  }

  /** Heap order except that the entry at `k` may be smaller than its children. */
  ghost predicate OrderBelow(s: seq<Entry>, k: nat) {
    && (forall i {:trigger s[i]} :: 0 < i < |s| && Parent(i) != k ==> !Less(s[Parent(i)], s[i]))
    && (forall i {:trigger s[i]} :: 0 < k && 0 < i < |s| && Parent(i) == k ==> !Less(s[Parent(k)], s[i]))
  }

  /** Heap order except that the entry at `k` may exceed its parent. */
  ghost predicate OrderAbove(s: seq<Entry>, k: nat) {
    && (forall i {:trigger s[i]} :: 0 < i < |s| && i != k ==> !Less(s[Parent(i)], s[i]))
    && (forall i {:trigger s[i]} :: 0 < k && 0 < i < |s| && Parent(i) == k ==> !Less(s[Parent(k)], s[i]))
  }

  function Swapped(s: seq<Entry>, i: nat, j: nat): (t: seq<Entry>)
    requires i < |s| && j < |s|
    ensures |t| == |s|
  {
    s[i := s[j]][j := s[i]]
  }

  lemma SwapKeepsMultiset(s: seq<Entry>, i: nat, j: nat)
    requires i < |s| && j < |s|
    ensures multiset(Swapped(s, i, j)) == multiset(s)
  {
  }

  /** Copying an entry into the hole moves the hole: the view with `tmp` in it is swapped. */
  lemma MoveHole(h: seq<Entry>, view: seq<Entry>, i: nat, j: nat, tmp: Entry)
    requires i < |h| && j < |h| && i != j && view == h[i := tmp]
    ensures Swapped(view, i, j) == h[i := h[j]][j := tmp]
    ensures multiset(Swapped(view, i, j)) == multiset(view)
  {
    SwapKeepsMultiset(view, i, j);
  }

  /** The entry sinks below its larger child. */
  lemma SinkStep(s: seq<Entry>, k: nat, l: nat)
    requires k < l < |s| && OrderBelow(s, k) && TopsSiblings(s, k, l)
    requires Less(s[k], s[l])
    ensures OrderBelow(Swapped(s, k, l), l)
  {
    var t := Swapped(s, k, l);
    forall i | 0 < i < |t| && Parent(i) != l
      ensures !Less(t[Parent(i)], t[i])
    {
      if Parent(i) == k {
        assert i == l || !Less(s[l], s[i]);
      } else if i != k {
        assert !Less(s[Parent(i)], s[i]);
      }
    }
    forall i | 0 < i < |t| && Parent(i) == l
      ensures !Less(t[Parent(l)], t[i])
    {
      assert !Less(s[l], s[i]);
    }
  }

  /** The entry floats above a smaller parent. */
  lemma FloatStep(s: seq<Entry>, k: nat)
    requires 0 < k < |s| && OrderAbove(s, k) && Less(s[Parent(k)], s[k])
    ensures OrderAbove(Swapped(s, k, Parent(k)), Parent(k))
  {
    var a := Parent(k);
    var t := Swapped(s, k, a);
    forall i | 0 < i < |t| && i != a
      ensures !Less(t[Parent(i)], t[i])
    {
      if Parent(i) == k { assert !Less(s[a], s[i]); }
      else if Parent(i) == a { assert i == k || !Less(s[a], s[i]); }
      else { assert !Less(s[Parent(i)], s[i]); }
    }
    forall i | 0 < a && 0 < i < |t| && Parent(i) == a
      ensures !Less(t[Parent(a)], t[i])
    {
      assert !Less(s[Parent(a)], s[a]);
      assert i == k || !Less(s[a], s[i]);
    }
  }

  /** In a heap the first entry is a maximum. */
  lemma {:induction false} TopIsMax(s: seq<Entry>, i: nat)
    requires HeapOrder(s) && i < |s|
    ensures !Less(s[0], s[i])
    decreases i
  {
    if i > 0 {
      TopIsMax(s, Parent(i));
      assert !Less(s[Parent(i)], s[i]);
    }
  }

  /** The hole of MoveDown is at `i`; with `tmp` in it the heap is in order except below the hole. */
  ghost function Sinking(s: seq<Entry>, i: nat, tmp: Entry, was: multiset<Entry>): Verdict {
    if i < |s| && OrderBelow(s[i := tmp], i) && multiset(s[i := tmp]) == was then Sound else Broken
  }

  /** The son that MoveDown compares with. */
  function LargerSon(s: seq<Entry>, i: nat): nat
    requires 2 * i + 1 < |s|
  {
    if 2 * i + 2 < |s| && Less(s[2 * i + 1], s[2 * i + 2]) then 2 * i + 2 else 2 * i + 1
  }

  lemma SinkingStep(s: seq<Entry>, i: nat, tmp: Entry, was: multiset<Entry>)
    requires 2 * i + 1 < |s| && Sinking(s, i, tmp, was).Sound? && Less(tmp, s[LargerSon(s, i)])
    ensures Sinking(s[i := s[LargerSon(s, i)]], LargerSon(s, i), tmp, was).Sound?
  {
    var l, view := LargerSon(s, i), s[i := tmp];
    LargerChild(view, i, l);
    SinkStep(view, i, l);
    MoveHole(s, view, i, l, tmp);
  }

  lemma SinkingStops(s: seq<Entry>, i: nat, tmp: Entry, was: multiset<Entry>)
    requires Sinking(s, i, tmp, was).Sound?
    requires 2 * i + 1 < |s| ==> !Less(tmp, s[LargerSon(s, i)])
    ensures i < |s| && HeapOrder(s[i := tmp]) && multiset(s[i := tmp]) == was
  {
    var view := s[i := tmp];
    if 2 * i + 1 < |s| {
      LargerChild(view, i, LargerSon(s, i));
      SettledBelow(view, i, LargerSon(s, i));
    } else {
      LeafBelow(view, i);
    }
  }

  class ManualHeap {
    var heap: array<Entry>
    var size: nat
    const cap: nat

    ghost predicate Valid()
      reads this, heap
    {
      size <= cap == heap.Length && HeapOrder(heap[..size])
    }

    ghost function Contents(): multiset<Entry>
      requires size <= heap.Length
      reads this, heap
    {
      multiset(heap[..size])
    }

    constructor (capacity: nat)
      ensures Valid() && fresh(heap) && cap == capacity
      ensures size == 0 && Contents() == multiset{}
    {
      cap := capacity;
      heap := new Entry[capacity](_ => Entry(Point(Vec(0, 0, 0), 0), 0));
      size := 0;
    }

    /** top, which the source reads only when the heap is not empty. */
    method Top() returns (e: Entry)
      requires Valid() && size > 0
      ensures e == heap[0] && e in Contents()
      ensures forall f :: f in Contents() ==> !Less(e, f)
      ensures forall f :: f in Contents() ==>
        f.dist < e.dist || (f.dist == e.dist && f.point.pos.x <= e.point.pos.x)
    {
      e := heap[0];
      ghost var s := heap[..size];
      assert s[0] in s;
      forall f | f in Contents()
        ensures !Less(e, f)
      {
        assert f in s;
        var i :| 0 <= i < |s| && s[i] == f;
        TopIsMax(s, i);
      }
    }

    method Pop()
      requires Valid()
      modifies this`size, heap
      ensures Valid() && heap == old(heap)
      ensures old(size) == 0 ==> size == 0
      ensures old(size) > 0 ==> size == old(size) - 1 && Contents() == old(Contents()) - multiset{old(heap[0])}
    {
      if size == 0 {
        return;
      }
      ghost var s := heap[..size];
      heap[0] := heap[size - 1];
      size := size - 1;
      ghost var t := heap[..size];
      PopView(s, t);
      if size > 0 {
        MoveDown(0);
      }
    }

    method Push(e: Entry)
      requires Valid()
      modifies this`size, heap
      ensures Valid() && heap == old(heap)
      ensures old(size) >= cap ==> size == old(size) && Contents() == old(Contents())
      ensures old(size) < cap ==> size == old(size) + 1 && Contents() == old(Contents()) + multiset{e}
    {
      if size >= cap {
        return;
      }
      ghost var s := heap[..size];
      heap[size] := e;
      assert heap[..size + 1] == s + [e];
      PushView(s, e);
      size := size + 1;
      FloatUp(size - 1);
    }

    method MoveDown(k: nat)
      requires size <= heap.Length && k < size && OrderBelow(heap[..size], k)
      modifies heap
      ensures HeapOrder(heap[..size]) && multiset(heap[..size]) == old(multiset(heap[..size]))
    {
      var i := k;
      var l := i * 2 + 1;
      var tmp := heap[i];
      ghost var was := multiset(heap[..size]);
      assert heap[..size][i := tmp] == heap[..size];
      while l < size
        invariant i < size && l == i * 2 + 1
        invariant Sinking(heap[..size], i, tmp, was).Sound?
      {
        ghost var s := heap[..size];
        l := SonToCompare(i, l);
        if Less(tmp, heap[l]) {
          SinkingStep(s, i, tmp, was);
          heap[i] := heap[l];
          assert heap[..size] == s[i := s[l]];
          i := l;
          l := i * 2 + 1;
        } else {
          SinkingStops(s, i, tmp, was);
          heap[i] := tmp;
          assert heap[..size] == s[i := tmp];
          return;
        }
      }
      SinkingStops(heap[..size], i, tmp, was);
      ghost var s := heap[..size];
      heap[i] := tmp;
      assert heap[..size] == s[i := tmp];
    }

    method SonToCompare(i: nat, l: nat) returns (c: nat)
      requires l == i * 2 + 1 && l < size <= heap.Length
      ensures c < size && c == LargerSon(heap[..size], i)
    {
      c := l;
      if c + 1 < size && Less(heap[c], heap[c + 1]) {
        c := c + 1;
      }
    }

    method FloatUp(k: nat)
      requires size <= heap.Length && k < size && OrderAbove(heap[..size], k)
      modifies heap
      ensures HeapOrder(heap[..size]) && multiset(heap[..size]) == old(multiset(heap[..size]))
    {
      var i := k;
      var tmp := heap[i];
      ghost var view := heap[..size];
      ghost var was := multiset(view);
      while i > 0
        invariant i < size && |view| == size && view == heap[..size][i := tmp]
        invariant OrderAbove(view, i) && multiset(view) == was
      {
        var ancestor := Parent(i);
        assert view[ancestor] == heap[ancestor];
        if Less(heap[ancestor], tmp) {
          FloatStep(view, i);
          MoveHole(heap[..size], view, i, ancestor, tmp);
          heap[i] := heap[ancestor];
          view := Swapped(view, i, ancestor);
          i := ancestor;
        } else {
          break;
        }
      }
      heap[i] := tmp;
      assert heap[..size] == view;
    }
  }

  lemma PopView(s: seq<Entry>, t: seq<Entry>)
    requires |s| > 0 && HeapOrder(s) && |t| == |s| - 1
    requires t == s[0 := s[|s| - 1]][..|s| - 1]
    ensures t != [] ==> OrderBelow(t, 0)
    ensures t == [] ==> HeapOrder(t)
    ensures multiset(t) == multiset(s) - multiset{s[0]}
  {
    if |s| == 1 {
      assert s == [s[0]];
    } else {
      PopMultiset(s, t);
      forall i | 0 < i < |t| && Parent(i) != 0
        ensures !Less(t[Parent(i)], t[i])
      {
        assert s[i] == t[i] && s[Parent(i)] == t[Parent(i)];
      }
    }
  }

  lemma PopMultiset(s: seq<Entry>, t: seq<Entry>)
    requires |s| > 1 && t == s[0 := s[|s| - 1]][..|s| - 1]
    ensures multiset(t) == multiset(s) - multiset{s[0]}
  {
    assert s == [s[0]] + s[1..|s| - 1] + [s[|s| - 1]];
    assert t == [s[|s| - 1]] + s[1..|s| - 1];
  }

  lemma PushView(s: seq<Entry>, e: Entry)
    requires HeapOrder(s)
    ensures OrderAbove(s + [e], |s|)
  {
    var t := s + [e];
    forall i | 0 < i < |t| && i != |s|
      ensures !Less(t[Parent(i)], t[i])
    {
      assert s[i] == t[i] && s[Parent(i)] == t[Parent(i)];
    }
  }

  /** No child is larger than `l`. */
  ghost predicate TopsSiblings(s: seq<Entry>, k: nat, l: nat) {
    && l < |s| && 0 < l && Parent(l) == k
    && forall i {:trigger s[i]} :: 0 < i < |s| && Parent(i) == k ==> !Less(s[l], s[i])
  }

  /** The child that MoveDown picks is not smaller than its sibling. */
  lemma LargerChild(s: seq<Entry>, k: nat, c: nat)
    requires 2 * k + 1 < |s|
    requires c == if 2 * k + 2 < |s| && Less(s[2 * k + 1], s[2 * k + 2]) then 2 * k + 2 else 2 * k + 1
    ensures TopsSiblings(s, k, c)
  {
    forall i | 0 < i < |s| && Parent(i) == k
      ensures i == 2 * k + 1 || i == 2 * k + 2
    {
    }
  }

  lemma SettledBelow(s: seq<Entry>, k: nat, l: nat)
    requires k < |s| && OrderBelow(s, k) && TopsSiblings(s, k, l) && !Less(s[k], s[l])
    ensures HeapOrder(s)
  {
    forall i | 0 < i < |s|
      ensures !Less(s[Parent(i)], s[i])
    {
      if Parent(i) == k { assert !Less(s[l], s[i]); }
    }
  }

  lemma LeafBelow(s: seq<Entry>, k: nat)
    requires k < |s| <= 2 * k + 1 && OrderBelow(s, k)
    ensures HeapOrder(s)
  {
  }
}
