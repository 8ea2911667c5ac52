/**
 The deletion criterion: with rebuilds done at once, no live node of more than 10 points keeps more
 than half of them deleted, so the tree stores at most twice what is live.
 */
module KdLean {
  import opened Verdicts
  import opened Geometry
  import opened KdModel
  import opened KdBuild
  import opened KdEdit

  predicate LeanNode(size: int, invalid: int, lim: nat) {
    MINIMAL_UNBALANCED_TREE_SIZE < size < lim ==> 2 * invalid <= size
  }

  /** Down to the deleted subtrees, which are waiting to be dropped. */
  ghost function Weigh(t: Tree, lim: nat): Verdict {
    if Dead(t) || (LeanNode(t.d.size, t.d.invalid, lim) && Weigh(t.left, lim).Sound? && Weigh(t.right, lim).Sound?)
    then Sound else Broken
  }

  ghost predicate Lean(t: Tree, lim: nat) {
    Weigh(t, lim).Sound?
  }

  lemma {:induction false} LiveWithinStored(t: Tree)
    ensures |Live(t)| <= |Stored(t)|
  {
    if !Dead(t) {
      LiveWithinStored(t.left);
      LiveWithinStored(t.right);
    }
  }

  lemma InvalidNotNegative(t: Tree)
    requires WF(t)
    ensures Invalid(t) >= 0
  {
    CountersAreExact(t);
    LiveWithinStored(t);
  }

  lemma {:induction false} NothingInvalidIsLean(t: Tree, lim: nat)
    requires WF(t) && Invalid(t) == 0
    ensures Lean(t, lim)
  {
    if !Dead(t) {
      InvalidNotNegative(t.left);
      InvalidNotNegative(t.right);
      NothingInvalidIsLean(t.left, lim);
      NothingInvalidIsLean(t.right, lim);
    }
  }

  lemma LeafIsLean(t: Tree, lim: nat)
    requires t.Node? && t.d.size == 1 && t.left.Nil? && t.right.Nil?
    ensures Lean(t, lim)
  {
    assert Lean(t.left, lim) && Lean(t.right, lim);
  }

  lemma PushedSonLean(flag: bool, s: Tree, d: Info, lim: nat)
    requires d.tdel || Lean(s, lim)
    requires if d.tdel then Doomed(flag, s) else Harmless(flag, s)
    ensures Lean(PushSon(flag, s, d.tdel, d.tdds), lim)
  {
    if flag && s.Node? && !d.tdel {
      LeafIsLean(Receive(s, d.tdel, d.tdds), lim);
    }
  }

  lemma PushDownLean(t: Tree, lim: nat, u: Tree)
    requires t.Node? && WF(t) && Lean(t, lim) && u == PushDown(t)
    ensures Lean(u, lim) && Lean(u.left, lim) && Lean(u.right, lim)
  {
    PushedSonLean(t.d.pushL, t.left, t.d, lim);
    PushedSonLean(t.d.pushR, t.right, t.d, lim);
  }

  lemma SettleLean(c: Config, t: Tree, v: Tree)
    requires t.Node? && Lean(t.left, c.lim) && Lean(t.right, c.lim) && v == Settle(c, t, true)
    ensures Lean(v, c.lim)
  {
    var u := Update(t);
    if Criterion(u) && u.d.size < c.lim {
      BuildIsWellFormed(c.nth, Live(u));
      NothingInvalidIsLean(v, c.lim);
    }
  }

  lemma {:induction false} AddLean(c: Config, t: Tree, p: Point, fatherAxis: Axis, v: Tree)
    requires WF(t) && Lean(t, c.lim) && v == AddPoint(c, t, p, true, fatherAxis)
    ensures Lean(v, c.lim)
    decreases Count(t)
  {
    if t.Nil? {
      LeafIsLean(v, c.lim);
    } else {
      var u := PushDown(t);
      PushDownLean(t, c.lim, u);
      LiveOfPushed(t, u);
      var son := if GoesLeft(p, u.d) then u.left else u.right;
      AddLean(c, son, p, u.d.axis, AddPoint(c, son, p, true, u.d.axis));
      SettleLean(c, AddBelow(c, u, p, true), v);
    }
  }

  lemma {:induction false} DeleteLean(c: Config, t: Tree, b: Box, ds: bool, v: Tree)
    requires WF(t) && Lean(t, c.lim) && v == DeleteRange(c, t, b, true, ds).tree
    ensures Lean(v, c.lim)
    decreases Count(t)
  {
    if !Dead(t) {
      var u := PushDown(t);
      PushDownLean(t, c.lim, u);
      LiveOfPushed(t, u);
      if !Misses(b, u.d.range) && !Covers(b, u.d.range) {
        DeleteLean(c, u.left, b, ds, DeleteRange(c, u.left, b, true, ds).tree);
        DeleteLean(c, u.right, b, ds, DeleteRange(c, u.right, b, true, ds).tree);
        SettleLean(c, DeleteBelow(c, u, b, true, ds).tree, v);
      }
    }
  }

  /** Where the flags sit does not matter. */
  lemma {:induction false} PushAllLean(t: Tree, lim: nat)
    requires WF(t)
    ensures Lean(PushAll(t), lim) <==> Lean(t, lim)
    decreases Count(t)
  {
    if !Dead(t) {
      var u := PushDown(t);
      PushDownKeeps(t);
      PushAllLean(u.left, lim);
      PushAllLean(u.right, lim);
      SameLeanness(t.d.pushL, t.left, t.d, lim);
      SameLeanness(t.d.pushR, t.right, t.d, lim);
    }
  }

  lemma SameLeanness(flag: bool, s: Tree, d: Info, lim: nat)
    requires !d.tdel && Harmless(flag, s)
    ensures Lean(PushSon(flag, s, d.tdel, d.tdds), lim) <==> Lean(s, lim)
  {
    if flag && s.Node? {
      LeafIsLean(s, lim);
      LeafIsLean(Receive(s, d.tdel, d.tdds), lim);
    }
  }

  /** A lean tree with a live point stores at most twice what is live. */
  lemma StoredIsAtMostTwiceLive(t: Tree, lim: nat)
    requires WF(t) && Lean(t, lim) && Live(t) != []
    ensures MINIMAL_UNBALANCED_TREE_SIZE < |Stored(t)| < lim ==> |Stored(t)| <= 2 * |Live(t)|
  {
    CountersAreExact(t);
  }
}
