/**
 KD_TREE_NODE on the heap. Every node carries, as ghosts, its footprint `Repr` and the value `tree`
 of its whole subtree; `Valid` ties both to the real fields. Each method is proved against the
 function of the same name on tree values.
 */
module KdNodes {
  import opened Verdicts
  import opened Geometry
  import opened KdModel
  import E = KdEdit

  /** The node's scalar fields are the record `d`; its sons are pointers. */
  class KdNode {
    var d: Info
    var left: KdNode?
    var right: KdNode?

    ghost var Repr: set<KdNode>
    ghost var tree: Tree

    /** The sons are valid subtrees that share no node with each other or with this node. */
    ghost predicate SonsValid()
      reads this, left, right, ReprOf(left), ReprOf(right)
    {
      && (left != null ==> this !in left.Repr && left.Valid())
      && (right != null ==> this !in right.Repr && right.Valid())
      && ReprOf(left) !! ReprOf(right)
    }

    /** Whether the ghosts describe the subtree on the heap, a tree without sharing. */
    ghost function Shape(): Verdict
      reads this, Repr
      ensures Shape().Sound? ==> this in Repr && tree.Node? && tree.d == d
      decreases Repr
    {
      if && this in Repr
         && (left != null ==>
               left in Repr && left.Repr <= Repr && this !in left.Repr && left.Shape().Sound?)
         && (right != null ==>
               right in Repr && right.Repr <= Repr && this !in right.Repr && right.Shape().Sound?)
         && ReprOf(left) !! ReprOf(right)
         && Repr == {this} + ReprOf(left) + ReprOf(right)
         && tree == Node(d, TreeOf(left), TreeOf(right))
      then Sound else Broken
    }

    ghost predicate Valid()
      reads this, Repr
    {
      Shape().Sound?
    }

    /** InitTreeNode, with the point and axis the callers store right after it. */
    constructor (p: Point, a: Axis)
      ensures left == null && right == null && d == Blank(p, a)
      ensures Valid() && Repr == {this} && tree == Node(Blank(p, a), Nil, Nil)
    {
      d := Blank(p, a);
      left, right := null, null;
      Repr := {this};
      tree := Node(Blank(p, a), Nil, Nil);
    }

    /** Brings the ghosts of this node up to date with its sons. */
    ghost method Mirror()
      requires SonsValid()
      modifies this`Repr, this`tree
      ensures Valid() && Repr == {this} + ReprOf(left) + ReprOf(right)
      ensures tree == Node(d, TreeOf(left), TreeOf(right))
    {
      Repr := {this} + ReprOf(left) + ReprOf(right);
      tree := Node(d, TreeOf(left), TreeOf(right));
    }

    /** What Push_Down does to one son. */
    method Receive(treeDel: bool, treeDs: bool)
      requires Valid()
      modifies this
      ensures Valid() && Repr == old(Repr) && left == old(left) && right == old(right)
      ensures tree == KdModel.Receive(old(tree), treeDel, treeDs)
    {
      d := Received(d, treeDel, treeDs);
      tree := Node(d, TreeOf(left), TreeOf(right));
    }

    /** Push_Down. */
    method PushDown()
      requires Valid()
      modifies Repr
      ensures Valid() && left == old(left) && right == old(right)
      ensures Repr == old(Repr) && ReprOf(left) == old(ReprOf(left)) && ReprOf(right) == old(ReprOf(right))
      ensures tree == KdModel.PushDown(old(tree))
    {
      ghost var was := d;
      ghost var l, r := TreeOf(left), TreeOf(right);
      PushLeft();
      PushRight();
      Mirror();
      PushedNode(was, l, r, tree);
    }

    method PushLeft()
      requires SonsValid()
      modifies this`d, left
      ensures SonsValid() && ReprOf(left) == old(ReprOf(left)) && ReprOf(right) == old(ReprOf(right))
      ensures TreeOf(right) == old(TreeOf(right))
      ensures d == old(d).(pushL := old(d).pushL && left == null)
      ensures TreeOf(left) == PushSon(old(d).pushL, old(TreeOf(left)), old(d).tdel, old(d).tdds)
    {
      if d.pushL && left != null {
        left.Receive(d.tdel, d.tdds);
        d := d.(pushL := false);
      }
    }

    method PushRight()
      requires SonsValid()
      modifies this`d, right
      ensures SonsValid() && ReprOf(left) == old(ReprOf(left)) && ReprOf(right) == old(ReprOf(right))
      ensures TreeOf(left) == old(TreeOf(left))
      ensures d == old(d).(pushR := old(d).pushR && right == null)
      ensures TreeOf(right) == PushSon(old(d).pushR, old(TreeOf(right)), old(d).tdel, old(d).tdds)
    {
      if d.pushR && right != null {
        right.Receive(d.tdel, d.tdds);
        d := d.(pushR := false);
      }
    }

    /** Update. */
    method Update()
      requires SonsValid()
      modifies this
      ensures Valid() && Repr == {this} + ReprOf(left) + ReprOf(right)
      ensures left == old(left) && right == old(right)
      ensures tree == KdModel.Update(Node(old(d), TreeOf(left), TreeOf(right)))
    {
      var l := if left != null then Son(left.d) else NoSon;
      var r := if right != null then Son(right.d) else NoSon;
      d := Updated(d, l, r);
      Repr := {this} + ReprOf(left) + ReprOf(right);
      tree := Node(d, TreeOf(left), TreeOf(right));
    }

    /** Criterion_Check. */
    method CriterionCheck() returns (degenerate: bool)
      requires Valid() && tree.d.size == 1 + Size(tree.left) + Size(tree.right)
      ensures degenerate == E.Criterion(tree)
    {
      if d.size <= E.MINIMAL_UNBALANCED_TREE_SIZE {
        return false;
      }
      var son := left;
      if son == null { son := right; }
      return 2 * d.invalid > d.size || 5 * son.d.size > 3 * (d.size - 1) || 5 * son.d.size < 2 * (d.size - 1);
    }

    /** The covered case of Delete_by_range. */
    method MarkDeleted(ds: bool) returns (count: int)
      requires Valid()
      modifies this
      ensures Valid() && Repr == old(Repr)
      ensures tree == old(tree).(d := E.MarkDeleted(old(tree).d, ds))
      ensures count == old(tree).d.size - old(tree).d.invalid
    {
      count := d.size - d.invalid;
      d := E.MarkDeleted(d, ds);
      tree := Node(d, TreeOf(left), TreeOf(right));
    }
  }

  lemma PushedNode(d: Info, l: Tree, r: Tree, u: Tree)
    requires u.Node? && u.d == d.(pushL := d.pushL && l.Nil?, pushR := d.pushR && r.Nil?)
    requires u.left == PushSon(d.pushL, l, d.tdel, d.tdds) && u.right == PushSon(d.pushR, r, d.tdel, d.tdds)
    ensures u == PushDown(Node(d, l, r))
  {
  }

  ghost function TreeOf(n: KdNode?): Tree
    reads n
  {
    if n == null then Nil else n.tree
  }

  ghost function ReprOf(n: KdNode?): set<KdNode>
    reads n
  {
    if n == null then {} else n.Repr
  }
}
