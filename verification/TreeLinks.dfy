/**
 * The salary tree as linked nodes.
 * A ghost shape says what the links below a node spell out. `parent` links, heights, sizes and
 * grade sums are part of the representation, so every contract states them exactly.
 */
module TreeLinks {
  import opened Staff
  import opened TreeShape
  import opened TreeLaws

  /** Links, entries and the subtrees below the top node are those of `t`; nothing about its caches. */
  ghost predicate Linked(t: Shape, p: Tnode?)
    reads Nodes(t)
    decreases t, 0
  {
    t.Bin? ==>
      && t.node.key == t.entry.key && t.node.data == t.entry.data && t.node.tGrade == t.entry.grade
      && t.node.parent == p && t.node.left == Root(t.left) && t.node.right == Root(t.right)
      && Rep(t.left, t.node) && Rep(t.right, t.node)
  }

  /** The nodes below are exactly `t`, hanging from `p`, with every cache exact. */
  ghost predicate Rep(t: Shape, p: Tnode?)
    reads Nodes(t)
    decreases t, 1
  {
    t.Bin? ==>
      && Linked(t, p)
      && t.node.height == Height(t) && t.node.treeNodes == Size(t) && t.node.sumGrades == Sum(t)
  }

  /** The node at the top carries the entry, the links, the height and the size that `t` says. */
  ghost predicate Placed(t: Shape, p: Tnode?)
    requires t.Bin?
    reads t.node
  {
    && t.node.key == t.entry.key && t.node.data == t.entry.data && t.node.tGrade == t.entry.grade
    && t.node.parent == p && t.node.left == Root(t.left) && t.node.right == Root(t.right)
    && t.node.height == Height(t) && t.node.treeNodes == Size(t)
  }

  /** Links, entries, heights and sizes are exact; nothing about the sums. */
  ghost predicate Leveled(t: Shape, p: Tnode?)
    reads Nodes(t)
  {
    t.Bin? ==> Placed(t, p) && Leveled(t.left, t.node) && Leveled(t.right, t.node)
  }

  /** Everything is exact but the sums on a descent to `key` that runs off the tree: each of them lacks `g`. */
  ghost predicate Short(t: Shape, p: Tnode?, key: Employee, g: int)
    reads Nodes(t)
  {
    t.Bin? ==>
      && Placed(t, p) && t.node.sumGrades == Sum(t) - g
      && if Less(t.entry.key, key) then Rep(t.left, t.node) && Short(t.right, t.node, key, g)
         else Short(t.left, t.node, key, g) && Rep(t.right, t.node)
  }

  lemma {:induction false} RepLeveled(t: Shape, p: Tnode?)
    requires Rep(t, p)
    ensures Leveled(t, p)
  {
    if t.Bin? {
      assert Linked(t, p);
      RepLeveled(t.left, t.node);
      RepLeveled(t.right, t.node);
    }
  }

  lemma {:induction false} ShortLeveled(t: Shape, p: Tnode?, key: Employee, g: int)
    requires Short(t, p, key, g)
    ensures Leveled(t, p)
  {
    if t.Bin? {
      if Less(t.entry.key, key) {
        RepLeveled(t.left, t.node);
        ShortLeveled(t.right, t.node, key, g);
      } else {
        ShortLeveled(t.left, t.node, key, g);
        RepLeveled(t.right, t.node);
      }
    }
  }

  /** One node more on such a descent. */
  lemma {:induction false} ShortAbove(t: Shape, p: Tnode?, key: Employee, g: int)
    requires t.Bin? && Placed(t, p) && t.node.sumGrades == Sum(t) - g
    requires if Less(t.entry.key, key) then Rep(t.left, t.node) && Short(t.right, t.node, key, g)
             else Short(t.left, t.node, key, g) && Rep(t.right, t.node)
    ensures Short(t, p, key, g) && Leveled(t, p)
  {
    ShortLeveled(t, p, key, g);
  }

  function SumOf(n: Tnode?): int
    reads n
  {
    if n == null then 0 else n.sumGrades
  }

  function NodesOf(n: Tnode?): int
    reads n
  {
    if n == null then 0 else n.treeNodes
  }

  function LevelOf(n: Tnode?): int
    reads n
  {
    if n == null then 0 else 1 + n.height
  }

  function AdjustHeight(n: Tnode?): int
    reads n, if n == null then {} else {n.left, n.right}
  {
    if n == null then 0 else Max(LevelOf(n.left), LevelOf(n.right))
  }

  function GetDegree(n: Tnode?): int
    reads n, if n == null then {} else {n.left, n.right}
  {
    if n == null then 0 else 1 + NodesOf(n.left) + NodesOf(n.right)
  }

  function GetBFactor(n: Tnode?): int
    reads n, if n == null then {} else {n.left, n.right}
    reads if n == null || n.left == null then {} else {n.left.left, n.left.right}
    reads if n == null || n.right == null then {} else {n.right.left, n.right.right}
  {
    if n == null then 0
    else
      (AdjustHeight(n.left) + if n.left == null then 0 else 1)
      - (AdjustHeight(n.right) + if n.right == null then 0 else 1)
  }

  /** The set of nodes a possibly missing parent contributes to a frame. */
  ghost function Only(p: Tnode?): set<Tnode> {
    if p == null then {} else {p}
  }

  lemma {:induction false} NodesAllocated(t: Shape)
    ensures forall n :: n in Nodes(t) ==> allocated(n)
  {
    if t.Bin? {
      NodesAllocated(t.left);
      NodesAllocated(t.right);
    }
  }

  /** Recomputes all three caches of a node from its sons, and so makes its subtree exact. */
  method Refresh(n: Tnode, ghost t: Shape)
    requires t.Bin? && t.node == n && Distinct(t) && Linked(t, n.parent)
    modifies n`height, n`treeNodes, n`sumGrades
    ensures Rep(t, n.parent)
  {
    assert Rep(t.left, n) && Rep(t.right, n);
    n.height := AdjustHeight(n);
    n.treeNodes := GetDegree(n);
    n.sumGrades := n.tGrade;
    if n.left != null {
      n.sumGrades := n.sumGrades + n.left.sumGrades;
    }
    if n.right != null {
      n.sumGrades := n.sumGrades + n.right.sumGrades;
    }
  }

  /** Hangs the subtree `t` below another parent. */
  method SetParent(n: Tnode?, p: Tnode?, ghost t: Shape, ghost q: Tnode?)
    requires n == Root(t) && Rep(t, q) && Distinct(t)
    modifies Only(n)`parent
    ensures Rep(t, p)
  {
    if n != null {
      assert Rep(t.left, n) && Rep(t.right, n);
      n.parent := p;
    }
  }

  /** The links of a right rotation below its top; the top's own parent is set by the caller. */
  method LinkLeft(tnode: Tnode, ghost t: Shape)
    requires t.Bin? && t.node == tnode && t.left.Bin? && Distinct(t) && Linked(t, tnode.parent)
    modifies Nodes(t)
    ensures tnode.parent == t.left.node && Linked(RotateRight(t).right, t.left.node)
    ensures var s := t.left.node;
            && s.key == t.left.entry.key && s.data == t.left.entry.data && s.tGrade == t.left.entry.grade
            && s.parent == tnode && s.left == Root(t.left.left) && s.right == tnode && Rep(t.left.left, s)
  {
    ghost var a, b, c := t.left.left, t.left.right, t.right;
    NodesAllocated(t);
    assert Rep(t.left, tnode) && Distinct(t.left);
    var leftson := tnode.left;
    assert Linked(t.left, tnode);
    assert Rep(a, leftson) && Rep(b, leftson) && Rep(c, tnode);
    assert Only(Root(b)) <= Nodes(b) <= Nodes(t.left);
    assert {tnode, leftson} !! Nodes(a) + Nodes(b) + Nodes(c);
    var middle := leftson.right;
    tnode.left := middle;
    leftson.right := tnode;
    SetParent(middle, tnode, b, leftson);
    tnode.parent := leftson;
  }

  method LiftLeft(tnode: Tnode, ghost t: Shape)
    requires t.Bin? && t.node == tnode && t.left.Bin? && Distinct(t) && Linked(t, tnode.parent)
    modifies Nodes(t)
    ensures Rep(RotateRight(t), tnode)
  {
    NodesAllocated(t);
    RotateRightKeeps(t);
    var leftson := tnode.left;
    LinkLeft(tnode, t);
    Refresh(tnode, RotateRight(t).right);
    Refresh(leftson, RotateRight(t));
  }

  /** The links of a left rotation below its top; the top's own parent is set by the caller. */
  method LinkRight(tnode: Tnode, ghost t: Shape)
    requires t.Bin? && t.node == tnode && t.right.Bin? && Distinct(t) && Linked(t, tnode.parent)
    modifies Nodes(t)
    ensures tnode.parent == t.right.node && Linked(RotateLeft(t).left, t.right.node)
    ensures var s := t.right.node;
            && s.key == t.right.entry.key && s.data == t.right.entry.data && s.tGrade == t.right.entry.grade
            && s.parent == tnode && s.right == Root(t.right.right) && s.left == tnode && Rep(t.right.right, s)
  {
    ghost var a, b, c := t.left, t.right.left, t.right.right;
    NodesAllocated(t);
    assert Rep(t.right, tnode) && Distinct(t.right);
    var rightson := tnode.right;
    assert Linked(t.right, tnode);
    assert Rep(a, tnode) && Rep(b, rightson) && Rep(c, rightson);
    assert Only(Root(b)) <= Nodes(b) <= Nodes(t.right);
    assert {tnode, rightson} !! Nodes(a) + Nodes(b) + Nodes(c);
    var middle := rightson.left;
    tnode.right := middle;
    rightson.left := tnode;
    SetParent(middle, tnode, b, rightson);
    tnode.parent := rightson;
  }

  method LiftRight(tnode: Tnode, ghost t: Shape)
    requires t.Bin? && t.node == tnode && t.right.Bin? && Distinct(t) && Linked(t, tnode.parent)
    modifies Nodes(t)
    ensures Rep(RotateLeft(t), tnode)
  {
    NodesAllocated(t);
    RotateLeftKeeps(t);
    var rightson := tnode.right;
    LinkRight(tnode, t);
    Refresh(tnode, RotateLeft(t).left);
    Refresh(rightson, RotateLeft(t));
  }

  /** On an exact subtree the quantities recomputed from the sons are the cached ones. */
  lemma {:induction false} CachesExact(t: Shape, p: Tnode?)
    requires t.Bin? && Rep(t, p)
    ensures AdjustHeight(t.node) == Height(t) && GetDegree(t.node) == Size(t)
    ensures t.node.sumGrades == t.node.tGrade + SumOf(t.node.left) + SumOf(t.node.right)
  {
    assert Rep(t.left, t.node) && Rep(t.right, t.node);
  }

  lemma {:induction false} FactorExact(t: Shape, p: Tnode?)
    requires t.Bin? && Rep(t, p)
    ensures GetBFactor(t.node) == Factor(t) && Linked(t, p)
    ensures t.node.left == Root(t.left) && t.node.right == Root(t.right)
    ensures Rep(t.left, t.node) && Rep(t.right, t.node)
  {
    assert Linked(t, p);
    if t.left.Bin? { CachesExact(t.left, t.node); }
    if t.right.Bin? { CachesExact(t.right, t.node); }
  }

  /** Where heights and sizes are exact, so is what is recomputed from them, whatever the sums are. */
  lemma {:induction false} LeveledExact(t: Shape, p: Tnode?)
    requires t.Bin? && Leveled(t, p)
    ensures AdjustHeight(t.node) == Height(t) && GetDegree(t.node) == Size(t)
  {
    assert Leveled(t.left, t.node) && Leveled(t.right, t.node);
  }

  lemma {:induction false} LeveledFactor(t: Shape, p: Tnode?)
    requires t.Bin? && Leveled(t, p)
    ensures GetBFactor(t.node) == Factor(t)
  {
    if t.left.Bin? { LeveledExact(t.left, t.node); }
    if t.right.Bin? { LeveledExact(t.right, t.node); }
  }

  lemma LeafRep(n: Tnode, e: Entry)
    requires n.key == e.key && n.data == e.data && n.tGrade == e.grade && n.left == null && n.right == null
    requires n.height == 0 && n.treeNodes == 1 && n.sumGrades == e.grade
    ensures Rep(Leaf(n, e), n.parent)
  {
    assert Size(Leaf(n, e)) == 1 && Height(Leaf(n, e)) == 0;
  }
}
